/**
 * Length text (parsing the user's feet-and-inches input, formatting inches
 * for display, reducing a fraction of an inch) and a line's effective kind.
 * The geometry helpers of the same source file are in module Geometry.
 */
module Utils {
  import opened Wrappers
  import opened JsValues
  import opened Plan

  // ------------------------------------------------------------------
  // Normalising the input text
  // ------------------------------------------------------------------

  /** `′` and `″` stand for `'` and `"`. */
  function PrimeToAscii(c: char): char
  {
    if c == '\U{2032}' then '\'' else if c == '\U{2033}' then '"' else c
  }

  function ReplacePrimes(s: string): string
  {
    seq(|s|, i requires 0 <= i < |s| => PrimeToAscii(s[i]))
  }

  /** The text the length patterns are matched against. */
  function Normalise(input: string): string
  {
    ReplacePrimes(ToLower(Trim(input)))
  }

  // ------------------------------------------------------------------
  // The accepted length forms
  // ------------------------------------------------------------------

  /** A numeral `digits` or `digits.digits`; `frac == []` when there is no point. */
  datatype Decimal = Decimal(whole: string, frac: string)

  predicate ValidDecimal(d: Decimal)
  {
    |d.whole| > 0 && AllDigits(d.whole) && AllDigits(d.frac)
  }

  function DecimalText(d: Decimal): string
  {
    if d.frac == [] then d.whole else d.whole + "." + d.frac
  }

  function DecimalValue(d: Decimal): (r: real)
    requires ValidDecimal(d)
  {
    DigitsValue(d.whole) as real + FractionValue(d.frac)
  }

  datatype FeetMark = Ft | Prime
  datatype InchMark = In | DoublePrime

  function FeetMarkText(m: FeetMark): string
  {
    match m
    case Ft => "ft"
    case Prime => "'"
  }

  function InchMarkText(m: InchMark): string
  {
    match m
    case In => "in"
    case DoublePrime => "\""
  }

  /**
   * The four accepted shapes of a length, with the whitespace between their
   * parts: `10' 6"` / `10ft 6in` / `10' 6`, `10'` / `10ft`, `120"` / `120in`,
   * and a bare number of feet.
   */
  datatype LengthText =
    | FeetAndInches(feet: Decimal, gap1: string, feetMark: FeetMark, gap2: string,
                    inches: Decimal, inchSuffix: Option<(string, InchMark)>)
    | FeetOnly(feet: Decimal, gap: string, feetMark: FeetMark)
    | InchesOnly(inches: Decimal, gap: string, inchMark: InchMark)
    | BareFeet(feet: Decimal)

  predicate ValidText(t: LengthText)
  {
    match t
    case FeetAndInches(feet, gap1, _, gap2, inches, suffix) =>
      ValidDecimal(feet) && AllSpaces(gap1) && AllSpaces(gap2) && gap2 != []
      && ValidDecimal(inches) && (suffix.Some? ==> AllSpaces(suffix.value.0))
    case FeetOnly(feet, gap, _) => ValidDecimal(feet) && AllSpaces(gap)
    case InchesOnly(inches, gap, _) => ValidDecimal(inches) && AllSpaces(gap)
    case BareFeet(feet) => ValidDecimal(feet)
  }

  /** An optional inch mark, after its whitespace, followed by `rest`. */
  function SuffixThen(suffix: Option<(string, InchMark)>, rest: string): string
  {
    match suffix
    case None => rest
    case Some((gap, im)) => gap + (InchMarkText(im) + rest)
  }

  /** The text of `t` followed by `rest`. */
  function RenderThen(t: LengthText, rest: string): string
  {
    match t
    case FeetAndInches(feet, gap1, fm, gap2, inches, suffix) =>
      DecimalText(feet) + (gap1 + (FeetMarkText(fm) + (gap2 + (DecimalText(inches) + SuffixThen(suffix, rest)))))
    case FeetOnly(feet, gap, fm) => DecimalText(feet) + (gap + (FeetMarkText(fm) + rest))
    case InchesOnly(inches, gap, im) => DecimalText(inches) + (gap + (InchMarkText(im) + rest))
    case BareFeet(feet) => DecimalText(feet) + rest
  }

  /** The number of inches a length text stands for (a bare number is feet). */
  function Meaning(t: LengthText): (r: real)
    requires ValidText(t)
    ensures r >= 0.0
  {
    FractionValueBounds(match t case FeetAndInches(_, _, _, _, _, _) => t.inches.frac
                                 case InchesOnly(_, _, _) => t.inches.frac
                                 case _ => []);
    match t
    case FeetAndInches(feet, _, _, _, inches, _) =>
      FractionValueBounds(feet.frac);
      DecimalValue(feet) * 12.0 + DecimalValue(inches)
    case FeetOnly(feet, _, _) => FractionValueBounds(feet.frac); DecimalValue(feet) * 12.0
    case InchesOnly(inches, _, _) => DecimalValue(inches)
    case BareFeet(feet) => FractionValueBounds(feet.frac); DecimalValue(feet) * 12.0
  }

  /** `s` is the text `t`, with whitespace `a` before it and `b` after it. */
  predicate Writes(s: string, a: string, t: LengthText, b: string)
  {
    AllSpaces(a) && AllSpaces(b) && ValidText(t) && s == a + RenderThen(t, b)
  }

  // ------------------------------------------------------------------
  // Matching: one function per regular expression of the source
  // ------------------------------------------------------------------

  /** The numeral `[0-9]+(\.[0-9]+)?` at the front of `s`, taken as long as possible. */
  function ScanDecimal(s: string): (r: Option<(Decimal, string)>)
    ensures r.Some? ==> ValidDecimal(r.value.0) && s == DecimalText(r.value.0) + r.value.1
  {
    var (w, rest) := SpanDigits(s);
    if w == [] then None
    else if |rest| >= 2 && rest[0] == '.' && IsDigit(rest[1]) then
      var (f, rest2) := SpanDigits(rest[1..]);
      assert rest == "." + rest[1..];
      Some((Decimal(w, f), rest2))
    else
      Some((Decimal(w, []), rest))
  }

  function ScanFeetMark(s: string): (r: Option<(FeetMark, string)>)
    ensures r.Some? ==> s == FeetMarkText(r.value.0) + r.value.1
  {
    if |s| >= 2 && s[0] == 'f' && s[1] == 't' then
      assert s == "ft" + s[2..];
      Some((Ft, s[2..]))
    else if |s| >= 1 && s[0] == '\'' then
      assert s == "'" + s[1..];
      Some((Prime, s[1..]))
    else
      None
  }

  function ScanInchMark(s: string): (r: Option<(InchMark, string)>)
    ensures r.Some? ==> s == InchMarkText(r.value.0) + r.value.1
  {
    if |s| >= 2 && s[0] == 'i' && s[1] == 'n' then
      assert s == "in" + s[2..];
      Some((In, s[2..]))
    else if |s| >= 1 && s[0] == '"' then
      assert s == "\"" + s[1..];
      Some((DoublePrime, s[1..]))
    else
      None
  }

  type Match = Option<(string, LengthText, string)>

  predicate Sound(s: string, r: Match)
  {
    r.Some? ==> r.value.1.FeetAndInches? && Writes(s, r.value.0, r.value.1, r.value.2)
  }

  /** The inches part of the first pattern, `\s+NUM\s*(?:in|")?\s*$`. */
  function MatchInchesPart(s: string): Option<(string, Decimal, Option<(string, InchMark)>, string)>
  {
    var (g2, s4) := SpanSpaces(s);
    if g2 == [] then None
    else match ScanDecimal(s4)
      case None => None
      case Some((inches, s5)) =>
        var (g3, s6) := SpanSpaces(s5);
        match ScanInchMark(s6)
        case Some((im, s7)) =>
          var (g4, s8) := SpanSpaces(s7);
          if s8 == [] then Some((g2, inches, Some((g3, im)), g4)) else None
        case None =>
          if s6 == [] then Some((g2, inches, None, g3)) else None
  }

  /** `^\s*NUM\s*(?:ft|')\s+NUM\s*(?:in|")?\s*$` */
  function MatchFeetAndInches(s: string): Match
  {
    var (lead, s0) := SpanSpaces(s);
    match ScanDecimal(s0)
    case None => None
    case Some((feet, s1)) =>
      var (g1, s2) := SpanSpaces(s1);
      match ScanFeetMark(s2)
      case None => None
      case Some((fm, s3)) =>
        match MatchInchesPart(s3)
        case None => None
        case Some((g2, inches, suffix, trailing)) =>
          Some((lead, FeetAndInches(feet, g1, fm, g2, inches, suffix), trailing))
  }

  /** `^\s*NUM\s*(?:ft|')\s*$` */
  function MatchFeetOnly(s: string): Match
  {
    var (lead, s0) := SpanSpaces(s);
    match ScanDecimal(s0)
    case None => None
    case Some((feet, s1)) =>
      var (g1, s2) := SpanSpaces(s1);
      match ScanFeetMark(s2)
      case None => None
      case Some((fm, s3)) =>
        var (g2, s4) := SpanSpaces(s3);
        if s4 == [] then
          Some((lead, FeetOnly(feet, g1, fm), g2))
        else None
  }

  /** `^\s*NUM\s*(?:in|")\s*$` */
  function MatchInchesOnly(s: string): Match
  {
    var (lead, s0) := SpanSpaces(s);
    match ScanDecimal(s0)
    case None => None
    case Some((inches, s1)) =>
      var (g1, s2) := SpanSpaces(s1);
      match ScanInchMark(s2)
      case None => None
      case Some((im, s3)) =>
        var (g2, s4) := SpanSpaces(s3);
        if s4 == [] then
          Some((lead, InchesOnly(inches, g1, im), g2))
        else None
  }

  /** `^\s*NUM\s*$` */
  function MatchBareFeet(s: string): Match
  {
    var (lead, s0) := SpanSpaces(s);
    match ScanDecimal(s0)
    case None => None
    case Some((feet, s1)) =>
      var (g1, s2) := SpanSpaces(s1);
      if s2 == [] then
        Some((lead, BareFeet(feet), g1))
      else None
  }

  /** The patterns in the order the source tries them. */
  function MatchLength(s: string): Match
  {
    var m1 := MatchFeetAndInches(s);
    if m1.Some? then m1
    else
      var m2 := MatchFeetOnly(s);
      if m2.Some? then m2
      else
        var m3 := MatchInchesOnly(s);
        if m3.Some? then m3 else MatchBareFeet(s)
  }

  /** `parseLengthToInches`: the inches a length text stands for, or None. */
  function ParseLengthToInches(input: string): (r: Option<real>)
    ensures r.Some? ==> r.value >= 0.0
  {
    if input == [] then None
    else
      var s := Normalise(input);
      if s == [] then None
      else
        MatchLengthSound(s);
        match MatchLength(s)
        case None => None
        case Some((_, t, _)) => Some(Meaning(t))
  }

  // ------------------------------------------------------------------
  // Soundness of the matchers: what they accept has the shape they report
  // ------------------------------------------------------------------

  lemma MatchInchesPartSound(s: string)
    ensures var r := MatchInchesPart(s);
      r.Some? ==>
      var (gap, inches, suffix, trailing) := r.value;
      AllSpaces(gap) && gap != [] && ValidDecimal(inches) && AllSpaces(trailing)
      && (suffix.Some? ==> AllSpaces(suffix.value.0))
      && s == gap + (DecimalText(inches) + SuffixThen(suffix, trailing))
  {
  }

  lemma MatchFeetAndInchesSound(s: string)
    ensures var r := MatchFeetAndInches(s);
      r.Some? ==> r.value.1.FeetAndInches? && Writes(s, r.value.0, r.value.1, r.value.2)
  {
    var (lead, s0) := SpanSpaces(s);
    match ScanDecimal(s0)
    case None =>
    case Some((feet, s1)) =>
      var (g1, s2) := SpanSpaces(s1);
      match ScanFeetMark(s2)
      case None =>
      case Some((fm, s3)) =>
        MatchInchesPartSound(s3);
  }

  lemma MatchFeetOnlySound(s: string)
    ensures var r := MatchFeetOnly(s);
      r.Some? ==> r.value.1.FeetOnly? && Writes(s, r.value.0, r.value.1, r.value.2)
  {
  }

  lemma MatchInchesOnlySound(s: string)
    ensures var r := MatchInchesOnly(s);
      r.Some? ==> r.value.1.InchesOnly? && Writes(s, r.value.0, r.value.1, r.value.2)
  {
  }

  lemma MatchBareFeetSound(s: string)
    ensures var r := MatchBareFeet(s);
      r.Some? ==> r.value.1.BareFeet? && Writes(s, r.value.0, r.value.1, r.value.2)
  {
  }

  /** What the matcher accepts is one of the four forms, between whitespace. */
  lemma MatchLengthSound(s: string)
    ensures var r := MatchLength(s);
      r.Some? ==> Writes(s, r.value.0, r.value.1, r.value.2)
  {
    MatchFeetAndInchesSound(s);
    MatchFeetOnlySound(s);
    MatchInchesOnlySound(s);
    MatchBareFeetSound(s);
  }

  // ------------------------------------------------------------------
  // Completeness of the matchers
  // ------------------------------------------------------------------

  /** Nothing that can follow a numeral in a length text extends it. */
  predicate EndsNumeral(rest: string)
  {
    rest == [] || (!IsDigit(rest[0]) && rest[0] != '.')
  }

  lemma ScanDecimalOf(d: Decimal, rest: string)
    requires ValidDecimal(d) && EndsNumeral(rest)
    ensures ScanDecimal(DecimalText(d) + rest) == Some((d, rest))
  {
    if d.frac == [] {
      SpanDigitsOf(d.whole, rest);
    } else {
      var after := "." + d.frac + rest;
      assert DecimalText(d) + rest == d.whole + after;
      SpanDigitsOf(d.whole, after);
      assert after[1..] == d.frac + rest;
      SpanDigitsOf(d.frac, rest);
    }
  }

  lemma SpaceEndsNumeral(g: string, rest: string)
    requires AllSpaces(g) && g != []
    ensures EndsNumeral(g + rest) && !IsDigit((g + rest)[0])
  {
  }

  lemma NumeralStart(d: Decimal, rest: string)
    requires ValidDecimal(d)
    ensures DecimalText(d) + rest != [] && IsDigit((DecimalText(d) + rest)[0])
    ensures !IsSpace((DecimalText(d) + rest)[0])
  {
  }

  lemma MatchInchesPartOf(gap: string, inches: Decimal, suffix: Option<(string, InchMark)>, b: string)
    requires AllSpaces(gap) && gap != [] && ValidDecimal(inches) && AllSpaces(b)
    requires suffix.Some? ==> AllSpaces(suffix.value.0)
    ensures MatchInchesPart(gap + (DecimalText(inches) + SuffixThen(suffix, b))) == Some((gap, inches, suffix, b))
  {
    var s5 := SuffixThen(suffix, b);
    var s4 := DecimalText(inches) + s5;
    NumeralStart(inches, s5);
    SpanSpacesOf(gap, s4);
    assert b == b + [];
    match suffix {
      case None =>
        if b != [] { SpaceEndsNumeral(b, []); }
        ScanDecimalOf(inches, b);
        SpanSpacesOf(b, []);
      case Some((g, m)) =>
        var s6 := InchMarkText(m) + b;
        if g != [] { SpaceEndsNumeral(g, s6); }
        ScanDecimalOf(inches, s5);
        SpanSpacesOf(g, s6);
        assert ScanInchMark(s6) == Some((m, b));
        SpanSpacesOf(b, []);
    }
  }

  lemma MatchFeetAndInchesOf(a: string, t: LengthText, b: string)
    requires t.FeetAndInches? && Writes(a + RenderThen(t, b), a, t, b)
    ensures MatchFeetAndInches(a + RenderThen(t, b)) == Some((a, t, b))
  {
    var s3 := t.gap2 + (DecimalText(t.inches) + SuffixThen(t.inchSuffix, b));
    var s2 := FeetMarkText(t.feetMark) + s3;
    var s1 := t.gap1 + s2;
    var s0 := DecimalText(t.feet) + s1;
    NumeralStart(t.feet, s1);
    SpanSpacesOf(a, s0);
    if t.gap1 != [] { SpaceEndsNumeral(t.gap1, s2); }
    ScanDecimalOf(t.feet, s1);
    SpanSpacesOf(t.gap1, s2);
    assert ScanFeetMark(s2) == Some((t.feetMark, s3));
    MatchInchesPartOf(t.gap2, t.inches, t.inchSuffix, b);
    assert a + RenderThen(t, b) == a + s0;
    FeetAndInchesOfSteps(a + s0, a, s0, t.feet, s1, t.gap1, s2, t.feetMark, s3, t.gap2, t.inches, t.inchSuffix, b);
  }

  /** `MatchFeetAndInches` from the results of its scanning steps. */
  lemma FeetAndInchesOfSteps(s: string, lead: string, s0: string, feet: Decimal, s1: string, g1: string, s2: string,
                             fm: FeetMark, s3: string, g2: string, inches: Decimal,
                             suffix: Option<(string, InchMark)>, trailing: string)
    requires SpanSpaces(s) == (lead, s0) && ScanDecimal(s0) == Some((feet, s1))
    requires SpanSpaces(s1) == (g1, s2) && ScanFeetMark(s2) == Some((fm, s3))
    requires MatchInchesPart(s3) == Some((g2, inches, suffix, trailing))
    ensures MatchFeetAndInches(s) == Some((lead, FeetAndInches(feet, g1, fm, g2, inches, suffix), trailing))
  {
  }

  lemma MatchFeetOnlyOf(a: string, t: LengthText, b: string)
    requires t.FeetOnly? && Writes(a + RenderThen(t, b), a, t, b)
    ensures MatchFeetAndInches(a + RenderThen(t, b)) == None
    ensures MatchFeetOnly(a + RenderThen(t, b)) == Some((a, t, b))
  {
    var s2 := FeetMarkText(t.feetMark) + b;
    var s1 := t.gap + s2;
    var s0 := DecimalText(t.feet) + s1;
    NumeralStart(t.feet, s1);
    SpanSpacesOf(a, s0);
    if t.gap != [] { SpaceEndsNumeral(t.gap, s2); }
    ScanDecimalOf(t.feet, s1);
    SpanSpacesOf(t.gap, s2);
    assert ScanFeetMark(s2) == Some((t.feetMark, b));
    assert b == b + [];
    SpanSpacesOf(b, []);
  }

  lemma MatchInchesOnlyOf(a: string, t: LengthText, b: string)
    requires t.InchesOnly? && Writes(a + RenderThen(t, b), a, t, b)
    ensures MatchFeetAndInches(a + RenderThen(t, b)) == None
    ensures MatchFeetOnly(a + RenderThen(t, b)) == None
    ensures MatchInchesOnly(a + RenderThen(t, b)) == Some((a, t, b))
  {
    var s2 := InchMarkText(t.inchMark) + b;
    var s1 := t.gap + s2;
    var s0 := DecimalText(t.inches) + s1;
    NumeralStart(t.inches, s1);
    SpanSpacesOf(a, s0);
    if t.gap != [] { SpaceEndsNumeral(t.gap, s2); }
    ScanDecimalOf(t.inches, s1);
    SpanSpacesOf(t.gap, s2);
    assert ScanFeetMark(s2) == None;
    assert ScanInchMark(s2) == Some((t.inchMark, b));
    assert b == b + [];
    SpanSpacesOf(b, []);
  }

  lemma MatchBareFeetOf(a: string, t: LengthText, b: string)
    requires t.BareFeet? && Writes(a + RenderThen(t, b), a, t, b)
    ensures MatchFeetAndInches(a + RenderThen(t, b)) == None
    ensures MatchFeetOnly(a + RenderThen(t, b)) == None
    ensures MatchInchesOnly(a + RenderThen(t, b)) == None
    ensures MatchBareFeet(a + RenderThen(t, b)) == Some((a, t, b))
  {
    var s0 := DecimalText(t.feet) + b;
    NumeralStart(t.feet, b);
    SpanSpacesOf(a, s0);
    if b != [] { SpaceEndsNumeral(b, []); }
    assert b == b + [];
    ScanDecimalOf(t.feet, b);
    SpanSpacesOf(b, []);
  }

  /** Every text of one of the four forms is matched, and matched as that form. */
  lemma MatchLengthComplete(a: string, t: LengthText, b: string)
    requires Writes(a + RenderThen(t, b), a, t, b)
    ensures MatchLength(a + RenderThen(t, b)) == Some((a, t, b))
  {
    match t {
      case FeetAndInches(_, _, _, _, _, _) => MatchFeetAndInchesOf(a, t, b);
      case FeetOnly(_, _, _) => MatchFeetOnlyOf(a, t, b);
      case InchesOnly(_, _, _) => MatchInchesOnlyOf(a, t, b);
      case BareFeet(_) => MatchBareFeetOf(a, t, b);
    }
  }

  // ------------------------------------------------------------------
  // What the parser accepts
  // ------------------------------------------------------------------

  lemma NormaliseEmpty(input: string)
    requires input == []
    ensures Normalise(input) == []
  {
  }

  /**
   * The parser accepts exactly the four forms: it returns v for `input` if and
   * only if the normalised input is one of them, standing for v inches.
   */
  lemma ParseLengthAccepts(input: string, v: real)
    ensures ParseLengthToInches(input) == Some(v) <==>
            exists a, t, b :: Writes(Normalise(input), a, t, b) && v == Meaning(t)
  {
    MatchLengthSound(Normalise(input));
    if exists a, t, b :: Writes(Normalise(input), a, t, b) && v == Meaning(t) {
      var a, t, b :| Writes(Normalise(input), a, t, b) && v == Meaning(t);
      MatchLengthComplete(a, t, b);
      if input == [] {
        NormaliseEmpty(input);
      }
    }
  }

  /** Blank text (empty or only whitespace) is not a length. */
  lemma ParseBlank(input: string)
    requires AllSpaces(input)
    ensures ParseLengthToInches(input) == None
  {
    TrimOfSpaces(input);
  }

  lemma TrimReplacePrimes(s: string)
    ensures Trim(ReplacePrimes(s)) == ReplacePrimes(Trim(s))
  {
    TrimStartReplacePrimes(s);
    TrimEndReplacePrimes(TrimStart(s));
  }

  lemma {:induction false} TrimStartReplacePrimes(s: string)
    ensures TrimStart(ReplacePrimes(s)) == ReplacePrimes(TrimStart(s))
  {
    if s != [] {
      assert ReplacePrimes(s)[1..] == ReplacePrimes(s[1..]);
      TrimStartReplacePrimes(s[1..]);
    }
  }

  lemma {:induction false} TrimEndReplacePrimes(s: string)
    ensures TrimEnd(ReplacePrimes(s)) == ReplacePrimes(TrimEnd(s))
  {
    if s != [] {
      assert ReplacePrimes(s)[..|s| - 1] == ReplacePrimes(s[..|s| - 1]);
      TrimEndReplacePrimes(s[..|s| - 1]);
    }
  }

  /** `′` and `″` are read exactly as `'` and `"`. */
  lemma ParsePrimesAsQuotes(input: string)
    ensures ParseLengthToInches(ReplacePrimes(input)) == ParseLengthToInches(input)
  {
    TrimReplacePrimes(input);
    var t := Trim(input);
    assert ToLower(ReplacePrimes(t)) == ReplacePrimes(ToLower(t));
    assert ReplacePrimes(ReplacePrimes(ToLower(t))) == ReplacePrimes(ToLower(t));
    assert Normalise(ReplacePrimes(input)) == Normalise(input);
    assert input == [] <==> ReplacePrimes(input) == [];
  }

  // ------------------------------------------------------------------
  // Formatting inches as feet, inches and sixteenths
  // ------------------------------------------------------------------

  /** `Math.round`: the nearest integer, halves rounded up. */
  function Round(x: real): (r: int)
  {
    (x + 0.5).Floor
  }

  lemma FloorShift(y: real, k: int)
    ensures (y - k as real).Floor == y.Floor - k
  {
  }

  /** The feet, whole inches and sixteenths the formatter prints for x >= 0. */
  function FormatParts(x: real): (p: (nat, nat, nat))
    requires x >= 0.0
    ensures p.1 <= 11 && p.2 <= 15
    ensures 192 * p.0 + 16 * p.1 + p.2 == Round(16.0 * x)
  {
    var feet := (x / 12.0).Floor;
    var remaining := x - feet as real * 12.0;
    var sixteenths := Round(remaining * 16.0);
    FloorShift(16.0 * x + 0.5, 192 * feet);
    assert remaining * 16.0 + 0.5 == 16.0 * x + 0.5 - (192 * feet) as real;
    var whole := sixteenths / 16;
    var frac := sixteenths % 16;
    if whole >= 12 then (feet + 1, whole - 12, frac) else (feet, whole, frac)
  }

  function DigitChar(n: nat): (c: char)
    requires n < 10
    ensures IsDigit(c) && DigitValue(c) == n
  {
    ('0' as int + n) as char
  }

  /** `String(n)` for a non-negative integer. */
  function NatToString(n: nat): (s: string)
    ensures |s| > 0 && AllDigits(s)
  {
    if n < 10 then [DigitChar(n)] else NatToString(n / 10) + [DigitChar(n % 10)]
  }

  lemma {:induction false} NatToStringValue(n: nat)
    ensures DigitsValue(NatToString(n)) == n
  {
    if n >= 10 {
      var s := NatToString(n);
      assert s[..|s| - 1] == NatToString(n / 10);
      NatToStringValue(n / 10);
    }
  }

  /** The inch part: whole inches, a glyph for the sixteenths, or both. */
  function InchesText(whole: nat, sixteenths: nat): string
    requires sixteenths < 16
  {
    if sixteenths == 0 then NatToString(whole)
    else if whole == 0 then SimplifyFraction(sixteenths, 16)
    else NatToString(whole) + (" " + SimplifyFraction(sixteenths, 16))
  }

  /** A magnitude's text, after a minus sign when the input was negative. */
  function FormatSigned(negative: bool, magnitude: real): string
    requires magnitude >= 0.0
  {
    if negative then "-" + FormatNonNegative(magnitude) else FormatNonNegative(magnitude)
  }

  /** `formatInchesToFeetInches` for a non-negative number of inches. */
  function FormatNonNegative(x: real): string
    requires x >= 0.0
  {
    var (feet, whole, frac) := FormatParts(x);
    PartsText(feet, whole, frac)
  }

  /** The text `F' I"` for feet, whole inches and sixteenths. */
  function PartsText(feet: nat, whole: nat, frac: nat): string
    requires frac < 16
  {
    NatToString(feet) + ("'" + (" " + (InchesText(whole, frac) + "\"")))
  }

  /**
   * `formatInchesToFeetInches(inches)`: an em dash for a missing or
   * non-finite value, else feet and inches rounded to the nearest sixteenth,
   * with a leading minus sign for negative values.
   */
  function FormatInchesToFeetInches(inches: Number): string
  {
    match inches
    case NotFinite => "\U{2014}"
    case Finite(x) =>
      var negative := x < 0.0;
      FormatSigned(negative, if negative then -x else x)
  }

  /** The value shown is the input rounded to the nearest sixteenth of an inch. */
  lemma FormatIsNearestSixteenth(x: real)
    requires x >= 0.0
    ensures var (feet, whole, frac) := FormatParts(x);
      var shown := 12.0 * feet as real + whole as real + frac as real / 16.0;
      -1.0 / 32.0 < shown - x <= 1.0 / 32.0
  {
  }

  function Gcd(a: nat, b: nat): nat
    decreases b
  {
    if b == 0 then a else Gcd(b, a % b)
  }

  ghost predicate Divides(d: int, n: int)
  {
    exists k: int :: n == d * k
  }

  lemma {:induction false} GcdDivides(a: nat, b: nat)
    ensures Divides(Gcd(a, b), a) && Divides(Gcd(a, b), b)
    decreases b
  {
    if b == 0 {
      assert a == a * 1 && 0 == a * 0;
    } else {
      GcdDivides(b, a % b);
      var g := Gcd(a, b);
      var k1 :| b == g * k1;
      var k2 :| a % b == g * k2;
      assert a == b * (a / b) + a % b;
      assert a == g * (k1 * (a / b) + k2);
    }
  }

  lemma {:induction false} GcdGreatest(a: nat, b: nat, d: int)
    requires Divides(d, a) && Divides(d, b)
    ensures Divides(d, Gcd(a, b))
    decreases b
  {
    if b != 0 {
      var k1 :| a == d * k1;
      var k2 :| b == d * k2;
      assert a % b == a - b * (a / b);
      assert a % b == d * (k1 - k2 * (a / b));
      GcdGreatest(b, a % b, d);
    }
  }

  lemma {:induction false} GcdPositive(a: nat, b: nat)
    requires a > 0 || b > 0
    ensures Gcd(a, b) > 0
    decreases b
  {
    if b != 0 {
      GcdPositive(b, a % b);
    }
  }

  lemma AtLeastFactor(g: int, k: int)
    requires g > 0 && k >= 1
    ensures g * k >= g
  {
    assert g * k - g == g * (k - 1);
  }

  /** A multiple of g strictly between -g and g is zero. */
  lemma SmallMultiple(g: int, k: int)
    requires g > 0 && -g < g * k < g
    ensures k == 0
  {
    if k >= 1 {
      AtLeastFactor(g, k);
    } else if k <= -1 {
      AtLeastFactor(g, -k);
    }
  }

  lemma ExactQuotient(g: int, p: int)
    requires g > 0
    ensures (g * p) / g == p
  {
    var n := g * p;
    assert n == g * (n / g) + n % g;
    assert g * (p - n / g) == n % g;
    SmallMultiple(g, p - n / g);
  }

  lemma UnitFactor(h: int, r: int)
    requires h > 0 && h * r == 1
    ensures h == 1
  {
    if r > 0 {
      AtLeastFactor(h, r);
    }
  }

  lemma CancelFactor(g: int, x: int)
    requires g > 0 && g == g * x
    ensures x == 1
  {
    assert g * (x - 1) == 0;
    SmallMultiple(g, x - 1);
  }

  /** A divisor of n leaves no remainder: n is the divisor times the quotient. */
  lemma DividesQuotient(g: int, n: int)
    requires g > 0 && Divides(g, n)
    ensures n == g * (n / g)
  {
    var p :| n == g * p;
    ExactQuotient(g, p);
  }

  lemma ScaledDivides(g: int, h: int, p: int)
    requires Divides(h, p)
    ensures Divides(g * h, g * p)
  {
    var k :| p == h * k;
    assert g * p == (g * h) * k;
  }

  lemma CancelProduct(g: int, h: int, r: int)
    requires g > 0 && g == (g * h) * r
    ensures h * r == 1
  {
    assert (g * h) * r == g * (h * r);
    CancelFactor(g, h * r);
  }

  /** The parts left after dividing out the gcd have no common factor above 1. */
  lemma QuotientsCoprime(n: nat, d: nat, p: nat, q: nat)
    requires d > 0 && Gcd(n, d) > 0 && n == Gcd(n, d) * p && d == Gcd(n, d) * q
    ensures Gcd(p, q) == 1
  {
    var g := Gcd(n, d);
    assert q > 0;
    GcdPositive(p, q);
    var h := Gcd(p, q);
    GcdDivides(p, q);
    ScaledDivides(g, h, p);
    ScaledDivides(g, h, q);
    GcdGreatest(n, d, g * h);
    var r: int :| g == (g * h) * r;
    CancelProduct(g, h, r);
    UnitFactor(h, r);
  }

  /** Dividing by the gcd leaves a fraction in lowest terms with the same value. */
  lemma ReducedLowestTerms(n: nat, d: nat)
    requires d > 0
    ensures Gcd(n, d) > 0
    ensures n / Gcd(n, d) * Gcd(n, d) == n && d / Gcd(n, d) * Gcd(n, d) == d
    ensures Gcd(n / Gcd(n, d), d / Gcd(n, d)) == 1
  {
    var g := Gcd(n, d);
    GcdPositive(n, d);
    GcdDivides(n, d);
    DividesQuotient(g, n);
    DividesQuotient(g, d);
    QuotientsCoprime(n, d, n / g, d / g);
  }

  /**
   * The glyph table, keyed by (numerator, denominator); the source keys it by
   * the text `numerator + "/" + denominator`, which names the same pair.
   */
  const FractionGlyphs: map<(nat, nat), string> := map[
    (1, 2) := "\U{BD}", (1, 4) := "\U{BC}", (3, 4) := "\U{BE}",
    (1, 8) := "\U{215B}", (3, 8) := "\U{215C}", (5, 8) := "\U{215D}", (7, 8) := "\U{215E}",
    (1, 16) := "\U{B9}\U{2044}\U{2081}\U{2086}", (3, 16) := "\U{B3}\U{2044}\U{2081}\U{2086}",
    (5, 16) := "\U{2075}\U{2044}\U{2081}\U{2086}", (7, 16) := "\U{2077}\U{2044}\U{2081}\U{2086}",
    (9, 16) := "\U{2079}\U{2044}\U{2081}\U{2086}", (11, 16) := "\U{B9}\U{B9}\U{2044}\U{2081}\U{2086}",
    (13, 16) := "\U{B9}\U{B3}\U{2044}\U{2081}\U{2086}", (15, 16) := "\U{B9}\U{2075}\U{2044}\U{2081}\U{2086}"
  ]

  /** `simplifyFraction`: the reduced fraction as a glyph, or as `n/d` when it has none. */
  function SimplifyFraction(numerator: nat, denominator: nat): string
    requires denominator > 0
  {
    GcdPositive(numerator, denominator);
    var divisor := Gcd(numerator, denominator);
    var key := (numerator / divisor, denominator / divisor);
    if key in FractionGlyphs then FractionGlyphs[key]
    else NatToString(key.0) + "/" + NatToString(key.1)
  }

  /** Characters the normalisation leaves alone: no ASCII capitals and no primes. */
  predicate PlainChar(c: char)
  {
    !('A' <= c <= 'Z') && c != '\U{2032}' && c != '\U{2033}'
  }

  /** Text of glyphs outside ASCII that are not whitespace. */
  predicate GlyphText(s: string)
  {
    s != [] && forall i :: 0 <= i < |s| ==> s[i] > '\U{7F}' && PlainChar(s[i]) && !IsSpace(s[i])
  }

  /** The glyphs of the table are non-ASCII, non-space text. */
  lemma GlyphTableText(key: (nat, nat))
    requires key in FractionGlyphs
    ensures GlyphText(FractionGlyphs[key])
  {
  }

  /** The glyph for k/16, given k's reduced key; `n` is k written as a literal. */
  lemma GlyphFor(k: nat, n: nat, g: nat, key: (nat, nat))
    requires k == n && 0 < n && Gcd(n, 16) == g && g > 0
    requires (n / g, 16 / g) == key && key in FractionGlyphs
    ensures GlyphText(SimplifyFraction(k, 16))
  {
    GlyphTableText(key);
  }

  /** Every sixteenth from 1 to 15 is shown as a glyph from the table. */
  lemma SixteenthsHaveGlyphs(k: nat)
    requires 1 <= k <= 15
    ensures GlyphText(SimplifyFraction(k, 16))
  {
    if k == 1 { GlyphFor(k, 1, 1, (1, 16)); }
    else if k == 2 { GlyphFor(k, 2, 2, (1, 8)); }
    else if k == 3 { GlyphFor(k, 3, 1, (3, 16)); }
    else if k == 4 { GlyphFor(k, 4, 4, (1, 4)); }
    else if k == 5 { GlyphFor(k, 5, 1, (5, 16)); }
    else if k == 6 { GlyphFor(k, 6, 2, (3, 8)); }
    else if k == 7 { GlyphFor(k, 7, 1, (7, 16)); }
    else if k == 8 { GlyphFor(k, 8, 8, (1, 2)); }
    else if k == 9 { GlyphFor(k, 9, 1, (9, 16)); }
    else if k == 10 { GlyphFor(k, 10, 2, (5, 8)); }
    else if k == 11 { GlyphFor(k, 11, 1, (11, 16)); }
    else if k == 12 { GlyphFor(k, 12, 4, (3, 4)); }
    else if k == 13 { GlyphFor(k, 13, 1, (13, 16)); }
    else if k == 14 { GlyphFor(k, 14, 2, (7, 8)); }
    else { GlyphFor(k, 15, 1, (15, 16)); }
  }

  // ------------------------------------------------------------------
  // A line's kind
  // ------------------------------------------------------------------

  /** `lineKind(l)`: the line's kind, a wall when it has none. */
  function LineKind(l: Line): (k: Kind)
    ensures l.kind.Some? ==> k == l.kind.value
    ensures l.kind.None? ==> k == Wall
  {
    if l.kind.Some? then l.kind.value else Wall
  }
}
