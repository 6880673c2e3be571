/**
 * The parts of the JavaScript runtime the editor relies on: decoded JSON
 * values, the `Number(...)` coercion, whitespace as `trim` and `\s` see it,
 * digit strings and ASCII case folding.
 */
module JsValues {
  import opened Wrappers

  /** A JavaScript number: a finite value, or one of NaN, +Infinity, -Infinity. */
  datatype Number = Finite(value: real) | NotFinite

  /** A value produced by `JSON.parse`, plus `undefined` for a missing property. */
  datatype Json =
    | Undefined
    | Null
    | Bool(b: bool)
    | Num(x: real)
    | Str(s: string)
    | Arr(elems: seq<Json>)
    | Obj(fields: map<string, Json>)

  /** Property access `v[key]` for the plain keys the editor reads. */
  function Get(v: Json, key: string): Json
  {
    if v.Obj? && key in v.fields then v.fields[key] else Undefined
  }

  /** JavaScript's WhiteSpace and LineTerminator characters (used by `trim` and `\s`). */
  predicate IsSpace(c: char)
  {
    c == '\t' || c == '\n' || c == '\U{B}' || c == '\U{C}' || c == '\r' || c == ' '
    || c == '\U{A0}' || c == '\U{1680}' || ('\U{2000}' <= c <= '\U{200A}')
    || c == '\U{2028}' || c == '\U{2029}' || c == '\U{202F}' || c == '\U{205F}'
    || c == '\U{3000}' || c == '\U{FEFF}'
  }

  predicate AllSpaces(s: string)
  {
    forall i :: 0 <= i < |s| ==> IsSpace(s[i])
  }

  predicate IsDigit(c: char)
  {
    '0' <= c <= '9'
  }

  predicate AllDigits(s: string)
  {
    forall i :: 0 <= i < |s| ==> IsDigit(s[i])
  }

  /** Splits off the longest prefix of whitespace. */
  function SpanSpaces(s: string): (r: (string, string))
    ensures r.0 + r.1 == s && AllSpaces(r.0)
    ensures r.1 == [] || !IsSpace(r.1[0])
  {
    if s != [] && IsSpace(s[0]) then
      var (w, rest) := SpanSpaces(s[1..]);
      assert [s[0]] + w + rest == s;
      ([s[0]] + w, rest)
    else
      ([], s)
  }

  /** Splits off the longest prefix of ASCII digits. */
  function SpanDigits(s: string): (r: (string, string))
    ensures r.0 + r.1 == s && AllDigits(r.0)
    ensures r.1 == [] || !IsDigit(r.1[0])
  {
    if s != [] && IsDigit(s[0]) then
      var (w, rest) := SpanDigits(s[1..]);
      assert [s[0]] + w + rest == s;
      ([s[0]] + w, rest)
    else
      ([], s)
  }

  lemma {:induction false} SpanSpacesOf(w: string, rest: string)
    requires AllSpaces(w)
    requires rest == [] || !IsSpace(rest[0])
    ensures SpanSpaces(w + rest) == (w, rest)
  {
    if w != [] {
      var s := w + rest;
      assert s[0] == w[0] && s[1..] == w[1..] + rest;
      SpanSpacesOf(w[1..], rest);
      assert [w[0]] + w[1..] == w;
      assert SpanSpaces(s) == ([s[0]] + SpanSpaces(s[1..]).0, SpanSpaces(s[1..]).1);
    } else {
      assert w + rest == rest;
    }
  }

  lemma {:induction false} SpanDigitsOf(w: string, rest: string)
    requires AllDigits(w)
    requires rest == [] || !IsDigit(rest[0])
    ensures SpanDigits(w + rest) == (w, rest)
  {
    if w != [] {
      var s := w + rest;
      assert s[0] == w[0] && s[1..] == w[1..] + rest;
      SpanDigitsOf(w[1..], rest);
      assert [w[0]] + w[1..] == w;
      assert SpanDigits(s) == ([s[0]] + SpanDigits(s[1..]).0, SpanDigits(s[1..]).1);
    } else {
      assert w + rest == rest;
    }
  }

  function DigitValue(c: char): nat
    requires IsDigit(c)
  {
    c as int - '0' as int
  }

  /** The value of a decimal digit string, most significant digit first. */
  function DigitsValue(s: string): nat
    requires AllDigits(s)
  {
    if s == [] then 0 else 10 * DigitsValue(s[..|s| - 1]) + DigitValue(s[|s| - 1])
  }

  function Pow10(n: nat): (r: nat)
    ensures r >= 1
  {
    if n == 0 then 1 else 10 * Pow10(n - 1)
  }

  /** The value of the digits after a decimal point. */
  function FractionValue(s: string): (r: real)
    requires AllDigits(s)
    ensures s == [] ==> r == 0.0
  {
    DigitsValue(s) as real / Pow10(|s|) as real
  }

  lemma FractionValueBounds(s: string)
    requires AllDigits(s)
    ensures 0.0 <= FractionValue(s)
  {
  }

  function ToLowerChar(c: char): char
  {
    if 'A' <= c <= 'Z' then (c as int + 32) as char else c
  }

  /** `toLowerCase` on the ASCII letters, the only ones the editor compares against. */
  function ToLower(s: string): (r: string)
  {
    seq(|s|, i requires 0 <= i < |s| => ToLowerChar(s[i]))
  }

  function TrimStart(s: string): string
  {
    if s != [] && IsSpace(s[0]) then TrimStart(s[1..]) else s
  }

  function TrimEnd(s: string): string
  {
    if s != [] && IsSpace(s[|s| - 1]) then TrimEnd(s[..|s| - 1]) else s
  }

  /** `String.prototype.trim`. */
  function Trim(s: string): string
  {
    TrimEnd(TrimStart(s))
  }

  lemma {:induction false} TrimStartShape(s: string)
    ensures exists a :: AllSpaces(a) && s == a + TrimStart(s)
    ensures TrimStart(s) == [] || !IsSpace(TrimStart(s)[0])
  {
    if s != [] && IsSpace(s[0]) {
      TrimStartShape(s[1..]);
      var a :| AllSpaces(a) && s[1..] == a + TrimStart(s[1..]);
      assert s == [s[0]] + a + TrimStart(s);
      assert AllSpaces([s[0]] + a);
    } else {
      assert s == [] + TrimStart(s);
    }
  }

  lemma {:induction false} TrimEndShape(s: string)
    ensures exists b :: AllSpaces(b) && s == TrimEnd(s) + b
    ensures TrimEnd(s) == [] || !IsSpace(TrimEnd(s)[|TrimEnd(s)| - 1])
    ensures s != [] && !IsSpace(s[0]) ==> TrimEnd(s) != [] && TrimEnd(s)[0] == s[0]
  {
    if s != [] && IsSpace(s[|s| - 1]) {
      TrimEndShape(s[..|s| - 1]);
      var b :| AllSpaces(b) && s[..|s| - 1] == TrimEnd(s[..|s| - 1]) + b;
      assert s == TrimEnd(s) + (b + [s[|s| - 1]]);
      assert AllSpaces(b + [s[|s| - 1]]);
    } else {
      assert s == TrimEnd(s) + [];
    }
  }

  /** `trim` removes whitespace from both ends and nothing else. */
  lemma TrimShape(s: string)
    ensures exists a, b :: AllSpaces(a) && AllSpaces(b) && s == a + Trim(s) + b
    ensures Trim(s) == [] || (!IsSpace(Trim(s)[0]) && !IsSpace(Trim(s)[|Trim(s)| - 1]))
  {
    TrimStartShape(s);
    var a :| AllSpaces(a) && s == a + TrimStart(s);
    TrimEndShape(TrimStart(s));
    var b :| AllSpaces(b) && TrimStart(s) == TrimEnd(TrimStart(s)) + b;
    assert s == a + Trim(s) + b;
  }

  lemma {:induction false} TrimOfUntrimmed(s: string)
    requires s != [] && !IsSpace(s[0]) && !IsSpace(s[|s| - 1])
    ensures Trim(s) == s
  {
  }

  lemma {:induction false} TrimOfSpaces(s: string)
    requires AllSpaces(s)
    ensures Trim(s) == []
  {
    if s != [] {
      TrimOfSpaces(s[1..]);
    }
  }

  /** `m` times ten to the power `e`. */
  function Scale10(m: real, e: int): (r: real)
    ensures e == 0 ==> r == m
  {
    if e >= 0 then m * Pow10(e) as real else m / Pow10(-e) as real
  }

  /** An exponent's digits with an optional sign, as in `3`, `+3` or `-3`. */
  function ExponentValue(s: string): Option<int>
  {
    var signed := s != [] && (s[0] == '-' || s[0] == '+');
    var digits := if signed then s[1..] else s;
    if digits == [] || !AllDigits(digits) then None
    else if s[0] == '-' then Some(-(DigitsValue(digits) as int))
    else Some(DigitsValue(digits) as int)
  }

  /** After the whole digits: the fraction digits behind an optional point, and what follows them. */
  function SpanFraction(rest: string): (r: (string, string))
    ensures AllDigits(r.0)
  {
    if rest != [] && rest[0] == '.' then SpanDigits(rest[1..]) else ([], rest)
  }

  /** After the fraction: nothing (exponent 0), or `e` or `E` and a signed exponent. */
  function ExponentPart(rest: string): Option<int>
  {
    if rest == [] then Some(0)
    else if rest[0] == 'e' || rest[0] == 'E' then ExponentValue(rest[1..])
    else None
  }

  /**
   * An unsigned decimal literal as `Number` reads it: digits with an optional
   * point and fraction, either part possibly empty but not both (`12`, `12.`,
   * `12.5`, `.5`), then an exponent (0 when no `e` or `E` follows).
   */
  datatype DecimalLiteral = DecimalLiteral(whole: string, frac: string, exponent: int)

  predicate ValidLiteral(l: DecimalLiteral)
  {
    AllDigits(l.whole) && AllDigits(l.frac) && (l.whole != [] || l.frac != [])
  }

  /** The exact value a literal denotes (before rounding to a double). */
  function LiteralValue(l: DecimalLiteral): real
    requires ValidLiteral(l)
  {
    Scale10(DigitsValue(l.whole) as real + FractionValue(l.frac), l.exponent)
  }

  /** The whole of `s` read as an unsigned decimal literal (`1e3`, `2.5E-1`), if it is one. */
  function ScanUnsignedDecimal(s: string): (r: Option<DecimalLiteral>)
    ensures r.Some? ==> ValidLiteral(r.value)
  {
    var (w, rest) := SpanDigits(s);
    var (f, rest2) := SpanFraction(rest);
    if w == [] && f == [] then None
    else match ExponentPart(rest2)
      case None => None
      case Some(e) => Some(DecimalLiteral(w, f, e))
  }

  /** The value of `c` as a hexadecimal digit, either case, if it is one. */
  function HexDigitValue(c: char): (r: Option<nat>)
    ensures r.Some? ==> r.value < 16 && !IsSpace(c)
  {
    if '0' <= c <= '9' then Some(c as int - '0' as int)
    else if 'a' <= c <= 'f' then Some(c as int - 'a' as int + 10)
    else if 'A' <= c <= 'F' then Some(c as int - 'A' as int + 10)
    else None
  }

  /** The value of `c` as a digit in base `radix` (2, 8 or 16 here), if it is one. */
  function RadixDigit(c: char, radix: nat): (r: Option<nat>)
    ensures r.Some? ==> r.value < radix && !IsSpace(c)
  {
    var d := HexDigitValue(c);
    if d.Some? && d.value < radix then d else None
  }

  /** The value of a non-empty string of base-`radix` digits, most significant first. */
  function RadixDigitsValue(s: string, radix: nat): Option<nat>
  {
    if s == [] then None
    else
      var d := RadixDigit(s[|s| - 1], radix);
      if d.None? then None
      else if |s| == 1 then d
      else match RadixDigitsValue(s[..|s| - 1], radix)
        case None => None
        case Some(v) => Some(v * radix + d.value)
  }

  /** The base a letter after a leading `0` selects: 16 for `x`, 8 for `o`, 2 for `b` (either case); 0 for none. */
  function RadixOf(c: char): nat
  {
    if c == 'x' || c == 'X' then 16
    else if c == 'o' || c == 'O' then 8
    else if c == 'b' || c == 'B' then 2
    else 0
  }

  predicate RadixLetter(c: char)
  {
    RadixOf(c) != 0
  }

  /** The unsigned non-decimal integer literals `Number` reads: `0x1F`, `0o17`, `0b101` (either case of letter). */
  function NonDecimalValue(t: string): Option<nat>
  {
    if |t| < 2 || t[0] != '0' then None
    else
      var radix := RadixOf(t[1]);
      if radix == 0 then None else RadixDigitsValue(t[2..], radix)
  }

  /**
   * The least magnitude a double rounds up to Infinity: 2^1024 - 2^970, the
   * midpoint between the largest finite double and 2^1024.
   */
  const DoubleOverflow: real := 179769313486231580793728971405303415079934132710037826936173778980444968292764750946649017977587207096330286416692887910946555547851940402630657488671505820681908902000708383676273854845817711531764475730270069855571366959622842914819860834936475292719074168444365510704342711559699508093042880177904174497792.0

  /** A magnitude as a double: finite below the overflow bound, Infinity from it on. */
  function InDoubleRange(v: real): Number
  {
    if v < DoubleOverflow then Finite(v) else NotFinite
  }

  /**
   * `Number(s)` for a string, after trimming white space: blank is 0; an
   * unsigned `0x`, `0o` or `0b` integer is that integer; a decimal with an
   * optional sign and exponent is its value; `Infinity` with an optional
   * sign, a magnitude too large for a double, and anything else are not
   * finite.
   */
  function StringToNumber(s: string): Number
  {
    TrimmedToNumber(Trim(s))
  }

  /** `Number` on text without surrounding white space. */
  function TrimmedToNumber(t: string): Number
  {
    if t == [] then Finite(0.0)
    else match NonDecimalValue(t)
      case Some(n) => InDoubleRange(n as real)
      case None =>
        if t[0] == '-' then Negate(UnsignedToNumber(t[1..]))
        else if t[0] == '+' then UnsignedToNumber(t[1..])
        else UnsignedToNumber(t)
  }

  /** `Infinity`, or an unsigned decimal literal as a double. */
  function UnsignedToNumber(body: string): Number
  {
    if body == "Infinity" then NotFinite
    else match ScanUnsignedDecimal(body)
      case None => NotFinite
      case Some(l) => InDoubleRange(LiteralValue(l))
  }

  function Negate(n: Number): Number
  {
    match n
    case Finite(v) => Finite(-v)
    case NotFinite => NotFinite
  }

  /** A point and digits give the fraction, up to the first character that is not a digit. */
  lemma FractionOf(f: string, rest: string)
    requires AllDigits(f) && (rest == [] || !IsDigit(rest[0]))
    ensures SpanFraction("." + f + rest) == (f, rest)
  {
    var after := "." + f + rest;
    assert after[1..] == f + rest;
    SpanDigitsOf(f, rest);
  }

  lemma ExponentPartOf(marker: char, x: string)
    requires marker == 'e' || marker == 'E'
    ensures ExponentPart([marker] + x) == ExponentValue(x)
  {
    assert ([marker] + x)[1..] == x;
  }

  /** The scan from its three steps: whole digits, fraction and exponent part. */
  lemma ScanOfParts(w: string, rest: string, f: string, rest2: string, e: int)
    requires SpanDigits(w + rest) == (w, rest) && SpanFraction(rest) == (f, rest2)
    requires w != [] || f != []
    requires ExponentPart(rest2) == Some(e)
    ensures ScanUnsignedDecimal(w + rest) == Some(DecimalLiteral(w, f, e))
  {
  }

  /** A string of digits is a literal with no fraction and exponent 0, worth the digits' value. */
  lemma IntegerLiteral(w: string)
    requires AllDigits(w) && w != []
    ensures ScanUnsignedDecimal(w) == Some(DecimalLiteral(w, [], 0))
    ensures LiteralValue(DecimalLiteral(w, [], 0)) == DigitsValue(w) as real
  {
    SpanDigitsOf(w, []);
    assert w + [] == w;
    ScanOfParts(w, [], [], [], 0);
  }

  /** Digits, a point and digits are a literal with exponent 0. */
  lemma PointedLiteral(w: string, f: string)
    requires AllDigits(w) && AllDigits(f) && (w != [] || f != [])
    ensures ScanUnsignedDecimal(w + "." + f) == Some(DecimalLiteral(w, f, 0))
  {
    var rest := "." + f + [];
    assert w + "." + f == w + rest;
    SpanDigitsOf(w, rest);
    FractionOf(f, []);
    ScanOfParts(w, rest, f, [], 0);
  }

  /** Digits and an exponent part are a literal with that exponent. */
  lemma ScientificLiteral(w: string, marker: char, x: string)
    requires AllDigits(w) && w != [] && (marker == 'e' || marker == 'E') && ExponentValue(x).Some?
    ensures ScanUnsignedDecimal(w + [marker] + x) == Some(DecimalLiteral(w, [], ExponentValue(x).value))
  {
    var rest := [marker] + x;
    assert w + [marker] + x == w + rest;
    SpanDigitsOf(w, rest);
    ExponentPartOf(marker, x);
    ScanOfParts(w, rest, [], rest, ExponentValue(x).value);
  }

  /** Digits, a point, digits and an exponent part are a literal with that exponent. */
  lemma PointedScientificLiteral(w: string, f: string, marker: char, x: string)
    requires AllDigits(w) && AllDigits(f) && (w != [] || f != [])
    requires (marker == 'e' || marker == 'E') && ExponentValue(x).Some?
    ensures ScanUnsignedDecimal(w + "." + f + [marker] + x) == Some(DecimalLiteral(w, f, ExponentValue(x).value))
  {
    var rest2 := [marker] + x;
    var rest := "." + f + rest2;
    assert w + "." + f + [marker] + x == w + rest;
    SpanDigitsOf(w, rest);
    FractionOf(f, rest2);
    ExponentPartOf(marker, x);
    ScanOfParts(w, rest, f, rest2, ExponentValue(x).value);
  }

  /** Text with no white space at either end is read as it stands. */
  lemma UntrimmedNumber(t: string)
    requires t != [] && !IsSpace(t[0]) && !IsSpace(t[|t| - 1])
    ensures StringToNumber(t) == TrimmedToNumber(t)
  {
    TrimOfUntrimmed(t);
  }

  /** A leading sign is kept by trimming, and the rest of the text after it is unchanged. */
  lemma SignedUntrimmed(sign: char, t: string)
    requires sign == '+' || sign == '-'
    requires t != [] && !IsSpace(t[|t| - 1])
    ensures StringToNumber([sign] + t) == TrimmedToNumber([sign] + t)
    ensures ([sign] + t)[1..] == t && NonDecimalValue([sign] + t) == None
  {
    var st := [sign] + t;
    assert st[|st| - 1] == t[|t| - 1];
    UntrimmedNumber(st);
  }

  /**
   * An unsigned decimal literal with nothing around it reads as its value
   * rounded to a double: exact, or not finite when too large for one.
   */
  lemma DecimalNumber(t: string, l: DecimalLiteral)
    requires t != [] && (IsDigit(t[0]) || t[0] == '.') && !IsSpace(t[|t| - 1])
    requires !(t[0] == '0' && |t| >= 2 && RadixLetter(t[1]))
    requires ScanUnsignedDecimal(t) == Some(l)
    ensures StringToNumber(t) == InDoubleRange(LiteralValue(l))
  {
    UntrimmedNumber(t);
    assert NonDecimalValue(t) == None;
    assert t != "Infinity" by {
      assert IsDigit(t[0]) || t[0] == '.';
    }
  }

  /** After a `+` the literal reads as without it; after a `-`, as its negation. */
  lemma SignedDecimalNumber(sign: char, t: string, l: DecimalLiteral)
    requires sign == '+' || sign == '-'
    requires t != [] && !IsSpace(t[|t| - 1])
    requires ScanUnsignedDecimal(t) == Some(l)
    ensures StringToNumber([sign] + t) ==
            if sign == '-' then Negate(InDoubleRange(LiteralValue(l))) else InDoubleRange(LiteralValue(l))
  {
    SignedUntrimmed(sign, t);
    assert t != "Infinity";
  }

  /** A `0x`, `0o` or `0b` integer ends in a digit of its base, never in white space. */
  lemma NonDecimalEnd(t: string)
    requires NonDecimalValue(t).Some?
    ensures !IsSpace(t[0]) && !IsSpace(t[|t| - 1])
  {
    assert RadixDigitsValue(t[2..], RadixOf(t[1])).Some?;
    assert t[|t| - 1] == t[2..][|t[2..]| - 1];
  }

  /** A `0x`, `0o` or `0b` integer is neither a decimal literal nor `Infinity`. */
  lemma NonDecimalIsNotDecimal(t: string)
    requires NonDecimalValue(t).Some?
    ensures ScanUnsignedDecimal(t) == None && t != "Infinity"
  {
    // The decimal reading stops at the radix letter after the leading zero.
    SpanDigitsOf("0", t[1..]);
    assert "0" + t[1..] == t;
    assert t[1..][0] == t[1];
  }

  /** A `0x`, `0o` or `0b` integer with nothing around it reads as its value as a double. */
  lemma NonDecimalNumber(t: string)
    requires NonDecimalValue(t).Some?
    ensures StringToNumber(t) == InDoubleRange(NonDecimalValue(t).value as real)
  {
    NonDecimalEnd(t);
    UntrimmedNumber(t);
  }

  /** A sign in front of a `0x`, `0o` or `0b` integer makes it NaN: `Number("-0x10")` is not -16. */
  lemma SignedNonDecimalIsNaN(sign: char, t: string)
    requires sign == '+' || sign == '-'
    requires NonDecimalValue(t).Some?
    ensures StringToNumber([sign] + t) == NotFinite
  {
    NonDecimalEnd(t);
    SignedUntrimmed(sign, t);
    NonDecimalIsNotDecimal(t);
  }

  /** `Number("1e3")` is 1000. */
  lemma ReadsScientific()
    ensures StringToNumber("1e3") == Finite(1000.0)
  {
    assert ExponentValue("3") == Some(3);
    assert "1" + ['e'] + "3" == "1e3";
    ScientificLiteral("1", 'e', "3");
    assert LiteralValue(DecimalLiteral("1", [], 3)) == 1000.0 by {
      assert DigitsValue("1") == 1;
      assert Pow10(3) == 1000;
    }
    DecimalNumber("1e3", DecimalLiteral("1", [], 3));
  }

  lemma SixteenInHex()
    ensures NonDecimalValue("0x10") == Some(16)
  {
    assert "0x10"[2..] == "10";
    assert RadixDigitsValue("1", 16) == Some(1);
  }

  /** `Number("0x10")` is 16. */
  lemma ReadsHexadecimal()
    ensures StringToNumber("0x10") == Finite(16.0)
  {
    SixteenInHex();
    NonDecimalNumber("0x10");
  }

  /** `Number("-0x10")` is NaN. */
  lemma ReadsSignedHexadecimal()
    ensures StringToNumber("-0x10") == NotFinite
  {
    SixteenInHex();
    SignedNonDecimalIsNaN('-', "0x10");
    assert ['-'] + "0x10" == "-0x10";
  }

  /** `Number(v)` on a decoded JSON value. */
  function ToNumber(v: Json): Number
  {
    match v
    case Undefined => NotFinite
    case Null => Finite(0.0)
    case Bool(b) => Finite(if b then 1.0 else 0.0)
    case Num(x) => Finite(x)
    case Str(s) => StringToNumber(s)
    case Obj(_) => NotFinite
    case Arr(elems) =>
      // An array converts through its string form: "" for [], the element's
      // own string for a single element, and a comma-separated list otherwise.
      if |elems| == 0 then Finite(0.0)
      else if |elems| > 1 then NotFinite
      else match elems[0]
        case Undefined => Finite(0.0)
        case Null => Finite(0.0)
        case Bool(_) => NotFinite
        case Num(x) => Finite(x)
        case Str(s) => StringToNumber(s)
        case Obj(_) => NotFinite
        case Arr(_) => ToNumber(elems[0])
  }
}
