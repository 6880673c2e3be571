/**
 * Formatting a length and reading the text back: the formatter's output for
 * a whole number of inches parses to that number, while its fraction glyphs
 * and its minus sign are not read by the parser.
 */
module FormatParse {
  import opened Wrappers
  import opened JsValues
  import opened Utils

  predicate PlainText(s: string)
  {
    forall i :: 0 <= i < |s| ==> PlainChar(s[i])
  }

  lemma PlainConcat(a: string, b: string)
    requires PlainText(a) && PlainText(b)
    ensures PlainText(a + b)
  {
  }

  lemma DigitsArePlain(s: string)
    requires AllDigits(s)
    ensures PlainText(s)
  {
  }

  /** Text without capitals, primes or surrounding whitespace is its own normal form. */
  lemma NormaliseOfPlain(s: string)
    requires s != [] && !IsSpace(s[0]) && !IsSpace(s[|s| - 1]) && PlainText(s)
    ensures Normalise(s) == s
  {
    TrimOfUntrimmed(s);
    assert ToLower(s) == s;
    assert ReplacePrimes(s) == s;
  }

  /** Text in normal form that no pattern matches is not a length. */
  lemma ParseNormalUnmatched(s: string)
    requires s != [] && Normalise(s) == s && MatchLength(s) == None
    ensures ParseLengthToInches(s) == None
  {
  }

  lemma InchesTextPlain(whole: nat, frac: nat)
    requires frac < 16
    ensures PlainText(InchesText(whole, frac))
  {
    DigitsArePlain(NatToString(whole));
    if frac != 0 {
      SixteenthsHaveGlyphs(frac);
      if whole != 0 {
        PlainConcat(" ", SimplifyFraction(frac, 16));
        PlainConcat(NatToString(whole), " " + SimplifyFraction(frac, 16));
      }
    }
  }

  /** The formatter's text starts with a digit, ends with `"` and needs no normalising. */
  lemma PartsTextPlain(feet: nat, whole: nat, frac: nat)
    requires frac < 16
    ensures var text := PartsText(feet, whole, frac);
      text != [] && IsDigit(text[0]) && text[|text| - 1] == '"' && PlainText(text)
  {
    var f := NatToString(feet);
    var tail := "'" + (" " + (InchesText(whole, frac) + "\""));
    InchesTextPlain(whole, frac);
    PlainConcat(InchesText(whole, frac), "\"");
    PlainConcat(" ", InchesText(whole, frac) + "\"");
    PlainConcat("'", " " + (InchesText(whole, frac) + "\""));
    DigitsArePlain(f);
    PlainConcat(f, tail);
  }

  /** A text the formatter produces for a whole number of inches: `F' W"`. */
  function WholeInchesText(feet: nat, whole: nat): LengthText
  {
    FeetAndInches(Decimal(NatToString(feet), []), [], Prime, " ",
                  Decimal(NatToString(whole), []), Some(([], DoublePrime)))
  }

  lemma WholeInchesMeaning(feet: nat, whole: nat)
    ensures ValidText(WholeInchesText(feet, whole))
    ensures Meaning(WholeInchesText(feet, whole)) == (feet * 12 + whole) as real
  {
    NatToStringValue(feet);
    NatToStringValue(whole);
  }

  /** `F' W"` parses as F feet and W inches. */
  lemma WholeInchesTextParses(text: string, feet: nat, whole: nat)
    requires text == NatToString(feet) + ("'" + (" " + (NatToString(whole) + "\"")))
    requires PlainText(text)
    ensures ParseLengthToInches(text) == Some((feet * 12 + whole) as real)
  {
    var t := WholeInchesText(feet, whole);
    WholeInchesMeaning(feet, whole);
    WholeInchesWrites(text, feet, whole);
    var tail := "'" + (" " + (NatToString(whole) + "\""));
    assert tail[|tail| - 1] == '"';
    PlainEnds(text, NatToString(feet), tail);
    NormaliseOfPlain(text);
    ParseLengthAccepts(text, Meaning(t));
  }

  lemma WholeInchesWrites(text: string, feet: nat, whole: nat)
    requires text == NatToString(feet) + ("'" + (" " + (NatToString(whole) + "\"")))
    ensures Writes(text, [], WholeInchesText(feet, whole), [])
  {
    WholeInchesMeaning(feet, whole);
    var f, w := NatToString(feet), NatToString(whole);
    assert SuffixThen(Some(([], DoublePrime)), []) == "\"";
    assert RenderThen(WholeInchesText(feet, whole), []) == f + ([] + ("'" + (" " + (w + "\""))));
    assert [] + ("'" + (" " + (w + "\""))) == "'" + (" " + (w + "\""));
    assert text == [] + text;
  }

  /** A text that starts with digits and ends with `"` has no whitespace at either end. */
  lemma PlainEnds(text: string, f: string, tail: string)
    requires |f| > 0 && AllDigits(f) && tail != [] && tail[|tail| - 1] == '"' && text == f + tail
    ensures text != [] && !IsSpace(text[0]) && !IsSpace(text[|text| - 1])
  {
  }

  lemma WholePartsParse(feet: nat, whole: nat)
    ensures ParseLengthToInches(PartsText(feet, whole, 0)) == Some((feet * 12 + whole) as real)
  {
    PartsTextPlain(feet, whole, 0);
    WholeInchesTextParses(PartsText(feet, whole, 0), feet, whole);
  }

  /** The inch part with a glyph: empty or `W `, then the glyph and `"`. */
  predicate GlyphInches(p: string, g: string)
  {
    GlyphText(g) && (p == [] || (p[|p| - 1] == ' ' && |p| > 1 && AllDigits(p[..|p| - 1])))
  }

  /** After `F'`, the rest ` P G"` (G a glyph) matches no inch part. */
  lemma GlyphInchesUnmatched(p: string, g: string)
    requires GlyphInches(p, g)
    ensures MatchInchesPart(" " + (p + (g + "\""))) == None
  {
    var s4 := p + (g + "\"");
    SpanSpacesOf(" ", s4);
    if p == [] {
      GlyphNotDecimal(g);
      assert s4 == g + "\"";
      InchesPartNoNumber(" " + s4, " ", s4);
    } else {
      var w := p[..|p| - 1];
      var s5 := " " + (g + "\"");
      assert s4 == w + s5;
      WholeThenGlyph(w, g);
      InchesPartNoMark(" " + s4, " ", s4, Decimal(w, []), s5, " ", g + "\"");
    }
  }

  lemma GlyphNotDecimal(g: string)
    requires GlyphText(g)
    ensures ScanDecimal(g + "\"") == None
  {
    SpanDigitsOf([], g + "\"");
    assert [] + (g + "\"") == g + "\"";
  }

  lemma InchesPartNoNumber(s: string, g2: string, s4: string)
    requires g2 != [] && SpanSpaces(s) == (g2, s4) && ScanDecimal(s4) == None
    ensures MatchInchesPart(s) == None
  {
  }

  lemma InchesPartNoMark(s: string, g2: string, s4: string, inches: Decimal, s5: string, g3: string, s6: string)
    requires SpanSpaces(s) == (g2, s4) && ScanDecimal(s4) == Some((inches, s5))
    requires SpanSpaces(s5) == (g3, s6) && ScanInchMark(s6) == None && s6 != []
    ensures MatchInchesPart(s) == None
  {
  }

  /** `W G"`: the whole inches scan, then a space, and the glyph is no inch mark. */
  lemma WholeThenGlyph(w: string, g: string)
    requires |w| > 0 && AllDigits(w) && GlyphText(g)
    ensures var s5 := " " + (g + "\"");
            ScanDecimal(w + s5) == Some((Decimal(w, []), s5)) &&
            SpanSpaces(s5) == (" ", g + "\"") && ScanInchMark(g + "\"") == None
  {
    var s5 := " " + (g + "\"");
    SpanDigitsOf(w, s5);
    SpanSpacesOf(" ", g + "\"");
  }

  lemma FeetPrefix(f: string, s2: string)
    requires |f| > 0 && AllDigits(f) && s2 != [] && s2[0] == '\''
    ensures SpanSpaces(f + s2) == ([], f + s2)
    ensures ScanDecimal(f + s2) == Some((Decimal(f, []), s2))
    ensures SpanSpaces(s2) == ([], s2)
  {
    SpanDigitsOf(f, s2);
    SpanSpacesOf([], f + s2);
    SpanSpacesOf([], s2);
  }

  lemma GlyphFeetAndInchesUnmatched(f: string, p: string, g: string)
    requires |f| > 0 && AllDigits(f) && GlyphInches(p, g)
    ensures MatchFeetAndInches(f + ("'" + (" " + (p + (g + "\""))))) == None
  {
    var s3 := " " + (p + (g + "\""));
    FeetPrefix(f, "'" + s3);
    assert ScanFeetMark("'" + s3) == Some((Prime, s3));
    GlyphInchesUnmatched(p, g);
  }

  lemma GlyphFeetOnlyUnmatched(f: string, p: string, g: string)
    requires |f| > 0 && AllDigits(f) && GlyphInches(p, g)
    ensures MatchFeetOnly(f + ("'" + (" " + (p + (g + "\""))))) == None
  {
    var rest := p + (g + "\"");
    var s3 := " " + rest;
    FeetPrefix(f, "'" + s3);
    assert ScanFeetMark("'" + s3) == Some((Prime, s3));
    assert rest != [];
    SpanSpacesOf(" ", rest);
  }

  lemma GlyphOthersUnmatched(f: string, p: string, g: string)
    requires |f| > 0 && AllDigits(f) && GlyphInches(p, g)
    ensures MatchInchesOnly(f + ("'" + (" " + (p + (g + "\""))))) == None
    ensures MatchBareFeet(f + ("'" + (" " + (p + (g + "\""))))) == None
  {
    var s2 := "'" + (" " + (p + (g + "\"")));
    FeetPrefix(f, s2);
    assert ScanInchMark(s2) == None;
  }

  /** `F' G"` and `F' W G"`, with G a glyph, are not lengths. */
  lemma GlyphTextUnparsed(text: string, f: string, p: string, g: string)
    requires text == f + ("'" + (" " + (p + (g + "\""))))
    requires |f| > 0 && AllDigits(f) && GlyphInches(p, g) && PlainText(text)
    ensures ParseLengthToInches(text) == None
  {
    GlyphFeetAndInchesUnmatched(f, p, g);
    GlyphFeetOnlyUnmatched(f, p, g);
    GlyphOthersUnmatched(f, p, g);
    NormaliseOfPlain(text);
    ParseNormalUnmatched(text);
  }

  /** The inch part with a glyph is an optional `W ` and the glyph. */
  lemma GlyphInchesOfParts(whole: nat, frac: nat, p: string, g: string)
    requires 0 < frac < 16 && g == SimplifyFraction(frac, 16)
    requires p == if whole == 0 then [] else NatToString(whole) + " "
    ensures InchesText(whole, frac) == p + g
  {
    if whole == 0 {
      assert InchesText(whole, frac) == g;
      assert p + g == g;
    } else {
      assert InchesText(whole, frac) == NatToString(whole) + (" " + g);
      ConcatAssoc(NatToString(whole), " ", g);
    }
  }

  lemma ConcatAssoc(a: string, b: string, c: string)
    ensures (a + b) + c == a + (b + c)
  {
  }

  lemma WholePrefixGlyph(whole: nat, p: string, g: string)
    requires GlyphText(g) && p == if whole == 0 then [] else NatToString(whole) + " "
    ensures GlyphInches(p, g)
  {
    if whole != 0 {
      assert p[..|p| - 1] == NatToString(whole);
    }
  }

  lemma FractionPartsShape(feet: nat, whole: nat, frac: nat, p: string, g: string)
    requires 0 < frac < 16 && InchesText(whole, frac) == p + g
    ensures PartsText(feet, whole, frac) == NatToString(feet) + ("'" + (" " + (p + (g + "\""))))
  {
    assert (p + g) + "\"" == p + (g + "\"");
  }

  lemma FractionPartsUnparsed(feet: nat, whole: nat, frac: nat)
    requires 0 < frac < 16
    ensures ParseLengthToInches(PartsText(feet, whole, frac)) == None
  {
    var g := SimplifyFraction(frac, 16);
    var p := if whole == 0 then [] else NatToString(whole) + " ";
    SixteenthsHaveGlyphs(frac);
    WholePrefixGlyph(whole, p, g);
    GlyphInchesOfParts(whole, frac, p, g);
    FractionPartsShape(feet, whole, frac, p, g);
    PartsTextPlain(feet, whole, frac);
    GlyphTextUnparsed(PartsText(feet, whole, frac), NatToString(feet), p, g);
  }

  /** The formatter's text is read back exactly when it shows no fraction of an inch. */
  lemma PartsTextParse(feet: nat, whole: nat, frac: nat)
    requires frac < 16
    ensures ParseLengthToInches(PartsText(feet, whole, frac)) ==
            if frac == 0 then Some((feet * 12 + whole) as real) else None
  {
    if frac == 0 {
      WholePartsParse(feet, whole);
    } else {
      FractionPartsUnparsed(feet, whole, frac);
    }
  }

  /** A count of sixteenths split as the formatter's parts. */
  lemma SixteenthsOfParts(r: int, feet: nat, whole: nat, frac: nat)
    requires r == 192 * feet + 16 * whole + frac && frac < 16
    ensures r % 16 == frac && r / 16 == feet * 12 + whole
  {
  }

  /**
   * Formatting then parsing, for the parts the formatter computes: a length
   * shown without a fraction of an inch comes back as that many inches; one
   * with a fraction does not come back at all, because the parser does not
   * read fraction glyphs.
   */
  lemma FormatPartsThenParse(x: real, feet: nat, whole: nat, frac: nat)
    requires x >= 0.0 && (feet, whole, frac) == FormatParts(x)
    ensures ParseLengthToInches(FormatInchesToFeetInches(Finite(x))) ==
            if frac == 0 then Some((feet * 12 + whole) as real) else None
  {
    assert FormatInchesToFeetInches(Finite(x)) == PartsText(feet, whole, frac);
    PartsTextParse(feet, whole, frac);
  }

  /** The parts' reading, in terms of the count of sixteenths they split. */
  lemma RoundedValue(r: int, feet: nat, whole: nat, frac: nat)
    requires r == 192 * feet + 16 * whole + frac && frac < 16
    ensures (if frac == 0 then Some((feet * 12 + whole) as real) else None) ==
            (if r % 16 == 0 then Some((r / 16) as real) else None)
  {
    SixteenthsOfParts(r, feet, whole, frac);
  }

  lemma FormatThenParseSixteenths(x: real, r: int)
    requires x >= 0.0 && r == Round(16.0 * x)
    ensures ParseLengthToInches(FormatInchesToFeetInches(Finite(x))) ==
            if r % 16 == 0 then Some((r / 16) as real) else None
  {
    var (feet, whole, frac) := FormatParts(x);
    FormatPartsThenParse(x, feet, whole, frac);
    RoundedValue(r, feet, whole, frac);
  }

  /**
   * The same in terms of the input: the text comes back exactly when the
   * input rounds to a whole number of inches, and then as that number.
   */
  lemma FormatThenParse(x: real)
    requires x >= 0.0
    ensures ParseLengthToInches(FormatInchesToFeetInches(Finite(x))) ==
            if Round(16.0 * x) % 16 == 0 then Some((Round(16.0 * x) / 16) as real) else None
  {
    FormatThenParseSixteenths(x, Round(16.0 * x));
  }

  lemma WholeSixteenths(n: nat)
    ensures (16 * n) % 16 == 0 && (16 * n) / 16 == n
  {
  }

  /** A whole number of inches survives formatting and parsing. */
  lemma WholeInchesRoundTrip(n: nat)
    ensures ParseLengthToInches(FormatInchesToFeetInches(Finite(n as real))) == Some(n as real)
  {
    assert Round(16.0 * n as real) == 16 * n;
    FormatThenParseSixteenths(n as real, 16 * n);
    WholeSixteenths(n);
  }

  /** A leading minus sign is not part of any length form. */
  lemma MinusUnparsed(text: string)
    requires |text| > 1 && text[0] == '-' && !IsSpace(text[|text| - 1]) && PlainText(text)
    ensures ParseLengthToInches(text) == None
  {
    NormaliseOfPlain(text);
    SpanSpacesOf([], text);
    assert ScanDecimal(text) == None;
    ParseNormalUnmatched(text);
  }

  lemma MinusShape(rest: string)
    requires rest != [] && rest[|rest| - 1] == '"' && PlainText(rest)
    ensures var text := "-" + rest;
            |text| > 1 && text[0] == '-' && !IsSpace(text[|text| - 1]) && PlainText(text)
  {
    PlainConcat("-", rest);
    assert ("-" + rest)[|rest|] == rest[|rest| - 1];
  }

  /** A minus sign before the formatter's text of a magnitude makes it unreadable. */
  lemma NegativePartsUnparsed(feet: nat, whole: nat, frac: nat)
    requires frac < 16
    ensures ParseLengthToInches("-" + PartsText(feet, whole, frac)) == None
  {
    var rest := PartsText(feet, whole, frac);
    PartsTextPlain(feet, whole, frac);
    MinusShape(rest);
    MinusUnparsed("-" + rest);
  }

  lemma NegativeFormatUnparsed(x: real, feet: nat, whole: nat, frac: nat)
    requires x < 0.0 && (feet, whole, frac) == FormatParts(-x)
    ensures ParseLengthToInches(FormatInchesToFeetInches(Finite(x))) == None
  {
    NegativeFormatOfParts(x, feet, whole, frac);
    NegativePartsUnparsed(feet, whole, frac);
  }

  /** A negative length is formatted with a minus sign, which the parser rejects. */
  lemma FormatNegativeUnparsed(x: real)
    requires x < 0.0
    ensures ParseLengthToInches(FormatInchesToFeetInches(Finite(x))) == None
  {
    var (feet, whole, frac) := FormatParts(-x);
    NegativeFormatUnparsed(x, feet, whole, frac);
  }

  /** The formatter's text of a non-negative value is the text of its parts. */
  lemma FormatOfParts(y: real, feet: nat, whole: nat, frac: nat)
    requires y >= 0.0 && (feet, whole, frac) == FormatParts(y)
    ensures FormatInchesToFeetInches(Finite(y)) == PartsText(feet, whole, frac)
  {
  }

  /** The formatter's text of a negative value is a minus sign and the text of its magnitude's parts. */
  lemma NegativeFormatOfParts(x: real, feet: nat, whole: nat, frac: nat)
    requires x < 0.0 && (feet, whole, frac) == FormatParts(-x)
    ensures FormatInchesToFeetInches(Finite(x)) == "-" + PartsText(feet, whole, frac)
  {
    NegativeIsSigned(x);
    SignedOfParts(-x, feet, whole, frac);
  }

  lemma NegativeIsSigned(x: real)
    requires x < 0.0
    ensures FormatInchesToFeetInches(Finite(x)) == FormatSigned(true, -x)
  {
  }

  lemma SignedOfParts(y: real, feet: nat, whole: nat, frac: nat)
    requires y >= 0.0 && (feet, whole, frac) == FormatParts(y)
    ensures FormatSigned(true, y) == "-" + PartsText(feet, whole, frac)
  {
  }

  /** A negative length is shown as a minus sign before the text of its magnitude. */
  lemma NegativeFormatText(x: real)
    requires x < 0.0
    ensures FormatInchesToFeetInches(Finite(x)) == "-" + FormatInchesToFeetInches(Finite(-x))
  {
    var (feet, whole, frac) := FormatParts(-x);
    NegativeFormatOfParts(x, feet, whole, frac);
    FormatOfParts(-x, feet, whole, frac);
  }

  /** A length that is not negative is shown starting with a digit and ending with an inch mark. */
  lemma NonNegativeFormatText(x: real)
    requires x >= 0.0
    ensures var text := FormatInchesToFeetInches(Finite(x));
      text != [] && IsDigit(text[0]) && text[|text| - 1] == '"'
  {
    var (feet, whole, frac) := FormatParts(x);
    FormatOfParts(x, feet, whole, frac);
    PartsTextPlain(feet, whole, frac);
  }
}
