/** The printer of internal/pricing/pricing.go: twelve places, trailing zeros dropped. */
module Printing {
  import opened Decimals

  // strings.TrimRight(s, c)
  function TrimRightChar(s: string, c: char): string {
    if s != "" && s[|s| - 1] == c then TrimRightChar(s[..|s| - 1], c) else s
  }

  function Tidied(s: string): string {
    var t := TrimRightChar(TrimRightChar(s, '0'), '.');
    if t == "-0" || t == "" then "0" else t
  }

  // format
  function Format(x: real): string { Tidied(FloatText(x)) }

  predicate NoTrailingZero(f: string) { f != "" ==> f[|f| - 1] != '0' }

  /** The one spelling of a number: no plus sign, no minus sign on zero, no trailing
      fraction zero, no bare point. */
  ghost predicate Canonical(s: string) {
    && IsNumeral(s)
    && s[0] != '+'
    && (s[0] == '-' ==> Units(s) != 0)
    && NoTrailingZero(Fraction(s))
  }

  // ----- what trimming does to digits

  lemma OneMoreZero(n: nat)
    ensures Zeros(n + 1) == Zeros(n) + "0"
  {}

  lemma {:induction false} TrimZeros(f: string)
    ensures var t := TrimRightChar(f, '0');
            && t <= f && f == t + Zeros(|f| - |t|)
            && (t != "" ==> t[|t| - 1] != '0')
  {
    if f != "" && f[|f| - 1] == '0' {
      var g := f[..|f| - 1];
      TrimZeros(g);
      var t, n := TrimRightChar(g, '0'), |g| - |TrimRightChar(g, '0')|;
      OneMoreZero(n);
      assert f == g + "0";
      assert f == t + (Zeros(n) + "0");
    }
  }

  lemma {:induction false} TrimZerosAfterPoint(p: string, f: string)
    ensures TrimRightChar(p + "." + f, '0') == p + "." + TrimRightChar(f, '0')
  {
    var s := p + "." + f;
    if f != "" && f[|f| - 1] == '0' {
      assert s[..|s| - 1] == p + "." + f[..|f| - 1];
      TrimZerosAfterPoint(p, f[..|f| - 1]);
    } else if f == "" {
      assert s[|s| - 1] == '.';
    } else {
      assert s[|s| - 1] == f[|f| - 1];
    }
  }

  lemma TrimPoint(p: string, f: string)
    requires p != "" && p[|p| - 1] != '.'
    requires f != "" ==> f[|f| - 1] != '.'
    ensures TrimRightChar(p + "." + f, '.') == if f == "" then p else p + "." + f
  {}

  // A spelling from its parts.
  function Spell(sign: string, w: string, f: string): string {
    sign + w + (if f == "" then "" else "." + f)
  }

  lemma SpelledParts(sign: string, w: string, f: string)
    requires sign == "" || sign == "-"
    requires w != "" && AllDigits(w) && AllDigits(f) && |f| <= PLACES && (|w| == 1 || w[0] != '0')
    ensures var s := Spell(sign, w, f);
            && IsNumeral(s) && Whole(s) == w && Fraction(s) == f && s[0] != '+' && (s[0] == '-' <==> sign == "-")
  {
    if f == "" {
      assert Spell(sign, w, f) == sign + w;
      WholeParts(sign, w);
    } else {
      assert Spell(sign, w, f) == sign + w + "." + f;
      PointedParts(sign, w, f);
    }
  }

  lemma WholeParts(sign: string, w: string)
    requires sign == "" || sign == "-"
    requires w != "" && AllDigits(w) && (|w| == 1 || w[0] != '0')
    ensures var s := sign + w;
            && IsNumeral(s) && Whole(s) == w && Fraction(s) == "" && s[0] != '+' && (s[0] == '-' <==> sign == "-")
  {
    Assembled(sign, w, "");
  }

  /** Dropping zeros and the point keeps the digits: the tidied text spells the same
      sign, whole digits and shortened fraction, up to the sign of zero. */
  lemma TidiedPointed(sign: string, d: string)
    requires sign == "" || sign == "-"
    requires AllDigits(d) && |d| > PLACES
    ensures var w, f := d[..|d| - PLACES], TrimRightChar(d[|d| - PLACES..], '0');
            var s := Spell(sign, w, f);
            Tidied(sign + Pointed(d)) == if s == "-0" then "0" else s
  {
    var w, g := d[..|d| - PLACES], d[|d| - PLACES..];
    var f := TrimRightChar(g, '0');
    PointedSplit(sign, d);
    assert (sign + w)[|sign + w| - 1] == w[|w| - 1];
    TrimmedPointed(sign + w, g);
    SpellJoins(sign, w, f);
  }

  lemma TrimmedPointed(p: string, g: string)
    requires p != "" && p[|p| - 1] != '.' && AllDigits(g)
    ensures var f := TrimRightChar(g, '0');
            TrimRightChar(TrimRightChar(p + "." + g, '0'), '.') == if f == "" then p else p + "." + f
  {
    TrimZerosAfterPoint(p, g);
    TrimZeros(g);
    TrimPoint(p, TrimRightChar(g, '0'));
  }

  lemma SpellJoins(sign: string, w: string, f: string)
    ensures Spell(sign, w, f) == if f == "" then sign + w else sign + w + "." + f
  {}

  lemma {:induction false} ZeroDigits(d: string)
    requires AllDigits(d)
    ensures DigitsValue(d) == 0 <==> d == Zeros(|d|)
  {
    if d != "" {
      var n := |d| - 1;
      ZeroDigits(d[..n]);
      assert d == d[..n] + [d[n]];
      assert Zeros(|d|) == Zeros(n) + "0";
      if d == Zeros(|d|) { assert d[..n] == Zeros(n) && d[n] == '0'; }
    }
  }

  /** The digits of a spelling with a shortened fraction are the original digits. */
  lemma ShortenedDigits(d: string)
    requires AllDigits(d) && |d| > PLACES
    ensures var w, f := d[..|d| - PLACES], TrimRightChar(d[|d| - PLACES..], '0');
            && AllDigits(w) && AllDigits(f) && |f| <= PLACES
            && NoTrailingZero(f)
            && w + f + Zeros(PLACES - |f|) == d
  {
    var g := d[|d| - PLACES..];
    TrimZeros(g);
    assert d == d[..|d| - PLACES] + g;
  }

  lemma ShortenedZero(d: string)
    requires AllDigits(d) && |d| > PLACES && (|d| > PLACES + 1 ==> d[0] != '0')
    ensures var w, f := d[..|d| - PLACES], TrimRightChar(d[|d| - PLACES..], '0');
            f == "" && w == "0" <==> DigitsValue(d) == 0
  {
    var w, f := d[..|d| - PLACES], TrimRightChar(d[|d| - PLACES..], '0');
    ShortenedDigits(d);
    ZeroDigits(d);
    if f == "" && w == "0" { assert d == "0" + Zeros(PLACES); }
    if d == Zeros(|d|) {
      assert d[0] == '0' && w == "0";
      assert d[|d| - PLACES..] == Zeros(PLACES);
      TrimOnlyZeros(PLACES);
    }
  }

  lemma {:induction false} TrimOnlyZeros(n: nat)
    ensures TrimRightChar(Zeros(n), '0') == ""
  {
    if n > 0 {
      assert Zeros(n)[..n - 1] == Zeros(n - 1);
      TrimOnlyZeros(n - 1);
    }
  }

  function Signed(sign: string, m: int): int { if sign == "-" then -m else m }

  lemma SpelledUnits(sign: string, w: string, f: string, d: string)
    requires sign == "" || sign == "-"
    requires w != "" && AllDigits(w) && AllDigits(f) && |f| <= PLACES && (|w| == 1 || w[0] != '0')
    requires AllDigits(d) && w + f + Zeros(PLACES - |f|) == d
    ensures IsNumeral(Spell(sign, w, f))
    ensures Units(Spell(sign, w, f)) == Signed(sign, DigitsValue(d))
  {
    SpelledParts(sign, w, f);
    assert FixedDigits(Spell(sign, w, f)) == d;
  }

  lemma MinusZero(sign: string, w: string, f: string)
    requires sign == "" || sign == "-"
    requires w != "" && AllDigits(w)
    ensures Spell(sign, w, f) == "-0" <==> sign == "-" && w == "0" && f == ""
  {
    var s := Spell(sign, w, f);
    if sign == "-" && w == "0" && f == "" { assert s == "-" + "0" + ""; }
    if s == "-0" {
      assert s[0] == (sign + w)[0];
      assert s[1..] == w + (if f == "" then "" else "." + f);
      assert s[1] == w[0];
    }
  }

  lemma CanonicalSpelling(sign: string, w: string, f: string, d: string)
    requires sign == "" || sign == "-"
    requires w != "" && AllDigits(w) && AllDigits(f) && |f| <= PLACES && (|w| == 1 || w[0] != '0')
    requires AllDigits(d) && w + f + Zeros(PLACES - |f|) == d && NoTrailingZero(f)
    requires sign == "-" ==> DigitsValue(d) != 0
    ensures Canonical(Spell(sign, w, f)) && Units(Spell(sign, w, f)) == Signed(sign, DigitsValue(d))
  {
    SpelledParts(sign, w, f);
    SpelledUnits(sign, w, f, d);
  }

  lemma FormatPointed(sign: string, d: string)
    requires sign == "" || sign == "-"
    requires AllDigits(d) && |d| > PLACES && (|d| > PLACES + 1 ==> d[0] != '0')
    ensures var s := Tidied(sign + Pointed(d));
            && Canonical(s)
            && Units(s) == Signed(sign, DigitsValue(d))
  {
    var w, f := d[..|d| - PLACES], TrimRightChar(d[|d| - PLACES..], '0');
    ShortenedDigits(d);
    ShortenedZero(d);
    TidiedPointed(sign, d);
    MinusZero(sign, w, f);
    if Spell(sign, w, f) == "-0" {
      assert Spell("", w, f) == "0";
      CanonicalSpelling("", w, f, d);
    } else {
      CanonicalSpelling(sign, w, f, d);
    }
  }

  /** Format prints every rational as the canonical spelling of its rounding. */
  lemma FormatIsCanonical(x: real)
    ensures Canonical(Format(x)) && Units(Format(x)) == Round(x)
  {
    var m := Abs(Round(x));
    DigitsTextValue(m, PLACES + 1);
    FormatPointed(Sign(x), DigitsText(m, PLACES + 1));
  }

  // ----- one spelling per number

  lemma {:induction false} LeadingDigit(d: string)
    requires AllDigits(d) && d != "" && d[0] != '0'
    ensures DigitsValue(d) >= Pow10(|d| - 1)
  {
    if |d| > 1 {
      LeadingDigit(d[..|d| - 1]);
    } else {
      assert d[..0] == "";
    }
  }

  lemma NoShorterDigits(d: string, e: string)
    requires AllDigits(d) && AllDigits(e) && |d| < |e| && e[0] != '0'
    ensures DigitsValue(d) < DigitsValue(e)
  {
    DigitsValueBound(d);
    LeadingDigit(e);
    PowMonotone(|d|, |e| - 1);
  }

  lemma SameLength(d: string, e: string)
    requires AllDigits(d) && AllDigits(e) && |d| > PLACES && |e| > PLACES && DigitsValue(d) == DigitsValue(e)
    requires |d| > PLACES + 1 ==> d[0] != '0'
    requires |e| > PLACES + 1 ==> e[0] != '0'
    ensures d == e
  {
    if |d| < |e| {
      NoShorterDigits(d, e);
    } else if |e| < |d| {
      NoShorterDigits(e, d);
    } else {
      DigitsInjective(d, e);
    }
  }

  lemma FixedDigitsUnique(s: string, t: string)
    requires IsNumeral(s) && IsNumeral(t) && DigitsValue(FixedDigits(s)) == DigitsValue(FixedDigits(t))
    ensures FixedDigits(s) == FixedDigits(t)
  {
    assert FixedDigits(s)[0] == Whole(s)[0] && FixedDigits(t)[0] == Whole(t)[0];
    SameLength(FixedDigits(s), FixedDigits(t));
  }

  lemma NoLongerFraction(f: string, g: string)
    requires |f| <= PLACES && |g| <= PLACES && f + Zeros(PLACES - |f|) == g + Zeros(PLACES - |g|)
    requires NoTrailingZero(g)
    ensures |g| <= |f| && f[..|g|] == g
  {
    if g != "" {
      var k := |g| - 1;
      assert (g + Zeros(PLACES - |g|))[k] == g[k];
      assert (f + Zeros(PLACES - |f|))[k] == if k < |f| then f[k] else '0';
    }
    assert (f + Zeros(PLACES - |f|))[..|g|] == g;
  }

  lemma Respelled(s: string)
    requires IsNumeral(s) && s[0] != '+'
    ensures s == Spell(if s[0] == '-' then "-" else "", Whole(s), Fraction(s))
  {
    RespelledBody(s);
    SignedBody(s);
    Associative(if s[0] == '-' then "-" else "", Whole(s), if Fraction(s) == "" then "" else "." + Fraction(s));
  }

  lemma SignedBody(s: string)
    requires s != "" && s[0] != '+'
    ensures s == (if s[0] == '-' then "-" else "") + Body(s)
  {}

  lemma Associative(a: string, b: string, c: string)
    ensures a + b + c == a + (b + c)
  {}

  lemma RespelledBody(s: string)
    requires IsNumeral(s)
    ensures Body(s) == Whole(s) + if Fraction(s) == "" then "" else "." + Fraction(s)
  {
    var b := Body(s);
    DotIsDot(b);
    if Fraction(s) == "" {
      assert b == Whole(s);
    } else {
      assert b == Whole(s) + ("." + Fraction(s));
    }
  }

  lemma SameFraction(f: string, g: string)
    requires |f| <= PLACES && |g| <= PLACES && f + Zeros(PLACES - |f|) == g + Zeros(PLACES - |g|)
    requires NoTrailingZero(f) && NoTrailingZero(g)
    ensures f == g
  {
    NoLongerFraction(f, g);
    NoLongerFraction(g, f);
  }

  // The twelve fraction digits of a numeral.
  ghost function FilledFraction(s: string): string
    requires IsNumeral(s)
  {
    Fraction(s) + Zeros(PLACES - |Fraction(s)|)
  }

  lemma CutFixedDigits(s: string)
    requires IsNumeral(s)
    ensures var d := FixedDigits(s);
            |d| > PLACES && Whole(s) == d[..|d| - PLACES] && FilledFraction(s) == d[|d| - PLACES..]
  {}

  lemma SameParts(s: string, t: string)
    requires IsNumeral(s) && IsNumeral(t) && FixedDigits(s) == FixedDigits(t)
    requires NoTrailingZero(Fraction(s)) && NoTrailingZero(Fraction(t))
    ensures Whole(s) == Whole(t) && Fraction(s) == Fraction(t)
  {
    CutFixedDigits(s);
    CutFixedDigits(t);
    SameFraction(Fraction(s), Fraction(t));
  }

  /** Two canonical spellings of one number are the same string. */
  lemma CanonicalUnique(s: string, t: string)
    requires Canonical(s) && Canonical(t) && Units(s) == Units(t)
    ensures s == t
  {
    FixedDigitsUnique(s, t);
    SameParts(s, t);
    Respelled(s);
    Respelled(t);
  }

  /** Printing is injective on roundings, and printing the number of a canonical spelling
      gives the spelling back. */
  lemma FormatRoundTrip(x: real, y: real, s: string)
    ensures Format(x) == Format(y) <==> Round(x) == Round(y)
    ensures Canonical(s) ==> Format(Units(s) as real) == s
  {
    FormatIsCanonical(x);
    FormatIsCanonical(y);
    if Round(x) == Round(y) { CanonicalUnique(Format(x), Format(y)); }
    if Canonical(s) {
      FormatIsCanonical(Units(s) as real);
      RoundWhole(Units(s));
      CanonicalUnique(Format(Units(s) as real), s);
    }
  }
}
