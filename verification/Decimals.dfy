/** Exact money: the NUMERIC(30,12) decimals of internal/domain/domain.go.

    A decimal is its spelling, a string. Numbers are measured in units of 10^-12: `Units`
    reads a spelling as an integer, a rational (big.Rat) is a `real`, and `FloatText` is
    big.Rat's FloatString(12). */
module Decimals {
  import opened Text
  import opened Wrappers

  // Digits after the point of NUMERIC(30,12), and the number of units in 1.
  const PLACES: nat := 12
  const ONE: real := 1_000_000_000_000.0
  // One more than the largest magnitude of NUMERIC(30,12), in units.
  const BOUND: int := 1_000_000_000_000_000_000_000_000_000_000

  // ----- digits

  function Pow10(n: nat): (p: nat)
    ensures p >= 1
  {
    if n == 0 then 1 else 10 * Pow10(n - 1)
  }

  predicate IsDigit(c: char) { '0' <= c <= '9' }

  predicate AllDigits(s: string) { forall i | 0 <= i < |s| :: IsDigit(s[i]) }

  function DigitOf(n: nat): (c: char)
    requires n < 10
    ensures IsDigit(c) && c as int - '0' as int == n
  {
    '0' + n as char
  }

  function DigitsValue(s: string): nat
    requires AllDigits(s)
  {
    if s == "" then 0
    else 10 * DigitsValue(s[..|s| - 1]) + (s[|s| - 1] as int - '0' as int)
  }

  // Decimal digits of n, zero padded to at least `width` of them.
  function DigitsText(n: nat, width: nat): (s: string)
    ensures AllDigits(s) && |s| >= 1 && |s| >= width
    decreases n, width
  {
    if n < 10 && width <= 1 then [DigitOf(n)]
    else DigitsText(n / 10, if width == 0 then 0 else width - 1) + [DigitOf(n % 10)]
  }

  lemma {:induction false} DigitsTextValue(n: nat, width: nat)
    ensures DigitsValue(DigitsText(n, width)) == n
    ensures |DigitsText(n, width)| > 1 && |DigitsText(n, width)| > width ==> DigitsText(n, width)[0] != '0'
    decreases n, width
  {
    if !(n < 10 && width <= 1) {
      var w := if width == 0 then 0 else width - 1;
      DigitsTextValue(n / 10, w);
      var p := DigitsText(n / 10, w);
      assert DigitsText(n, width)[..|p|] == p;
    }
  }

  lemma {:induction false} DigitsTextLength(n: nat, width: nat, k: nat)
    requires k >= 1 && k >= width
    ensures |DigitsText(n, width)| <= k <==> n < Pow10(k)
    decreases n, width
  {
    if !(n < 10 && width <= 1) && k > 1 {
      DigitsTextLength(n / 10, if width == 0 then 0 else width - 1, k - 1);
    } else if k > 1 {
      assert Pow10(k) == 10 * Pow10(k - 1);
    } else {
      assert Pow10(1) == 10 * Pow10(0);
    }
  }

  lemma {:induction false} DigitsValueBound(s: string)
    requires AllDigits(s)
    ensures DigitsValue(s) < Pow10(|s|)
  {
    if s != "" { DigitsValueBound(s[..|s| - 1]); }
  }

  lemma LastDigit(s: string)
    requires s != "" && AllDigits(s)
    ensures DigitsValue(s) / 10 == DigitsValue(s[..|s| - 1]) && DigitsValue(s) % 10 == s[|s| - 1] as int - '0' as int
  {
    SplitDigit(DigitsValue(s[..|s| - 1]), s[|s| - 1] as int - '0' as int);
  }

  lemma SplitDigit(n: nat, digit: nat)
    requires digit < 10
    ensures (10 * n + digit) / 10 == n && (10 * n + digit) % 10 == digit
  {}

  /** Digit strings of one length are determined by their value. */
  lemma {:induction false} DigitsInjective(s: string, t: string)
    requires AllDigits(s) && AllDigits(t) && |s| == |t| && DigitsValue(s) == DigitsValue(t)
    ensures s == t
  {
    if s != "" {
      var n := |s| - 1;
      LastDigit(s);
      LastDigit(t);
      DigitsInjective(s[..n], t[..n]);
      assert s == s[..n] + [s[n]] && t == t[..n] + [t[n]];
    }
  }

  lemma {:induction false} PowMonotone(a: nat, b: nat)
    requires a <= b
    ensures Pow10(a) <= Pow10(b)
  {
    if a < b { PowMonotone(a, b - 1); }
  }

  lemma PowBound()
    ensures Pow10(30) == BOUND
  {
    assert Pow10(10) == 10_000_000_000;
    assert Pow10(20) == 10_000_000_000 * Pow10(10);
    assert Pow10(30) == 10_000_000_000 * Pow10(20);
  }

  // ----- spellings

  function Body(s: string): string {
    if s != "" && (s[0] == '+' || s[0] == '-') then s[1..] else s
  }

  // Index of the first '.', or the length.
  function Dot(s: string): (i: nat)
    ensures i <= |s|
  {
    if s == "" || s[0] == '.' then 0 else 1 + Dot(s[1..])
  }

  function Whole(s: string): string { Body(s)[..Dot(Body(s))] }

  function Fraction(s: string): string {
    var b := Body(s);
    if Dot(b) == |b| then "" else b[Dot(b) + 1..]
  }

  // [+-]?(0|[1-9][0-9]*)(\.[0-9]{1,12})?
  predicate IsNumeral(s: string) {
    && Whole(s) != "" && AllDigits(Whole(s))
    && (|Whole(s)| == 1 || Whole(s)[0] != '0')
    && AllDigits(Fraction(s)) && |Fraction(s)| <= PLACES
    && (Fraction(s) == "" ==> Dot(Body(s)) == |Body(s)|)
  }

  // decimalPattern: at most eighteen digits before the point.
  predicate IsDecimal(s: string) { IsNumeral(s) && |Whole(s)| <= 18 }

  function Zeros(n: nat): string { seq(n, _ => '0') }

  // The digits of a numeral with the fraction filled up to twelve places.
  function FixedDigits(s: string): string
    requires IsNumeral(s)
  {
    Whole(s) + Fraction(s) + Zeros(PLACES - |Fraction(s)|)
  }

  // The number a spelling denotes, in units of 10^-12.
  function Units(s: string): int
    requires IsNumeral(s)
  {
    var m: int := DigitsValue(FixedDigits(s));
    if s[0] == '-' then -m else m
  }

  // ----- rounding and printing

  // Round to the nearest integer, halves away from zero.
  function Round(x: real): int {
    if x < 0.0 then -(-x + 0.5).Floor else (x + 0.5).Floor
  }

  function Sign(x: real): string { if x < 0.0 then "-" else "" }

  function Abs(n: int): nat { if n < 0 then -n else n }

  function Pointed(digits: string): string
    requires |digits| > PLACES
  {
    digits[..|digits| - PLACES] + "." + digits[|digits| - PLACES..]
  }

  // big.Rat.FloatString(12) of x units
  function FloatText(x: real): string {
    Sign(x) + Pointed(DigitsText(Abs(Round(x)), PLACES + 1))
  }

  lemma RoundMonotone(x: real, y: real)
    requires x <= y
    ensures Round(x) <= Round(y)
  {}

  lemma RoundNearest(y: real)
    ensures -0.5 <= Round(y) as real - y <= 0.5
    ensures Round(-y) == -Round(y)
    ensures y >= 0.0 ==> Round(y) >= 0
  {}

  /** Rounding commutes with shifting by whole units, as long as no sign changes. */
  lemma RoundShift(y: real, n: int)
    requires y >= 0.0 && y - n as real >= 0.0
    ensures Round(y - n as real) == Round(y) - n
  {}

  lemma RoundSum(x: real, y: real, m: int, n: int)
    requires x == m as real && y == n as real
    ensures Round(Plus(x, y)) == m + n && Round(Minus(x, y)) == m - n
  {}

  lemma RoundWhole(n: int)
    ensures Round(n as real) == n
  {}

  lemma {:induction false} DotAfterDigits(w: string, rest: string)
    requires AllDigits(w)
    ensures Dot(w + "." + rest) == |w| && Dot(w) == |w|
  {
    var s := w + "." + rest;
    if w != "" {
      assert s[1..] == w[1..] + "." + rest;
      DotAfterDigits(w[1..], rest);
    }
  }

  /** The parts of a spelling put together from a sign, whole digits and a fraction. */
  lemma Assembled(sign: string, w: string, f: string)
    requires sign == "" || sign == "-"
    requires w != "" && AllDigits(w) && AllDigits(f)
    ensures Whole(sign + w + "." + f) == w && Fraction(sign + w + "." + f) == f
    ensures Whole(sign + w) == w && Fraction(sign + w) == "" && Dot(Body(sign + w)) == |Body(sign + w)|
  {
    var s := sign + w + "." + f;
    assert Body(s) == w + "." + f && Body(sign + w) == w;
    DotAfterDigits(w, f);
  }

  lemma PointedParts(sign: string, w: string, f: string)
    requires sign == "" || sign == "-"
    requires w != "" && AllDigits(w) && AllDigits(f) && 0 < |f| <= PLACES && (|w| == 1 || w[0] != '0')
    ensures var s := sign + w + "." + f;
            && IsNumeral(s) && Whole(s) == w && Fraction(s) == f && s[0] != '+' && (s[0] == '-' <==> sign == "-")
  {
    Assembled(sign, w, f);
    assert (sign + w + "." + f)[0] == (sign + w)[0];
  }

  /** A sign and pointed digits are a numeral with those digits. */
  lemma PointedDigits(sign: string, d: string)
    requires sign == "" || sign == "-"
    requires AllDigits(d) && |d| > PLACES && (|d| > PLACES + 1 ==> d[0] != '0')
    ensures var s := sign + Pointed(d);
            && IsNumeral(s) && FixedDigits(s) == d && |Whole(s)| == |d| - PLACES
            && s != "" && (s[0] == '-' <==> sign == "-")
  {
    var w, f := d[..|d| - PLACES], d[|d| - PLACES..];
    PointedSplit(sign, d);
    PointedParts(sign, w, f);
    FilledDigits(d);
  }

  lemma PointedSplit(sign: string, d: string)
    requires |d| > PLACES
    ensures sign + Pointed(d) == sign + d[..|d| - PLACES] + "." + d[|d| - PLACES..]
  {}

  lemma FilledDigits(d: string)
    requires |d| > PLACES
    ensures d[..|d| - PLACES] + d[|d| - PLACES..] + Zeros(0) == d
  {}

  /** A sign and the pointed digits of m are a numeral that reads back as m. */
  lemma SpelledMagnitude(sign: string, m: nat)
    requires sign == "" || sign == "-"
    ensures var s := sign + Pointed(DigitsText(m, PLACES + 1));
            && IsNumeral(s)
            && Units(s) == (if sign == "-" then -(m as int) else m)
            && (IsDecimal(s) <==> m < BOUND)
  {
    DigitsTextValue(m, PLACES + 1);
    DigitsTextLength(m, PLACES + 1, 30);
    PowBound();
    PointedDigits(sign, DigitsText(m, PLACES + 1));
  }

  /** Every printed rational is a numeral, and reads back as the half-away-from-zero
      rounding of the rational; the spelling is in range exactly when that rounding is. */
  lemma PrintedReadsBack(x: real)
    ensures IsNumeral(FloatText(x)) && Units(FloatText(x)) == Round(x)
    ensures IsDecimal(FloatText(x)) <==> -BOUND < Round(x) < BOUND
    ensures TrimSpace(FloatText(x)) == FloatText(x)
  {
    SpelledMagnitude(Sign(x), Abs(Round(x)));
    SolidNumeral(FloatText(x));
  }

  lemma SolidNumeral(s: string)
    requires IsNumeral(s)
    ensures TrimSpace(s) == s
  {
    var b := Body(s);
    assert s[|s| - 1] == b[|b| - 1];
    if Fraction(s) != "" {
      assert b[|b| - 1] == Fraction(s)[|Fraction(s)| - 1];
    } else {
      assert b[|b| - 1] == Whole(s)[|Whole(s)| - 1];
    }
    if s == b { assert s[0] == Whole(s)[0]; }
    TrimSolid(s);
  }

  lemma {:induction false} AppendZeros(w: string, n: nat)
    requires AllDigits(w)
    ensures AllDigits(w + Zeros(n)) && DigitsValue(w + Zeros(n)) == DigitsValue(w) * Pow10(n)
  {
    if n == 0 {
      assert w + Zeros(0) == w;
    } else {
      var s := w + Zeros(n);
      AppendZeros(w, n - 1);
      assert s[..|s| - 1] == w + Zeros(n - 1);
    }
  }

  lemma PowTwelve()
    ensures Pow10(12) == 1_000_000_000_000 && Pow10(18) == 1_000_000_000_000_000_000
  {
    assert Pow10(6) == 1_000_000;
    assert Pow10(12) == 1_000_000 * Pow10(6);
    assert Pow10(18) == 1_000_000 * Pow10(12);
  }

  // A sign and digits that spell m, no zero in front, are a numeral for m.
  lemma WholeNumeral(sign: string, w: string, m: nat)
    requires sign == "" || sign == "-"
    requires w != "" && AllDigits(w) && (|w| == 1 || w[0] != '0') && DigitsValue(w) == m
    ensures IsNumeral(sign + w) && (IsDecimal(sign + w) <==> |w| <= 18)
    ensures Units(sign + w) == if sign == "-" then -(m * 1_000_000_000_000) else m * 1_000_000_000_000
  {
    WholeDigits(sign, w);
    AppendZeros(w, 12);
    assert Pow10(12) == 1_000_000_000_000 by { PowTwelve(); }
  }

  lemma WholeDigits(sign: string, w: string)
    requires sign == "" || sign == "-"
    requires w != "" && AllDigits(w) && (|w| == 1 || w[0] != '0')
    ensures IsNumeral(sign + w) && |Whole(sign + w)| == |w| && FixedDigits(sign + w) == w + Zeros(12)
    ensures (sign + w)[0] == '-' <==> sign == "-"
  {
    Assembled(sign, w, "");
  }

  lemma ZeroNumeral()
    ensures IsDecimal("0") && Whole("0") == "0" && Fraction("0") == "" && Units("0") == 0
    ensures TrimSpace("0") == "0"
  {
    Assembled("", "0", "");
    assert "" + "0" == "0";
    SolidNumeral("0");
    WholeNumeral("", "0", 0);
  }

  // ----- the operations of Decimal

  // ParseDecimal
  function Parse(value: string): Result<string> {
    var t := TrimSpace(value);
    if IsDecimal(t) then Ok(t) else Err
  }

  // decimalRat: parse, then read the number.
  function Rational(d: string): Result<real> {
    match Parse(d)
    case Ok(t) => Ok(Units(t) as real)
    case Err => Err
  }

  // Sum, difference and product of two numbers given in units, in units.
  function Plus(x: real, y: real): real { x + y }
  function Minus(x: real, y: real): real { x - y }
  function Times(x: real, y: real): real { x * y / ONE }

  function Add(a: string, b: string): Result<string> {
    match (Rational(a), Rational(b))
    case (Ok(x), Ok(y)) => Parse(FloatText(Plus(x, y)))
    case _ => Err
  }

  function Subtract(a: string, b: string): Result<string> {
    match (Rational(a), Rational(b))
    case (Ok(x), Ok(y)) => Parse(FloatText(Minus(x, y)))
    case _ => Err
  }

  function Multiply(a: string, b: string): Result<string> {
    match (Rational(a), Rational(b))
    case (Ok(x), Ok(y)) => Parse(FloatText(Times(x, y)))
    case _ => Err
  }

  function Compare(a: string, b: string): Result<int> {
    match (Rational(a), Rational(b))
    case (Ok(x), Ok(y)) => Ok(if x < y then -1 else if x == y then 0 else 1)
    case _ => Err
  }

  function IsNegative(d: string): Result<bool> {
    match Rational(d)
    case Ok(x) => Ok(x < 0.0)
    case Err => Err
  }

  // The number of an accepted spelling, in units.
  ghost function Amount(d: string): int
    requires Parse(d).Ok?
  {
    Units(Parse(d).value)
  }

  /** Parsing accepts what it returns, unchanged, and every amount is in range. */
  lemma ParseStable(d: string)
    requires Parse(d).Ok?
    ensures Parse(Parse(d).value) == Parse(d)
    ensures Rational(d) == Ok(Amount(d) as real)
    ensures -BOUND < Amount(d) < BOUND
  {
    TrimIdempotent(d);
    UnitsBound(Parse(d).value);
  }

  lemma UnitsBound(s: string)
    requires IsDecimal(s)
    ensures -BOUND < Units(s) < BOUND
  {
    var d := FixedDigits(s);
    PowBound();
    DigitsValueBound(d);
    PowMonotone(|d|, 30);
  }

  /** Printing a rational and parsing it back: fails exactly out of range, and otherwise
      gives the rounding, in a spelling that parses to itself. */
  lemma PrintedAmount(x: real)
    ensures var r := Parse(FloatText(x));
            && (r.Ok? <==> -BOUND < Round(x) < BOUND)
            && (r.Ok? ==> r.value == FloatText(x) && Parse(r.value) == r && Amount(r.value) == Round(x))
  {
    PrintedReadsBack(x);
  }

  // SetString(FloatString(12)): a rational cut to twelve places.
  function Reread(x: real): real { Round(x) as real }

  lemma RereadIsPrintedAndRead(x: real)
    ensures IsNumeral(FloatText(x)) && Reread(x) == Units(FloatText(x)) as real
  {
    PrintedReadsBack(x);
  }

  lemma SumPrinted(x: real, y: real, m: int, n: int)
    requires x == m as real && y == n as real
    ensures var r := Parse(FloatText(Plus(x, y)));
            && (r.Ok? <==> -BOUND < m + n < BOUND)
            && (r.Ok? ==> Parse(r.value).Ok? && Amount(r.value) == m + n)
  {
    RoundSum(x, y, m, n);
    PrintedAmount(Plus(x, y));
  }

  /** Addition is exact and fails exactly when the sum leaves NUMERIC(30,12). */
  lemma AddExact(a: string, b: string)
    requires Parse(a).Ok? && Parse(b).Ok?
    ensures Add(a, b).Ok? <==> -BOUND < Amount(a) + Amount(b) < BOUND
    ensures Add(a, b).Ok? ==> Parse(Add(a, b).value).Ok? && Amount(Add(a, b).value) == Amount(a) + Amount(b)
  {
    ParseStable(a);
    ParseStable(b);
    SumPrinted(Rational(a).value, Rational(b).value, Amount(a), Amount(b));
  }

  lemma DifferencePrinted(x: real, y: real, m: int, n: int)
    requires x == m as real && y == n as real
    ensures var r := Parse(FloatText(Minus(x, y)));
            && (r.Ok? <==> -BOUND < m - n < BOUND)
            && (r.Ok? ==> Parse(r.value).Ok? && Amount(r.value) == m - n)
  {
    RoundSum(x, y, m, n);
    PrintedAmount(Minus(x, y));
  }

  lemma SubtractExact(a: string, b: string)
    requires Parse(a).Ok? && Parse(b).Ok?
    ensures Subtract(a, b).Ok? <==> -BOUND < Amount(a) - Amount(b) < BOUND
    ensures Subtract(a, b).Ok? ==>
              Parse(Subtract(a, b).value).Ok? && Amount(Subtract(a, b).value) == Amount(a) - Amount(b)
  {
    ParseStable(a);
    ParseStable(b);
    DifferencePrinted(Rational(a).value, Rational(b).value, Amount(a), Amount(b));
  }

  /** Multiplication rounds the exact product once and fails exactly when the rounded
      product leaves NUMERIC(30,12). */
  lemma MultiplyRounds(a: string, b: string)
    requires Parse(a).Ok? && Parse(b).Ok?
    ensures var p := Round(Times(Amount(a) as real, Amount(b) as real));
            && (Multiply(a, b).Ok? <==> -BOUND < p < BOUND)
            && (Multiply(a, b).Ok? ==> Parse(Multiply(a, b).value).Ok? && Amount(Multiply(a, b).value) == p)
  {
    ParseStable(a);
    ParseStable(b);
    PrintedAmount(Times(Amount(a) as real, Amount(b) as real));
  }

  /** Compare is the numeric order, whatever the spellings; it answers 0 exactly when both
      operands have one twelve-place rendering. */
  lemma CompareIsNumeric(a: string, b: string)
    requires Parse(a).Ok? && Parse(b).Ok?
    ensures Compare(a, b) == Ok(if Amount(a) < Amount(b) then -1 else if Amount(a) == Amount(b) then 0 else 1)
    ensures Compare(a, b) == Ok(0) <==> FloatText(Rational(a).value) == FloatText(Rational(b).value)
    ensures IsNegative(a) == Ok(Amount(a) < 0)
  {
    ParseStable(a);
    ParseStable(b);
    RoundWhole(Amount(a));
    RoundWhole(Amount(b));
    PrintedReadsBack(Rational(a).value);
    PrintedReadsBack(Rational(b).value);
  }

  // ----- JSON

  function Quote(s: string): string { "\"" + s + "\"" }

  // strconv.Unquote of a double-quoted text; `unescape` stands for the treatment of
  // bodies that hold an escape, a quote or a line break.
  function Unquote(s: string, unescape: string -> Result<string>): Result<string>
    requires s != "" && s[0] == '"'
  {
    if |s| < 2 || s[|s| - 1] != '"' then Err
    else
      var inner := s[1..|s| - 1];
      if '\\' in inner || '"' in inner || '\n' in inner then unescape(inner) else Ok(inner)
  }

  function Marshal(d: string): Result<string> {
    match Parse(d)
    case Ok(t) => Ok(Quote(t))
    case Err => Err
  }

  function Unmarshal(raw: string, unescape: string -> Result<string>): Result<string> {
    var value := TrimSpace(raw);
    if value != "" && value[0] == '"' then
      match Unquote(value, unescape)
      case Err => Err
      case Ok(inner) =>
        var inner := TrimSpace(inner);
        if inner == "" || inner == "null" then Err else Parse(inner)
    else if value == "" || value == "null" then Err
    else Parse(value)
  }

  lemma NumeralCharacters(s: string)
    requires IsNumeral(s)
    ensures forall i | 0 <= i < |s| :: IsDigit(s[i]) || s[i] == '.' || (i == 0 && (s[i] == '+' || s[i] == '-'))
  {
    var b := Body(s);
    forall i | 0 <= i < |b|
      ensures IsDigit(b[i]) || b[i] == '.'
    {
      if i < Dot(b) {
        assert b[i] == Whole(s)[i];
      } else if i == Dot(b) {
        DotIsDot(b);
      } else {
        assert b[i] == Fraction(s)[i - Dot(b) - 1];
      }
    }
  }

  lemma {:induction false} DotIsDot(s: string)
    ensures Dot(s) < |s| ==> s[Dot(s)] == '.'
  {
    if s != "" && s[0] != '.' { DotIsDot(s[1..]); }
  }

  lemma UnmarshalBare(d: string, unescape: string -> Result<string>)
    requires IsDecimal(d)
    ensures Unmarshal(d, unescape) == Ok(d)
  {
    SolidNumeral(d);
    NumeralCharacters(d);
    assert d != "null" && d != "" && d[0] != '"';
  }

  lemma UnmarshalQuoted(d: string, unescape: string -> Result<string>)
    requires IsDecimal(d)
    ensures Unmarshal(Quote(d), unescape) == Ok(d)
  {
    var q := Quote(d);
    NumeralCharacters(d);
    SolidNumeral(d);
    assert q[0] == '"' && q[|q| - 1] == '"' && q[1..|q| - 1] == d;
    TrimSolid(q);
    assert Unquote(q, unescape) == Ok(d);
    assert d != "null" && d != "";
  }

  /** What Marshal writes, Unmarshal reads back as the trimmed spelling; a bare JSON
      number is read as its quoted form is. */
  lemma JsonRoundTrip(d: string, unescape: string -> Result<string>)
    ensures Marshal(d).Ok? <==> Parse(d).Ok?
    ensures Marshal(d).Ok? ==> Unmarshal(Marshal(d).value, unescape) == Parse(d)
    ensures IsDecimal(d) ==> Marshal(d).Ok? && Unmarshal(Marshal(d).value, unescape) == Ok(d) == Unmarshal(d, unescape)
  {
    if Parse(d).Ok? { UnmarshalQuoted(Parse(d).value, unescape); }
    if IsDecimal(d) {
      SolidNumeral(d);
      UnmarshalBare(d, unescape);
    }
  }
}
