/** The supplier split of internal/settlement/calculator.go. */
module Settlement {
  import opened Decimals
  import opened Wrappers

  datatype SplitResult = SplitResult(gross: string, commission: string, reserve: string, payable: string)

  predicate ValidBps(bps: int) { 0 <= bps <= 10000 }

  // n * x, by repeated addition.
  function Multiple(x: real, n: nat): real {
    if n == 0 then 0.0 else x + Multiple(x, n - 1)
  }

  // amount * bps / 10000
  function Share(amount: real, bps: nat): real { Multiple(amount, bps) / 10000.0 }

  function Printed(gross: string, commission: real, reserve: real, payable: real): Result<SplitResult> {
    match (Parse(FloatText(commission)), Parse(FloatText(reserve)), Parse(FloatText(payable)))
    case (Ok(c), Ok(r), Ok(p)) => Ok(SplitResult(gross, c, r, p))
    case _ => Err
  }

  function Split(gross: string, commissionBps: int, reserveBps: int): Result<SplitResult> {
    match Parse(gross)
    case Err => Err
    case Ok(validated) =>
      var amount := Units(validated) as real;
      if amount < 0.0 || !ValidBps(commissionBps) || !ValidBps(reserveBps) then Err
      else
        var commission := Reread(Share(amount, commissionBps));
        var afterCommission := Minus(amount, commission);
        var reserve := Reread(Share(afterCommission, reserveBps));
        Printed(validated, commission, reserve, Minus(afterCommission, reserve))
  }

  // ----- the same in units

  ghost function Weighted(units: int, bps: nat): int {
    if bps == 0 then 0 else units + Weighted(units, bps - 1)
  }

  // units * bps / 10000 to the nearest unit, halves up.
  ghost function Part(units: int, bps: nat): int { (2 * Weighted(units, bps) + 10000) / 20000 }

  lemma {:induction false} WeightedMultiple(units: int, bps: nat)
    ensures Multiple(units as real, bps) == Weighted(units, bps) as real
    ensures Weighted(units, bps) == units * bps
  {
    if bps > 0 { WeightedMultiple(units, bps - 1); }
  }

  /** A part is the share to the nearest unit, halves up. */
  lemma PartIsNearest(units: int, bps: nat)
    ensures -5000 < 10000 * Part(units, bps) - units * bps <= 5000
  {
    WeightedMultiple(units, bps);
  }

  lemma RoundTenThousandths(w: int)
    requires w >= 0
    ensures Round(w as real / 10000.0) == (2 * w + 10000) / 20000
  {}

  lemma PartBounds(units: int, bps: nat)
    requires units >= 0 && ValidBps(bps)
    ensures 0 <= Weighted(units, bps) && 0 <= Part(units, bps) <= units
  {
    WeightedMultiple(units, bps);
    TimesAtMost(units, bps, 10000);
    HalfUpBounds(Weighted(units, bps), units);
  }

  lemma TimesAtMost(a: nat, b: nat, c: nat)
    requires b <= c
    ensures 0 <= a * b <= a * c
  {}

  lemma HalfUpBounds(w: int, units: int)
    requires 0 <= w <= units * 10000
    ensures 0 <= (2 * w + 10000) / 20000 <= units
  {}

  lemma RereadShare(amount: real, units: int, bps: nat)
    requires amount == units as real && units >= 0 && ValidBps(bps)
    ensures Reread(Share(amount, bps)) == Part(units, bps) as real
    ensures 0 <= Part(units, bps) <= units
  {
    PartBounds(units, bps);
    WeightedMultiple(units, bps);
    RoundTenThousandths(Weighted(units, bps));
  }

  lemma PrintedUnits(gross: string, commission: real, reserve: real, payable: real, c: int, r: int, p: int)
    requires commission == c as real && reserve == r as real && payable == p as real
    requires 0 <= c < BOUND && 0 <= r < BOUND && 0 <= p < BOUND
    ensures var s := Printed(gross, commission, reserve, payable);
            && s.Ok? && s.value.gross == gross
            && Parse(s.value.commission).Ok? && Amount(s.value.commission) == c
            && Parse(s.value.reserve).Ok? && Amount(s.value.reserve) == r
            && Parse(s.value.payable).Ok? && Amount(s.value.payable) == p
  {
    RoundWhole(c);
    RoundWhole(r);
    RoundWhole(p);
    PrintedAmount(commission);
    PrintedAmount(reserve);
    PrintedAmount(payable);
  }

  ghost predicate Splits(gross: string) { Parse(gross).Ok? && Amount(gross) >= 0 }

  lemma SplitUnfolds(gross: string, commissionBps: int, reserveBps: int, amount: real, commission: real, reserve: real)
    requires Rational(gross) == Ok(amount) && amount >= 0.0 && ValidBps(commissionBps) && ValidBps(reserveBps)
    requires commission == Reread(Share(amount, commissionBps))
    requires reserve == Reread(Share(Minus(amount, commission), reserveBps))
    ensures Split(gross, commissionBps, reserveBps)
         == Printed(Parse(gross).value, commission, reserve, Minus(Minus(amount, commission), reserve))
  {}

  lemma PartsOf(a: int, commissionBps: int, reserveBps: int) returns (c: int, r: int, p: int)
    requires 0 <= a < BOUND && ValidBps(commissionBps) && ValidBps(reserveBps)
    ensures c == Part(a, commissionBps) && r == Part(a - c, reserveBps) && p == a - c - r
    ensures 0 <= c < BOUND && 0 <= r < BOUND && 0 <= p < BOUND && a as real >= 0.0
    ensures c as real == Reread(Share(a as real, commissionBps))
    ensures r as real == Reread(Share(Minus(a as real, c as real), reserveBps))
    ensures p as real == Minus(Minus(a as real, c as real), r as real)
  {
    RereadShare(a as real, a, commissionBps);
    c := Part(a, commissionBps);
    RereadShare(Minus(a as real, c as real), a - c, reserveBps);
    r := Part(a - c, reserveBps);
    p := a - c - r;
  }

  lemma SplitPrints(gross: string, commissionBps: int, reserveBps: int, a: int) returns (c: int, r: int, p: int)
    requires Rational(gross) == Ok(a as real) && 0 <= a < BOUND && ValidBps(commissionBps) && ValidBps(reserveBps)
    ensures c == Part(a, commissionBps) && r == Part(a - c, reserveBps) && p == a - c - r
    ensures 0 <= c < BOUND && 0 <= r < BOUND && 0 <= p < BOUND
    ensures Split(gross, commissionBps, reserveBps) == Printed(Parse(gross).value, c as real, r as real, p as real)
  {
    c, r, p := PartsOf(a, commissionBps, reserveBps);
    SplitUnfolds(gross, commissionBps, reserveBps, a as real, c as real, r as real);
  }

  /** What a split of a units consists of: commission and reserve to the nearest unit, halves up,
      and the exact remainder. */
  lemma SplitParts(gross: string, commissionBps: int, reserveBps: int, a: int) returns (c: int, r: int, p: int)
    requires Rational(gross) == Ok(a as real) && 0 <= a < BOUND
    requires 0 <= commissionBps <= 10000 && 0 <= reserveBps <= 10000
    ensures c == Part(a, commissionBps) && r == Part(a - c, reserveBps) && p == a - c - r
    ensures 0 <= c && 0 <= r && 0 <= p
    ensures var s := Split(gross, commissionBps, reserveBps);
            && s.Ok? && s.value.gross == Parse(gross).value
            && Parse(s.value.commission).Ok? && Amount(s.value.commission) == c
            && Parse(s.value.reserve).Ok? && Amount(s.value.reserve) == r
            && Parse(s.value.payable).Ok? && Amount(s.value.payable) == p
  {
    c, r, p := SplitPrints(gross, commissionBps, reserveBps, a);
    PrintedUnits(Parse(gross).value, c as real, r as real, p as real, c, r, p);
  }

  /** A split succeeds exactly on a valid non-negative amount with both rates in 0..10000,
      its parts are non-negative, and commission, reserve and payable add up to the gross. */
  lemma SplitConserves(gross: string, commissionBps: int, reserveBps: int)
    ensures Split(gross, commissionBps, reserveBps).Ok? <==>
            Splits(gross) && 0 <= commissionBps <= 10000 && 0 <= reserveBps <= 10000
    ensures Split(gross, commissionBps, reserveBps).Ok? ==>
            var s := Split(gross, commissionBps, reserveBps).value;
            && Parse(s.commission).Ok? && Parse(s.reserve).Ok? && Parse(s.payable).Ok?
            && Amount(s.commission) >= 0 && Amount(s.reserve) >= 0 && Amount(s.payable) >= 0
            && Amount(s.commission) + Amount(s.reserve) + Amount(s.payable) == Amount(gross)
  {
    if Splits(gross) && ValidBps(commissionBps) && ValidBps(reserveBps) {
      ParseStable(gross);
      var c, r, p := SplitParts(gross, commissionBps, reserveBps, Amount(gross));
    }
  }

  /** The same balance through Decimal's own operations: adding the three parts never fails
      and compares equal to the gross. */
  lemma SplitBalances(gross: string, commissionBps: int, reserveBps: int)
    requires Split(gross, commissionBps, reserveBps).Ok?
    ensures var s := Split(gross, commissionBps, reserveBps).value;
            && Add(s.commission, s.reserve).Ok?
            && Add(Add(s.commission, s.reserve).value, s.payable).Ok?
            && Compare(Add(Add(s.commission, s.reserve).value, s.payable).value, s.gross) == Ok(0)
  {
    SplitConserves(gross, commissionBps, reserveBps);
    ParseStable(gross);
    var c, r, p := SplitParts(gross, commissionBps, reserveBps, Amount(gross));
    var s := Split(gross, commissionBps, reserveBps).value;
    AddExact(s.commission, s.reserve);
    var sum := Add(s.commission, s.reserve).value;
    AddExact(sum, s.payable);
    CompareIsNumeric(Add(sum, s.payable).value, s.gross);
  }

  // ----- many small splits against one big one

  ghost predicate Splittable(grosses: seq<string>) {
    forall i | 0 <= i < |grosses| :: Splits(grosses[i])
  }

  ghost function Commission(gross: string, bps: int): int
    requires Splits(gross) && ValidBps(bps)
  {
    SplitConserves(gross, bps, 0);
    Amount(Split(gross, bps, 0).value.commission)
  }

  ghost function Amounts(grosses: seq<string>): seq<int>
    requires Splittable(grosses)
  {
    seq(|grosses|, i requires 0 <= i < |grosses| => Amount(grosses[i]))
  }

  ghost function Commissions(grosses: seq<string>, bps: int): seq<int>
    requires Splittable(grosses) && ValidBps(bps)
  {
    seq(|grosses|, i requires 0 <= i < |grosses| => Commission(grosses[i], bps))
  }

  ghost function Sum(ns: seq<int>): int {
    if ns == [] then 0 else ns[0] + Sum(ns[1..])
  }

  lemma {:induction false} WeightedAdds(a: int, b: int, bps: nat)
    ensures Weighted(a, bps) + Weighted(b, bps) == Weighted(a + b, bps)
    ensures Weighted(0, bps) == 0
  {
    if bps > 0 { WeightedAdds(a, b, bps - 1); }
  }

  lemma {:induction false} PartsNearExact(amounts: seq<int>, parts: seq<int>, bps: nat)
    requires |amounts| == |parts|
    requires forall i | 0 <= i < |amounts| :: parts[i] == Part(amounts[i], bps)
    ensures -10000 * |amounts| <= 20000 * Sum(parts) - 2 * Weighted(Sum(amounts), bps) <= 10000 * |amounts|
  {
    WeightedAdds(0, 0, bps);
    if amounts != [] {
      PartsNearExact(amounts[1..], parts[1..], bps);
      assert parts[0] == Part(amounts[0], bps);
      WeightedAdds(amounts[0], Sum(amounts[1..]), bps);
    }
  }

  lemma CommissionIsPart(gross: string, bps: int)
    requires Splits(gross) && ValidBps(bps)
    ensures Commission(gross, bps) == Part(Amount(gross), bps)
  {
    ParseStable(gross);
    var c, r, p := SplitParts(gross, bps, 0, Amount(gross));
  }

  /** Commission charged item by item differs from commission on the sum by at most
      (n+1)/2 units of 10^-12, for any n items. */
  lemma CommissionDrift(grosses: seq<string>, total: string, bps: int)
    requires Splittable(grosses) && ValidBps(bps)
    requires Splits(total) && Amount(total) == Sum(Amounts(grosses))
    ensures var d := Sum(Commissions(grosses, bps)) - Commission(total, bps);
            -(|grosses| + 1) <= 2 * d <= |grosses| + 1
  {
    forall i | 0 <= i < |grosses|
      ensures Commissions(grosses, bps)[i] == Part(Amounts(grosses)[i], bps)
    {
      CommissionIsPart(grosses[i], bps);
    }
    PartsNearExact(Amounts(grosses), Commissions(grosses, bps), bps);
    CommissionIsPart(total, bps);
  }
}
