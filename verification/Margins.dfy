/** The minimum-margin guard of internal/pricing/pricing.go: what its four comparisons
    promise about every request. */
module Margins {
  import opened Text
  import opened Decimals
  import opened Printing
  import opened Pricing
  import opened Wrappers

  // What the guard works on once every check has passed; factor is 1 + bps/10000.
  datatype Guard = Guard(
    cost: Prices, costUnit: int, retail: Prices, retailUnit: int, minimum: real, factor: real, exchange: real)

  datatype Verdict = Verdict(ok: bool, lowest: string)

  function AcceptGuard(cost: Rate, retail: Rate, minimumAmount: string, minimumBps: int, exchangeRate: string)
    : Outcome<Guard>
  {
    if cost.unit <= 0 || retail.unit <= 0 then Rejected(InvalidUnit)
    else if !IsCurrency(CurrencyOf(cost)) || !IsCurrency(CurrencyOf(retail)) then Rejected(InvalidCurrency)
    else
      Guarded(Validate(cost), cost.unit, Validate(retail), retail.unit, NonNegative(minimumAmount), minimumBps,
              NonNegative(OrElse(exchangeRate, "1")))
  }

  // The checks from the rates on, in order.
  function Guarded(cost: Result<Prices>, costUnit: int, retail: Result<Prices>, retailUnit: int, minimum: Result<real>,
                   minimumBps: int, exchange: Result<real>): Outcome<Guard>
  {
    if cost.Err? then Rejected(InvalidCost)
    else if retail.Err? then Rejected(InvalidRetail)
    else if minimum.Err? then Rejected(InvalidMinimum)
    else if minimumBps < 0 then Rejected(NegativeBps)
    else if exchange.Err? then Rejected(InvalidExchange)
    else if exchange.value == 0.0 then Rejected(ZeroExchange)
    else
      Priced(Guard(cost.value, costUnit, retail.value, retailUnit, minimum.value, 1.0 + minimumBps as real / 10000.0,
                   exchange.value))
  }

  predicate ValidGuard(g: Guard) {
    && g.costUnit > 0 && g.retailUnit > 0 && g.factor >= 1.0 && g.exchange > 0.0 && g.minimum >= 0.0
    && NonNegativePrices(g.cost)
  }

  // cost * exchange * factor
  function Required(g: Guard, cost: real): real { Times(cost, g.exchange) * g.factor }

  // The margin tested at position 0..3: per input, cached and output token, and fixed.
  function MarginAt(g: Guard, index: nat): real
    requires g.costUnit > 0 && g.retailUnit > 0 && index < 4
  {
    var cu, ru := g.costUnit as real, g.retailUnit as real;
    match index
    case 0 => g.retail.input / ru - Required(g, g.cost.input / cu)
    case 1 => g.retail.cached / ru - Required(g, g.cost.cached / cu)
    case 2 => g.retail.output / ru - Required(g, g.cost.output / cu)
    case 3 => g.retail.fixed - (Required(g, g.cost.fixed) + g.minimum)
  }

  ghost predicate AllMargins(g: Guard)
    requires g.costUnit > 0 && g.retailUnit > 0
  {
    forall i: nat | i < 4 :: MarginAt(g, i) >= 0.0
  }

  lemma GuardedReads(cost: Result<Prices>, costUnit: int, retail: Result<Prices>, retailUnit: int,
                     minimum: Result<real>, minimumBps: int, exchange: Result<real>)
    requires Guarded(cost, costUnit, retail, retailUnit, minimum, minimumBps, exchange).Priced?
    ensures var g := Guarded(cost, costUnit, retail, retailUnit, minimum, minimumBps, exchange).value;
            && cost == Ok(g.cost) && retail == Ok(g.retail) && minimum == Ok(g.minimum) && exchange == Ok(g.exchange)
            && g.costUnit == costUnit && g.retailUnit == retailUnit
            && g.factor == 1.0 + minimumBps as real / 10000.0 && minimumBps >= 0 && g.exchange != 0.0
  {}

  lemma GuardReads(cost: Rate, retail: Rate, minimumAmount: string, minimumBps: int, exchangeRate: string)
    requires AcceptGuard(cost, retail, minimumAmount, minimumBps, exchangeRate).Priced?
    ensures var g := AcceptGuard(cost, retail, minimumAmount, minimumBps, exchangeRate).value;
            && Validate(cost) == Ok(g.cost) && Validate(retail) == Ok(g.retail)
            && NonNegative(minimumAmount) == Ok(g.minimum) && NonNegative(OrElse(exchangeRate, "1")) == Ok(g.exchange)
            && g.costUnit == cost.unit > 0 && g.retailUnit == retail.unit > 0
            && g.factor == 1.0 + minimumBps as real / 10000.0 && minimumBps >= 0 && g.exchange != 0.0
  {
    GuardedReads(Validate(cost), cost.unit, Validate(retail), retail.unit, NonNegative(minimumAmount), minimumBps,
                 NonNegative(OrElse(exchangeRate, "1")));
  }

  lemma AcceptedGuard(cost: Rate, retail: Rate, minimumAmount: string, minimumBps: int, exchangeRate: string)
    requires AcceptGuard(cost, retail, minimumAmount, minimumBps, exchangeRate).Priced?
    ensures ValidGuard(AcceptGuard(cost, retail, minimumAmount, minimumBps, exchangeRate).value)
  {
    GuardReads(cost, retail, minimumAmount, minimumBps, exchangeRate);
    ValidatedPrices(cost);
    var m := NonNegativeIsWhole(minimumAmount);
    var e := NonNegativeIsWhole(OrElse(exchangeRate, "1"));
  }

  // The checks of the guard, in order.
  ghost function GuardTests(units: bool, currencies: bool, cost: Result<Prices>, retail: Result<Prices>,
                            minimum: Result<real>, bps: bool, exchange: Result<real>): seq<Test>
  {
    [Test(units, InvalidUnit), Test(currencies, InvalidCurrency), Test(cost.Ok?, InvalidCost),
     Test(retail.Ok?, InvalidRetail), Test(minimum.Ok?, InvalidMinimum), Test(bps, NegativeBps),
     Test(exchange.Ok?, InvalidExchange), Test(exchange != Ok(0.0), ZeroExchange)]
  }

  ghost function GuardTestsOf(cost: Rate, retail: Rate, minimumAmount: string, minimumBps: int, exchangeRate: string)
    : seq<Test>
  {
    GuardTests(cost.unit > 0 && retail.unit > 0, NamesCurrency(cost) && NamesCurrency(retail),
               Validate(cost), Validate(retail), NonNegative(minimumAmount), minimumBps >= 0,
               NonNegative(OrElse(exchangeRate, "1")))
  }

  lemma GuardedAnswers(units: bool, currencies: bool, cost: Result<Prices>, costUnit: int, retail: Result<Prices>,
                       retailUnit: int, minimum: Result<real>, bps: int, exchange: Result<real>,
                       outcome: Outcome<Guard>)
    requires outcome ==
             if !units then Rejected(InvalidUnit)
             else if !currencies then Rejected(InvalidCurrency)
             else Guarded(cost, costUnit, retail, retailUnit, minimum, bps, exchange)
    ensures Answers(GuardTests(units, currencies, cost, retail, minimum, bps >= 0, exchange), outcome)
  {
    var tests := GuardTests(units, currencies, cost, retail, minimum, bps >= 0, exchange);
    if outcome.Rejected? {
      var k := match outcome.reason
        case InvalidUnit => 0
        case InvalidCurrency => 1
        case InvalidCost => 2
        case InvalidRetail => 3
        case InvalidMinimum => 4
        case NegativeBps => 5
        case InvalidExchange => 6
        case _ => 7;
      assert !tests[k].passed && tests[k].reason == outcome.reason;
    }
  }

  lemma AcceptGuardAnswers(cost: Rate, retail: Rate, minimumAmount: string, minimumBps: int, exchangeRate: string)
    ensures Answers(GuardTestsOf(cost, retail, minimumAmount, minimumBps, exchangeRate),
                    AcceptGuard(cost, retail, minimumAmount, minimumBps, exchangeRate))
  {
    CurrencyIffNamed(cost);
    CurrencyIffNamed(retail);
    GuardedAnswers(cost.unit > 0 && retail.unit > 0, NamesCurrency(cost) && NamesCurrency(retail),
                   Validate(cost), cost.unit, Validate(retail), retail.unit, NonNegative(minimumAmount), minimumBps,
                   NonNegative(OrElse(exchangeRate, "1")),
                   AcceptGuard(cost, retail, minimumAmount, minimumBps, exchangeRate));
  }

  // The smallest of the four margins, by position.
  ghost predicate IsLowest(g: Guard, at: nat)
    requires g.costUnit > 0 && g.retailUnit > 0
  {
    at < 4 && forall j: nat | j < 4 :: MarginAt(g, at) <= MarginAt(g, j)
  }

  /** The loop over the four price components. */
  method ScanMargins(g: Guard) returns (ok: bool, lowest: real, ghost at: nat)
    requires g.costUnit > 0 && g.retailUnit > 0
    ensures ok <==> AllMargins(g)
    ensures IsLowest(g, at) && lowest == MarginAt(g, at)
  {
    var costValues := [g.cost.input, g.cost.cached, g.cost.output, g.cost.fixed];
    var retailValues := [g.retail.input, g.retail.cached, g.retail.output, g.retail.fixed];
    var initialized := false;
    lowest, ok, at := 0.0, true, 0;
    for index := 0 to 4
      invariant initialized == (index > 0)
      invariant ok <==> forall i: nat | i < index :: MarginAt(g, i) >= 0.0
      invariant index > 0 ==> at < index && lowest == MarginAt(g, at)
      invariant index > 0 ==> forall j: nat | j < index :: lowest <= MarginAt(g, j)
    {
      var c, r := costValues[index], retailValues[index];
      if index < 3 {
        c := c / g.costUnit as real;
        r := r / g.retailUnit as real;
      }
      var required := Required(g, c);
      if index == 3 {
        required := required + g.minimum;
      }
      var margin := r - required;
      assert margin == MarginAt(g, index);
      if !initialized || margin < lowest {
        lowest := margin;
        initialized := true;
        at := index;
      }
      if margin < 0.0 {
        ok := false;
      }
    }
  }

  ghost predicate PrintsLowest(g: Guard, text: string)
    requires g.costUnit > 0 && g.retailUnit > 0
  {
    exists i: nat :: IsLowest(g, i) && text == Format(MarginAt(g, i))
  }

  method Judge(g: Guard) returns (verdict: Verdict)
    requires g.costUnit > 0 && g.retailUnit > 0
    ensures (verdict.ok <==> AllMargins(g)) && PrintsLowest(g, verdict.lowest)
  {
    var ok, lowest, at := ScanMargins(g);
    assert PrintsLowest(g, Format(MarginAt(g, at)));
    return Verdict(ok, Format(lowest));
  }

  // ----- the guard against whole requests

  /** What the guard is for: the retail total covers the marked-up cost and the minimum. */
  ghost predicate Covers(g: Guard, t: Tokens)
    requires g.costUnit > 0 && g.retailUnit > 0
  {
    Total(g.retail, g.retailUnit, t) >= Required(g, Total(g.cost, g.costUnit, t)) + g.minimum
  }

  // fixed + n*a + h*b + o*c
  function Linear(fixed: real, n: real, a: real, h: real, b: real, o: real, c: real): real {
    fixed + n * a + h * b + o * c
  }

  lemma TotalIsLinear(p: Prices, unit: int, t: Tokens)
    requires unit > 0
    ensures Total(p, unit, t)
         == Linear(p.fixed, (t.input - t.cached) as real, p.input / unit as real,
                   t.cached as real, p.cached / unit as real, t.output as real, p.output / unit as real)
  {}

  lemma ScaledLinear(k: real, fixed: real, n: real, a: real, h: real, b: real, o: real, c: real)
    ensures k * Linear(fixed, n, a, h, b, o, c) == Linear(k * fixed, n, k * a, h, k * b, o, k * c)
  {}

  lemma LinearDifference(n: real, h: real, o: real,
                         f: real, a: real, b: real, c: real, f': real, a': real, b': real, c': real)
    ensures Linear(f, n, a, h, b, o, c) - Linear(f', n, a', h, b', o, c') ==
            Linear(f - f', n, a - a', h, b - b', o, c - c')
  {}

  lemma RequiredScales(g: Guard, x: real)
    ensures Required(g, x) == (g.exchange / ONE * g.factor) * x
  {}

  // The surplus of a request as a combination of the four tested margins.
  ghost function Surplus(g: Guard, n: real, h: real, o: real): real
    requires g.costUnit > 0 && g.retailUnit > 0
  {
    Linear(MarginAt(g, 3), n, MarginAt(g, 0), h, MarginAt(g, 1), o, MarginAt(g, 2))
  }

  lemma CoversIffSurplus(g: Guard, t: Tokens)
    requires g.costUnit > 0 && g.retailUnit > 0
    ensures Covers(g, t) <==> Surplus(g, (t.input - t.cached) as real, t.cached as real, t.output as real) >= 0.0
  {
    var k := g.exchange / ONE * g.factor;
    var cu, ru := g.costUnit as real, g.retailUnit as real;
    var n, h, o := (t.input - t.cached) as real, t.cached as real, t.output as real;
    var c, r := g.cost, g.retail;
    TotalIsLinear(c, g.costUnit, t);
    TotalIsLinear(r, g.retailUnit, t);
    RequiredScales(g, Total(c, g.costUnit, t));
    RequiredScales(g, c.input / cu);
    RequiredScales(g, c.cached / cu);
    RequiredScales(g, c.output / cu);
    RequiredScales(g, c.fixed);
    ScaledLinear(k, c.fixed, n, c.input / cu, h, c.cached / cu, o, c.output / cu);
    LinearDifference(n, h, o, r.fixed, r.input / ru, r.cached / ru, r.output / ru,
                     k * c.fixed, k * (c.input / cu), k * (c.cached / cu), k * (c.output / cu));
  }

  lemma SurplusOfCounts(g: Guard, n: nat, h: nat, o: nat)
    requires g.costUnit > 0 && g.retailUnit > 0 && AllMargins(g)
    ensures Surplus(g, n as real, h as real, o as real) >= 0.0
  {}

  // Enough tokens of a kind sold at a loss eat up any fixed margin.
  lemma EnoughTokens(fixed: real, slope: real) returns (n: nat)
    requires slope < 0.0
    ensures fixed + n as real * slope < 0.0
  {
    if fixed < 0.0 {
      n := 0;
    } else {
      var q := fixed / -slope;
      n := q.Floor + 1;
      assert n as real > q;
      assert n as real * -slope > q * -slope == fixed;
    }
  }

  lemma LossShows(g: Guard, index: nat) returns (t: Tokens)
    requires g.costUnit > 0 && g.retailUnit > 0 && index < 4 && MarginAt(g, index) < 0.0
    ensures ValidTokens(t) && !Covers(g, t)
  {
    var n := 0;
    if index < 3 { n := EnoughTokens(MarginAt(g, 3), MarginAt(g, index)); }
    t := match index
      case 0 => Tokens(n, 0, 0)
      case 1 => Tokens(n, n, 0)
      case _ => Tokens(0, 0, n);
    CoversIffSurplus(g, t);
  }

  /** The guard is exact: its four comparisons succeed if and only if every request, of
      whatever token counts, covers its marked-up cost and the minimum amount. */
  lemma GuardIsExact(g: Guard)
    requires g.costUnit > 0 && g.retailUnit > 0
    ensures AllMargins(g) <==> forall t | ValidTokens(t) :: Covers(g, t)
  {
    if AllMargins(g) {
      forall t | ValidTokens(t)
        ensures Covers(g, t)
      {
        SurplusOfCounts(g, t.input - t.cached, t.cached, t.output);
        CoversIffSurplus(g, t);
      }
    } else {
      var i: nat :| i < 4 && MarginAt(g, i) < 0.0;
      var t := LossShows(g, i);
    }
  }

  /** A request sold for at least its converted cost, marked up by `bps` basis points, and the
      minimum amount. */
  ghost predicate Pays(cost: Prices, costUnit: int, retail: Prices, retailUnit: int, minimum: real, bps: int,
                       exchange: real, t: Tokens)
    requires costUnit > 0 && retailUnit > 0
  {
    Total(retail, retailUnit, t)
    >= Times(Total(cost, costUnit, t), exchange) * (1.0 + bps as real / 10000.0) + minimum
  }

  /** The same exactness in the arguments of the guard: an accepted price passes if and only if
      every request pays, at the prices, minimum and exchange rate its strings read as. */
  lemma GuardDecides(cost: Rate, retail: Rate, minimumAmount: string, minimumBps: int, exchangeRate: string)
    requires AcceptGuard(cost, retail, minimumAmount, minimumBps, exchangeRate).Priced?
    ensures var g := AcceptGuard(cost, retail, minimumAmount, minimumBps, exchangeRate).value;
            && g.costUnit > 0 && g.retailUnit > 0
    ensures cost.unit > 0 && retail.unit > 0 && Validate(cost).Ok? && Validate(retail).Ok?
    ensures NonNegative(minimumAmount).Ok? && NonNegative(OrElse(exchangeRate, "1")).Ok?
    ensures AllMargins(AcceptGuard(cost, retail, minimumAmount, minimumBps, exchangeRate).value) <==>
            forall t | ValidTokens(t) ::
              Pays(Validate(cost).value, cost.unit, Validate(retail).value, retail.unit, Read(minimumAmount),
                   minimumBps, Read(OrElse(exchangeRate, "1")), t)
  {
    GuardReads(cost, retail, minimumAmount, minimumBps, exchangeRate);
    var g := AcceptGuard(cost, retail, minimumAmount, minimumBps, exchangeRate).value;
    GuardIsExact(g);
    CoversIsPays(g, minimumBps);
  }

  // What the guard answers: the smallest margin printed, and whether every request pays.
  ghost predicate Tells(cost: Rate, retail: Rate, minimumAmount: string, minimumBps: int, exchangeRate: string,
                        verdict: Verdict)
  {
    && cost.unit > 0 && retail.unit > 0 && Validate(cost).Ok? && Validate(retail).Ok?
    && NonNegative(minimumAmount).Ok? && NonNegative(OrElse(exchangeRate, "1")).Ok?
    && (verdict.ok <==>
        forall t | ValidTokens(t) ::
          Pays(Validate(cost).value, cost.unit, Validate(retail).value, retail.unit, Read(minimumAmount), minimumBps,
               Read(OrElse(exchangeRate, "1")), t))
    && var g := AcceptGuard(cost, retail, minimumAmount, minimumBps, exchangeRate);
       g.Priced? && g.value.costUnit > 0 && g.value.retailUnit > 0 && PrintsLowest(g.value, verdict.lowest)
  }

  /** The guard: reject bad input, otherwise say whether every request pays and print the
      smallest of the four margins. */
  method MeetsMinimumMargin(cost: Rate, retail: Rate, minimumAmount: string, minimumBps: int, exchangeRate: string)
    returns (verdict: Outcome<Verdict>)
    ensures Answers(GuardTestsOf(cost, retail, minimumAmount, minimumBps, exchangeRate), verdict)
    ensures verdict.Priced? ==> Tells(cost, retail, minimumAmount, minimumBps, exchangeRate, verdict.value)
  {
    var accepted := AcceptGuard(cost, retail, minimumAmount, minimumBps, exchangeRate);
    AcceptGuardAnswers(cost, retail, minimumAmount, minimumBps, exchangeRate);
    var tests := GuardTestsOf(cost, retail, minimumAmount, minimumBps, exchangeRate);
    if accepted.Rejected? {
      SameAnswer(tests, accepted, Outcome<Verdict>.Rejected(accepted.reason));
      return Rejected(accepted.reason);
    }
    GuardDecides(cost, retail, minimumAmount, minimumBps, exchangeRate);
    var judged := Judge(accepted.value);
    SameAnswer(tests, accepted, Priced(judged));
    return Priced(judged);
  }

  lemma CoversIsPays(g: Guard, bps: int)
    requires g.costUnit > 0 && g.retailUnit > 0 && g.factor == 1.0 + bps as real / 10000.0
    ensures (forall t | ValidTokens(t) :: Covers(g, t)) <==>
            forall t | ValidTokens(t) :: Pays(g.cost, g.costUnit, g.retail, g.retailUnit, g.minimum, bps, g.exchange, t)
  {
    assert forall t :: Covers(g, t) <==>
                       Pays(g.cost, g.costUnit, g.retail, g.retailUnit, g.minimum, bps, g.exchange, t);
  }

  lemma CoveredFigures(g: Guard, i: Inputs, t: Tokens)
    requires ValidGuard(g) && AllMargins(g) && ValidTokens(t)
    requires i.cost == g.cost && i.retail == g.retail && i.exchange == g.exchange
    ensures Round(FiguresFor(i, g.costUnit, g.retailUnit, t).margin) >= 0
  {
    GuardIsExact(g);
    assert Covers(g, t);
    MarginFromCover(g, t);
    RoundNearest(FiguresFor(i, g.costUnit, g.retailUnit, t).margin);
  }

  lemma SamePrices(
    cost: Rate, retail: Rate, minimumAmount: string, minimumBps: int, exchangeRate: string,
    tokens: Tokens, promotion: string, taxRate: string)
    requires AcceptGuard(cost, retail, minimumAmount, minimumBps, exchangeRate).Priced?
    requires Accept(cost, retail, tokens, promotion, taxRate, exchangeRate).Priced?
    ensures var g := AcceptGuard(cost, retail, minimumAmount, minimumBps, exchangeRate).value;
            var i := Accept(cost, retail, tokens, promotion, taxRate, exchangeRate).value;
            && i.cost == g.cost && i.retail == g.retail && i.exchange == g.exchange && ValidTokens(tokens)
            && g.costUnit == cost.unit > 0 && g.retailUnit == retail.unit > 0
  {
    GuardReads(cost, retail, minimumAmount, minimumBps, exchangeRate);
    var promo := AcceptedInputs(cost, retail, tokens, promotion, taxRate, exchangeRate);
  }

  /** A price that passes the guard is never billed at a negative gross margin. */
  lemma GuardedMarginNotNegative(
    cost: Rate, retail: Rate, minimumAmount: string, minimumBps: int, exchangeRate: string, verdict: Verdict,
    tokens: Tokens, promotion: string, taxRate: string)
    requires Tells(cost, retail, minimumAmount, minimumBps, exchangeRate, verdict) && verdict.ok
    requires Calculate(cost, retail, tokens, promotion, taxRate, exchangeRate).Priced?
    ensures var b := Calculate(cost, retail, tokens, promotion, taxRate, exchangeRate).value;
            IsNumeral(b.grossMargin) && Units(b.grossMargin) >= 0
  {
    var g := AcceptGuard(cost, retail, minimumAmount, minimumBps, exchangeRate).value;
    var i := Accept(cost, retail, tokens, promotion, taxRate, exchangeRate).value;
    GuardDecides(cost, retail, minimumAmount, minimumBps, exchangeRate);
    AcceptedGuard(cost, retail, minimumAmount, minimumBps, exchangeRate);
    SamePrices(cost, retail, minimumAmount, minimumBps, exchangeRate, tokens, promotion, taxRate);
    CoveredFigures(g, i, tokens);
    PrintedFigures(FiguresFor(i, cost.unit, retail.unit, tokens), i.tax, i.exchange);
  }

  lemma MarginFromCover(g: Guard, t: Tokens)
    requires ValidGuard(g) && ValidTokens(t) && Covers(g, t)
    ensures Minus(Total(g.retail, g.retailUnit, t), Times(Total(g.cost, g.costUnit, t), g.exchange)) >= 0.0
  {}

  lemma ZeroPrints()
    ensures Format(0.0) == "0"
  {
    ZeroNumeral();
    FormatRoundTrip(0.0, 0.0, "0");
  }

  /** The printed lowest margin reads "0" on a price the guard refuses if and only if the
      lowest margin is a loss of less than half a unit. */
  lemma LossHiddenIff(g: Guard, at: nat)
    requires g.costUnit > 0 && g.retailUnit > 0 && IsLowest(g, at)
    ensures !AllMargins(g) && Format(MarginAt(g, at)) == "0" <==> -0.5 < MarginAt(g, at) < 0.0
  {
    var x := MarginAt(g, at);
    ZeroPrints();
    FormatRoundTrip(x, 0.0, "0");
    RoundWhole(0);
    RoundNearest(x);
    assert AllMargins(g) <==> x >= 0.0;
  }

  // Free of charge, except that ten trillion input tokens cost 1.
  function NearlyFree(): Rate { Rate("1", "0", "0", "0", 10_000_000_000_000, "USD") }

  function Free(): Rate { Rate("0", "0", "0", "0", 1, "USD") }

  lemma OneNumeral()
    ensures NonNegative("1") == Ok(ONE) && NonNegative("0") == Ok(0.0)
    ensures TrimSpace("1") == "1" && TrimSpace("") == ""
  {
    ZeroNumeral();
    WholeNumeral("", "1", 1);
    assert "" + "1" == "1";
    SolidNumeral("1");
  }

  /** Such a price: given away although it costs a tenth of a unit a token, it is refused with
      a lowest margin of "0". */
  lemma HiddenLoss()
    ensures var accepted := AcceptGuard(NearlyFree(), Free(), "0", 0, "");
            && accepted.Priced? && accepted.value.costUnit > 0 && accepted.value.retailUnit > 0
            && !AllMargins(accepted.value) && PrintsLowest(accepted.value, "0")
  {
    OneNumeral();
    assert CurrencyOf(Free()) == "USD" && CurrencyOf(NearlyFree()) == "USD";
    var g := Guard(Prices(ONE, 0.0, 0.0, 0.0), 10_000_000_000_000, Prices(0.0, 0.0, 0.0, 0.0), 1, 0.0, 1.0, ONE);
    assert AcceptGuard(NearlyFree(), Free(), "0", 0, "") == Priced(g);
    HiddenMargin(g);
    LossHiddenIff(g, 0);
  }

  lemma HiddenMargin(g: Guard)
    requires g == Guard(Prices(ONE, 0.0, 0.0, 0.0), 10_000_000_000_000, Prices(0.0, 0.0, 0.0, 0.0), 1, 0.0, 1.0, ONE)
    ensures MarginAt(g, 0) == -0.1 && IsLowest(g, 0)
  {}
}
