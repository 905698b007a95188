/** Funds are reserved before a request runs, by quoting its largest possible usage with
    nothing cached (internal/server/gateway.go); the bill comes later. */
module Reservation {
  import opened Text
  import opened Wrappers
  import opened Decimals
  import opened Pricing
  import opened Margins

  // Usage that stays within what was reserved.
  predicate Within(actual: Tokens, reserved: Tokens) {
    ValidTokens(actual) && actual.input <= reserved.input && actual.output <= reserved.output
  }

  predicate IsReservation(reserved: Tokens) { ValidTokens(reserved) && reserved.cached == 0 }

  lemma PerTokenOrder(x: real, y: real, unit: int)
    requires unit > 0
    ensures x <= y <==> x / unit as real <= y / unit as real
    ensures x >= 0.0 ==> x / unit as real >= 0.0
  {}

  lemma UsageBelowMaximum(n: real, h: real, o: real, top: real, out: real, a: real, b: real, c: real)
    requires n >= 0.0 && h >= 0.0 && n + h <= top && o <= out
    requires 0.0 <= b <= a && c >= 0.0
    ensures n * a + h * b + o * c <= top * a + out * c
  {}

  /** When cached tokens cost no more than fresh ones, the reserved total is at least that
      of every usage within the reservation. */
  lemma ReservedTotalDominates(p: Prices, unit: int, actual: Tokens, reserved: Tokens)
    requires unit > 0 && NonNegativePrices(p) && p.cached <= p.input
    requires IsReservation(reserved) && Within(actual, reserved)
    ensures Total(p, unit, actual) <= Total(p, unit, reserved)
  {
    TotalIsLinear(p, unit, actual);
    TotalIsLinear(p, unit, reserved);
    PerTokenOrder(p.cached, p.input, unit);
    PerTokenOrder(p.output, p.output, unit);
    var u := unit as real;
    UsageBelowMaximum((actual.input - actual.cached) as real, actual.cached as real, actual.output as real,
                      reserved.input as real, reserved.output as real, p.input / u, p.cached / u, p.output / u);
  }

  /** Of the totals, before promotion and rounding, that is the exact condition: with at least
      one input token reserved, a dearer cached rate lets fully cached usage exceed it. */
  lemma ReservationNeedsCheapCache(p: Prices, unit: int, reserved: Tokens)
    requires unit > 0 && NonNegativePrices(p) && IsReservation(reserved) && reserved.input > 0
    ensures (forall actual | Within(actual, reserved) :: Total(p, unit, actual) <= Total(p, unit, reserved))
       <==> p.cached <= p.input
  {
    if p.cached <= p.input {
      forall actual | Within(actual, reserved)
        ensures Total(p, unit, actual) <= Total(p, unit, reserved)
      {
        ReservedTotalDominates(p, unit, actual, reserved);
      }
    } else {
      var cached := Tokens(reserved.input, reserved.input, reserved.output);
      TotalIsLinear(p, unit, cached);
      TotalIsLinear(p, unit, reserved);
      PerTokenOrder(p.cached, p.input, unit);
      DearerCache(reserved.input as real, p.input / unit as real, p.cached / unit as real);
      assert Within(cached, reserved) && Total(p, unit, cached) > Total(p, unit, reserved);
    }
  }

  lemma DearerCache(n: real, a: real, b: real)
    requires n > 0.0 && a < b
    ensures n * a < n * b
  {}

  lemma TimesMonotone(x: real, y: real, k: real)
    requires x <= y && k >= 0.0
    ensures Times(x, k) <= Times(y, k)
  {}

  lemma FiguresMonotone(cost: real, cost': real, low: real, high: real, promotion: real, tax: real, exchange: real)
    requires low <= high && tax >= 0.0
    ensures var f, f' := Compute(cost, low, promotion, tax, exchange), Compute(cost', high, promotion, tax, exchange);
            Round(f.retail) <= Round(f'.retail) && Round(f.final) <= Round(f'.final)
  {
    var f, f' := Compute(cost, low, promotion, tax, exchange), Compute(cost', high, promotion, tax, exchange);
    TimesMonotone(f.preTax, f'.preTax, tax);
    RoundMonotone(f.retail, f'.retail);
    RoundMonotone(f.final, f'.final);
  }

  lemma AcceptanceIgnoresUsage(
    cost: Rate, retail: Rate, t: Tokens, t': Tokens, promotion: string, taxRate: string, exchangeRate: string)
    requires ValidTokens(t) && ValidTokens(t')
    ensures Accept(cost, retail, t, promotion, taxRate, exchangeRate) ==
            Accept(cost, retail, t', promotion, taxRate, exchangeRate)
  {}

  // Both are billed, the first no higher than the second, retail and final.
  ghost predicate BilledWithin(
    cost: Rate, retail: Rate, t: Tokens, t': Tokens, promotion: string, taxRate: string, exchangeRate: string)
  {
    var bill, quote := Calculate(cost, retail, t, promotion, taxRate, exchangeRate),
                       Calculate(cost, retail, t', promotion, taxRate, exchangeRate);
    && bill.Priced? && quote.Priced? && Readable(bill.value) && Readable(quote.value)
    && Units(bill.value.retailAmount) <= Units(quote.value.retailAmount)
    && Units(bill.value.finalAmount) <= Units(quote.value.finalAmount)
  }

  /** Bills keep the order of the retail totals through promotion, tax and rounding. */
  lemma BillsMonotone(
    cost: Rate, retail: Rate, t: Tokens, t': Tokens, promotion: string, taxRate: string, exchangeRate: string)
    requires ValidTokens(t) && Calculate(cost, retail, t', promotion, taxRate, exchangeRate).Priced?
    requires retail.unit > 0 && Validate(retail).Ok?
    requires Total(Validate(retail).value, retail.unit, t) <= Total(Validate(retail).value, retail.unit, t')
    ensures BilledWithin(cost, retail, t, t', promotion, taxRate, exchangeRate)
  {
    var promo := AcceptedInputs(cost, retail, t', promotion, taxRate, exchangeRate);
    AcceptanceIgnoresUsage(cost, retail, t, t', promotion, taxRate, exchangeRate);
    var i := Accept(cost, retail, t', promotion, taxRate, exchangeRate).value;
    FiguresMonotone(Total(i.cost, cost.unit, t), Total(i.cost, cost.unit, t'),
                    Total(i.retail, retail.unit, t), Total(i.retail, retail.unit, t'), i.promotion, i.tax, i.exchange);
    PrintedFigures(FiguresFor(i, cost.unit, retail.unit, t), i.tax, i.exchange);
    PrintedFigures(FiguresFor(i, cost.unit, retail.unit, t'), i.tax, i.exchange);
  }

  /** Under one price and one promotion, tax and exchange rate, no usage within a
      reservation is billed more, retail or final, than was quoted, rounding included. */
  lemma ReservationDominates(
    cost: Rate, retail: Rate, reserved: Tokens, actual: Tokens, promotion: string, taxRate: string,
    exchangeRate: string)
    requires IsReservation(reserved) && Within(actual, reserved)
    requires Calculate(cost, retail, reserved, promotion, taxRate, exchangeRate).Priced?
    requires Validate(retail).Ok? && Validate(retail).value.cached <= Validate(retail).value.input
    ensures BilledWithin(cost, retail, actual, reserved, promotion, taxRate, exchangeRate)
  {
    var promo := AcceptedInputs(cost, retail, reserved, promotion, taxRate, exchangeRate);
    ReservedTotalDominates(Validate(retail).value, retail.unit, actual, reserved);
    BillsMonotone(cost, retail, actual, reserved, promotion, taxRate, exchangeRate);
  }

  // The reserved usage with every input token served from the cache.
  function FullyCached(reserved: Tokens): Tokens { Tokens(reserved.input, reserved.input, reserved.output) }

  lemma CachedTotalDominates(p: Prices, unit: int, actual: Tokens, reserved: Tokens)
    requires unit > 0 && NonNegativePrices(p) && p.input <= p.cached
    requires IsReservation(reserved) && Within(actual, reserved)
    ensures Total(p, unit, actual) <= Total(p, unit, FullyCached(reserved))
  {
    TotalIsLinear(p, unit, actual);
    TotalIsLinear(p, unit, FullyCached(reserved));
    PerTokenOrder(p.input, p.cached, unit);
    PerTokenOrder(p.output, p.output, unit);
    var u := unit as real;
    UsageBelowMaximum(actual.cached as real, (actual.input - actual.cached) as real, actual.output as real,
                      reserved.input as real, reserved.output as real, p.cached / u, p.input / u, p.output / u);
  }

  /** When a reservation covers the bill: no usage within it is billed more than was quoted if
      and only if fully cached usage is not, whatever the prices, promotion and tax. */
  lemma ReservationCoversIff(
    cost: Rate, retail: Rate, reserved: Tokens, promotion: string, taxRate: string, exchangeRate: string)
    requires IsReservation(reserved) && Calculate(cost, retail, reserved, promotion, taxRate, exchangeRate).Priced?
    ensures (forall actual | Within(actual, reserved) ::
               BilledWithin(cost, retail, actual, reserved, promotion, taxRate, exchangeRate))
            <==> BilledWithin(cost, retail, FullyCached(reserved), reserved, promotion, taxRate, exchangeRate)
  {
    assert Within(FullyCached(reserved), reserved);
    if BilledWithin(cost, retail, FullyCached(reserved), reserved, promotion, taxRate, exchangeRate) {
      forall actual | Within(actual, reserved)
        ensures BilledWithin(cost, retail, actual, reserved, promotion, taxRate, exchangeRate)
      {
        CoveredUsage(cost, retail, reserved, actual, promotion, taxRate, exchangeRate);
      }
    }
  }

  lemma CoveredUsage(
    cost: Rate, retail: Rate, reserved: Tokens, actual: Tokens, promotion: string, taxRate: string,
    exchangeRate: string)
    requires IsReservation(reserved) && Within(actual, reserved)
    requires BilledWithin(cost, retail, FullyCached(reserved), reserved, promotion, taxRate, exchangeRate)
    ensures BilledWithin(cost, retail, actual, reserved, promotion, taxRate, exchangeRate)
  {
    var promo := AcceptedInputs(cost, retail, reserved, promotion, taxRate, exchangeRate);
    var p := Validate(retail).value;
    if p.cached <= p.input {
      ReservationDominates(cost, retail, reserved, actual, promotion, taxRate, exchangeRate);
    } else {
      CachedTotalDominates(p, retail.unit, actual, reserved);
      BillsMonotone(cost, retail, actual, FullyCached(reserved), promotion, taxRate, exchangeRate);
    }
  }

  // A price at which cached tokens cost twice as much as fresh ones.
  function DearCache(): Rate { Rate("1", "2", "0", "0", 1, "USD") }

  lemma DearCacheReads()
    ensures Validate(DearCache()) == Ok(Prices(ONE, 2.0 * ONE, 0.0, 0.0))
    ensures Validate(Free()) == Ok(Prices(0.0, 0.0, 0.0, 0.0))
    ensures CurrencyOf(DearCache()) == "USD" && CurrencyOf(Free()) == "USD" && NonNegative("1") == Ok(ONE)
    ensures NonNegative("0") == Ok(0.0) && TrimSpace("") == ""
  {
    OneNumeral();
    WholeNumeral("", "2", 2);
    assert "" + "2" == "2";
    SolidNumeral("2");
  }

  function DearCacheInputs(): Inputs {
    Inputs(Prices(0.0, 0.0, 0.0, 0.0), Prices(ONE, 2.0 * ONE, 0.0, 0.0), 0.0, 0.0, ONE)
  }

  lemma DearCacheAccepts(t: Tokens)
    requires ValidTokens(t)
    ensures Accept(Free(), DearCache(), t, "", "", "") == Priced(DearCacheInputs())
  {
    DearCacheReads();
  }

  lemma DearCacheTotal(t: Tokens)
    ensures Total(DearCacheInputs().retail, 1, t) == (1_000_000_000_000 * (t.input + t.cached)) as real
  {}

  lemma DearCacheBills(t: Tokens)
    requires ValidTokens(t)
    ensures var bill := Calculate(Free(), DearCache(), t, "", "", "");
            && bill.Priced? && Readable(bill.value)
            && Units(bill.value.retailAmount) == 1_000_000_000_000 * (t.input + t.cached)
  {
    var i := DearCacheInputs();
    DearCacheAccepts(t);
    DearCacheTotal(t);
    RoundWhole(1_000_000_000_000 * (t.input + t.cached));
    PrintedFigures(FiguresFor(i, 1, 1, t), i.tax, i.exchange);
  }

  /** A bill above its quote, at accepted rates: one token is quoted at 1 and billed at 2. */
  lemma DearCacheExceedsQuote()
    ensures var quote, bill := Calculate(Free(), DearCache(), Tokens(1, 0, 0), "", "", ""),
                               Calculate(Free(), DearCache(), Tokens(1, 1, 0), "", "", "");
            && quote.Priced? && bill.Priced? && Readable(quote.value) && Readable(bill.value)
            && Units(quote.value.retailAmount) == 1_000_000_000_000 < Units(bill.value.retailAmount)
    ensures !BilledWithin(Free(), DearCache(), FullyCached(Tokens(1, 0, 0)), Tokens(1, 0, 0), "", "", "")
  {
    DearCacheBills(Tokens(1, 0, 0));
    DearCacheBills(Tokens(1, 1, 0));
  }
}
