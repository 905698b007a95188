/** Price calculation and the minimum-margin guard of internal/pricing/pricing.go.
    Amounts and rates are rationals counted in units of 10^-12. */
module Pricing {
  import opened Text
  import opened Decimals
  import opened Printing
  import opened Wrappers

  datatype Rate = Rate(input: string, cached: string, output: string, fixed: string, unit: int, currency: string)

  datatype Tokens = Tokens(input: int, cached: int, output: int)

  // The numbers of a validated rate.
  datatype Prices = Prices(input: real, cached: real, output: real, fixed: real)

  datatype Reason =
    | InvalidTokens | InvalidUnit | InvalidCurrency | ExchangeRequired | InvalidCost | InvalidRetail
    | InvalidPromotion | InvalidTax | InvalidExchange | ZeroExchange | InvalidMinimum | NegativeBps

  datatype Outcome<+T> = Priced(value: T) | Rejected(reason: Reason)

  datatype Bill = Bill(
    providerCost: string, retailAmount: string, exchangeRate: string, grossMargin: string, promotionAmount: string,
    preTaxAmount: string, taxRate: string, taxAmount: string, finalAmount: string)

  // ----- validation

  // storedDecimalPattern: a decimal without a sign.
  predicate IsStored(s: string) { IsDecimal(s) && s[0] != '+' && s[0] != '-' }

  function NonNegative(value: string): Result<real> {
    var t := TrimSpace(value);
    if IsStored(t) then Ok(Units(t) as real) else Err
  }

  function Validate(rate: Rate): Result<Prices> {
    match (NonNegative(rate.input), NonNegative(rate.cached), NonNegative(rate.output), NonNegative(rate.fixed))
    case (Ok(i), Ok(c), Ok(o), Ok(f)) => Ok(Prices(i, c, o, f))
    case _ => Err
  }

  predicate ValidTokens(t: Tokens) { 0 <= t.cached <= t.input && 0 <= t.output }

  function CurrencyOf(rate: Rate): string { Upper(TrimSpace(rate.currency)) }

  predicate IsCurrency(s: string) { |s| == 3 && forall i | 0 <= i < 3 :: 'A' <= s[i] <= 'Z' }

  function OrElse(value: string, default: string): string {
    if TrimSpace(value) == "" then default else value
  }

  // What Calculate works on once every check has passed.
  datatype Inputs = Inputs(cost: Prices, retail: Prices, promotion: real, tax: real, exchange: real)

  function Accept(cost: Rate, retail: Rate, tokens: Tokens, promotion: string, taxRate: string, exchangeRate: string)
    : Outcome<Inputs>
  {
    if !ValidTokens(tokens) then Rejected(InvalidTokens)
    else if cost.unit <= 0 || retail.unit <= 0 then Rejected(InvalidUnit)
    else if !IsCurrency(CurrencyOf(cost)) || !IsCurrency(CurrencyOf(retail)) then Rejected(InvalidCurrency)
    else if CurrencyOf(cost) != CurrencyOf(retail) && TrimSpace(exchangeRate) == "" then Rejected(ExchangeRequired)
    else
      Gathered(Validate(cost), Validate(retail), NonNegative(OrElse(promotion, "0")), NonNegative(OrElse(taxRate, "0")),
               NonNegative(OrElse(exchangeRate, "1")))
  }

  // The checks from the rates on, in order.
  function Gathered(cost: Result<Prices>, retail: Result<Prices>, promotion: Result<real>, tax: Result<real>,
                    exchange: Result<real>): Outcome<Inputs>
  {
    if cost.Err? then Rejected(InvalidCost)
    else if retail.Err? then Rejected(InvalidRetail)
    else if promotion.Err? then Rejected(InvalidPromotion)
    else if tax.Err? then Rejected(InvalidTax)
    else if exchange.Err? then Rejected(InvalidExchange)
    else if exchange.value == 0.0 then Rejected(ZeroExchange)
    else Priced(Inputs(cost.value, retail.value, promotion.value, tax.value, exchange.value))
  }

  // ----- calculation

  // calculateRate
  function Total(p: Prices, unit: int, t: Tokens): real
    requires unit > 0
  {
    var tokens := (t.input - t.cached) as real * p.input + t.cached as real * p.cached + t.output as real * p.output;
    p.fixed + tokens / unit as real
  }

  datatype Figures = Figures(cost: real, retail: real, margin: real, promotion: real, preTax: real, tax: real,
                             final: real)

  function Compute(cost: real, retail: real, promotion: real, tax: real, exchange: real): Figures {
    var margin := Minus(retail, Times(cost, exchange));
    var promo := if promotion > retail then retail else promotion;
    var difference := Minus(retail, promo);
    var preTax := if difference < 0.0 then 0.0 else difference;
    var taxAmount := Times(preTax, tax);
    Figures(cost, retail, margin, promo, preTax, taxAmount, Plus(preTax, taxAmount))
  }

  function Print(f: Figures, tax: real, exchange: real): Bill {
    Bill(Format(f.cost), Format(f.retail), Format(exchange), Format(f.margin), Format(f.promotion),
         Format(f.preTax), Format(tax), Format(f.tax), Format(f.final))
  }

  function FiguresFor(i: Inputs, costUnit: int, retailUnit: int, tokens: Tokens): Figures
    requires costUnit > 0 && retailUnit > 0
  {
    Compute(Total(i.cost, costUnit, tokens), Total(i.retail, retailUnit, tokens), i.promotion, i.tax, i.exchange)
  }

  function Calculate(cost: Rate, retail: Rate, tokens: Tokens, promotion: string, taxRate: string, exchangeRate: string)
    : Outcome<Bill>
  {
    match Accept(cost, retail, tokens, promotion, taxRate, exchangeRate)
    case Rejected(reason) => Rejected(reason)
    case Priced(i) => Priced(Print(FiguresFor(i, cost.unit, retail.unit, tokens), i.tax, i.exchange))
  }

  // ----- what accepted inputs look like

  predicate NonNegativePrices(p: Prices) { p.input >= 0.0 && p.cached >= 0.0 && p.output >= 0.0 && p.fixed >= 0.0 }

  lemma NonNegativeIsWhole(value: string) returns (n: int)
    requires NonNegative(value).Ok?
    ensures n >= 0 && NonNegative(value).value == n as real
  {
    n := Units(TrimSpace(value));
  }

  lemma ValidatedPrices(rate: Rate)
    requires Validate(rate).Ok?
    ensures NonNegativePrices(Validate(rate).value)
  {
    var i := NonNegativeIsWhole(rate.input);
    var c := NonNegativeIsWhole(rate.cached);
    var o := NonNegativeIsWhole(rate.output);
    var f := NonNegativeIsWhole(rate.fixed);
  }

  lemma GatheredReads(cost: Result<Prices>, retail: Result<Prices>, promotion: Result<real>, tax: Result<real>,
                      exchange: Result<real>)
    requires Gathered(cost, retail, promotion, tax, exchange).Priced?
    ensures var i := Gathered(cost, retail, promotion, tax, exchange).value;
            && cost == Ok(i.cost) && retail == Ok(i.retail) && promotion == Ok(i.promotion) && tax == Ok(i.tax)
            && exchange == Ok(i.exchange) && i.exchange != 0.0
  {}

  lemma AcceptedReads(cost: Rate, retail: Rate, tokens: Tokens, promotion: string, taxRate: string,
                      exchangeRate: string)
    requires Accept(cost, retail, tokens, promotion, taxRate, exchangeRate).Priced?
    ensures var i := Accept(cost, retail, tokens, promotion, taxRate, exchangeRate).value;
            && Validate(cost) == Ok(i.cost) && Validate(retail) == Ok(i.retail)
            && NonNegative(OrElse(promotion, "0")) == Ok(i.promotion)
            && NonNegative(OrElse(taxRate, "0")) == Ok(i.tax)
            && NonNegative(OrElse(exchangeRate, "1")) == Ok(i.exchange) && i.exchange != 0.0
    ensures cost.unit > 0 && retail.unit > 0 && ValidTokens(tokens)
  {
    GatheredReads(Validate(cost), Validate(retail), NonNegative(OrElse(promotion, "0")),
                  NonNegative(OrElse(taxRate, "0")), NonNegative(OrElse(exchangeRate, "1")));
  }

  /** Accepted inputs: non-negative prices, a promotion of whole units, a non-negative
      tax rate and a positive exchange rate. */
  lemma AcceptedInputs(cost: Rate, retail: Rate, tokens: Tokens, promotion: string, taxRate: string,
                       exchangeRate: string)
    returns (promo: int)
    requires Accept(cost, retail, tokens, promotion, taxRate, exchangeRate).Priced?
    ensures var i := Accept(cost, retail, tokens, promotion, taxRate, exchangeRate).value;
            && NonNegativePrices(i.cost) && NonNegativePrices(i.retail)
            && promo >= 0 && i.promotion == promo as real && i.tax >= 0.0 && i.exchange > 0.0
            && Validate(cost) == Ok(i.cost) && Validate(retail) == Ok(i.retail)
            && NonNegative(OrElse(exchangeRate, "1")) == Ok(i.exchange)
    ensures cost.unit > 0 && retail.unit > 0 && ValidTokens(tokens)
  {
    AcceptedReads(cost, retail, tokens, promotion, taxRate, exchangeRate);
    ValidatedPrices(cost);
    ValidatedPrices(retail);
    promo := NonNegativeIsWhole(OrElse(promotion, "0"));
    var t := NonNegativeIsWhole(OrElse(taxRate, "0"));
    var e := NonNegativeIsWhole(OrElse(exchangeRate, "1"));
  }

  // A check and the reason its failure gives.
  datatype Test = Test(passed: bool, reason: Reason)

  // All tests pass, or the first that fails gives the reason.
  ghost predicate Answers<T>(tests: seq<Test>, outcome: Outcome<T>) {
    match outcome
    case Priced(_) => forall k | 0 <= k < |tests| :: tests[k].passed
    case Rejected(reason) =>
      exists k | 0 <= k < |tests| ::
        !tests[k].passed && tests[k].reason == reason && forall j | 0 <= j < k :: tests[j].passed
  }

  // The checks of Calculate, in order.
  ghost function Tests(tokens: bool, units: bool, currencies: bool, rateGiven: bool, cost: Result<Prices>,
                       retail: Result<Prices>, promotion: Result<real>, tax: Result<real>, exchange: Result<real>)
    : seq<Test>
  {
    [Test(tokens, InvalidTokens), Test(units, InvalidUnit), Test(currencies, InvalidCurrency),
     Test(rateGiven, ExchangeRequired), Test(cost.Ok?, InvalidCost), Test(retail.Ok?, InvalidRetail),
     Test(promotion.Ok?, InvalidPromotion), Test(tax.Ok?, InvalidTax), Test(exchange.Ok?, InvalidExchange),
     Test(exchange != Ok(0.0), ZeroExchange)]
  }

  lemma GatheredAnswers(tests: seq<Test>, cost: Result<Prices>, retail: Result<Prices>, promotion: Result<real>,
                        tax: Result<real>, exchange: Result<real>)
    requires tests == Tests(true, true, true, true, cost, retail, promotion, tax, exchange)
    ensures Answers(tests, Gathered(cost, retail, promotion, tax, exchange))
  {
    var outcome := Gathered(cost, retail, promotion, tax, exchange);
    if outcome.Rejected? {
      var k := match outcome.reason
        case InvalidCost => 4
        case InvalidRetail => 5
        case InvalidPromotion => 6
        case InvalidTax => 7
        case InvalidExchange => 8
        case _ => 9;
      assert !tests[k].passed && tests[k].reason == outcome.reason;
    }
  }

  lemma ScreenedAnswers(tokens: bool, units: bool, currencies: bool, rateGiven: bool, cost: Result<Prices>,
                        retail: Result<Prices>, promotion: Result<real>, tax: Result<real>, exchange: Result<real>,
                        outcome: Outcome<Inputs>)
    requires outcome ==
             if !tokens then Rejected(InvalidTokens)
             else if !units then Rejected(InvalidUnit)
             else if !currencies then Rejected(InvalidCurrency)
             else if !rateGiven then Rejected(ExchangeRequired)
             else Gathered(cost, retail, promotion, tax, exchange)
    ensures Answers(Tests(tokens, units, currencies, rateGiven, cost, retail, promotion, tax, exchange), outcome)
  {
    var tests := Tests(tokens, units, currencies, rateGiven, cost, retail, promotion, tax, exchange);
    if tokens && units && currencies && rateGiven {
      GatheredAnswers(tests, cost, retail, promotion, tax, exchange);
    } else {
      var k := if !tokens then 0 else if !units then 1 else if !currencies then 2 else 3;
      assert !tests[k].passed && tests[k].reason == outcome.reason;
    }
  }

  // The currency is three letters, in either case, up to outer space.
  ghost predicate NamesCurrency(rate: Rate) {
    var t := TrimSpace(rate.currency);
    |t| == 3 && forall i | 0 <= i < 3 :: 'a' <= t[i] <= 'z' || 'A' <= t[i] <= 'Z'
  }

  lemma CurrencyIffNamed(rate: Rate)
    ensures IsCurrency(CurrencyOf(rate)) <==> NamesCurrency(rate)
  {
    var t, u := TrimSpace(rate.currency), CurrencyOf(rate);
    if |t| == 3 {
      forall i | 0 <= i < 3 ensures 'A' <= u[i] <= 'Z' <==> 'a' <= t[i] <= 'z' || 'A' <= t[i] <= 'Z' {
        LetterRaised(t[i]);
        assert u[i] == UpperChar(t[i]);
      }
    }
  }

  lemma LetterRaised(c: char)
    ensures 'A' <= UpperChar(c) <= 'Z' <==> 'a' <= c <= 'z' || 'A' <= c <= 'Z'
  {}

  // The same tests, read off the arguments.
  ghost function TestsOf(cost: Rate, retail: Rate, tokens: Tokens, promotion: string, taxRate: string,
                         exchangeRate: string): seq<Test>
  {
    Tests(0 <= tokens.cached <= tokens.input && 0 <= tokens.output, cost.unit > 0 && retail.unit > 0,
          NamesCurrency(cost) && NamesCurrency(retail),
          CurrencyOf(cost) == CurrencyOf(retail) || TrimSpace(exchangeRate) != "",
          Validate(cost), Validate(retail), NonNegative(OrElse(promotion, "0")),
          NonNegative(OrElse(taxRate, "0")), NonNegative(OrElse(exchangeRate, "1")))
  }

  lemma AcceptAnswers(cost: Rate, retail: Rate, tokens: Tokens, promotion: string, taxRate: string,
                      exchangeRate: string)
    ensures Answers(TestsOf(cost, retail, tokens, promotion, taxRate, exchangeRate),
                    Accept(cost, retail, tokens, promotion, taxRate, exchangeRate))
  {
    CurrencyIffNamed(cost);
    CurrencyIffNamed(retail);
    ScreenedAnswers(ValidTokens(tokens), cost.unit > 0 && retail.unit > 0,
                    NamesCurrency(cost) && NamesCurrency(retail),
                    CurrencyOf(cost) == CurrencyOf(retail) || TrimSpace(exchangeRate) != "",
                    Validate(cost), Validate(retail), NonNegative(OrElse(promotion, "0")),
                    NonNegative(OrElse(taxRate, "0")), NonNegative(OrElse(exchangeRate, "1")),
                    Accept(cost, retail, tokens, promotion, taxRate, exchangeRate));
  }

  lemma SameAnswer<T, U>(tests: seq<Test>, a: Outcome<T>, b: Outcome<U>)
    requires Answers(tests, a) && (a.Priced? <==> b.Priced?) && (a.Rejected? ==> b == Rejected(a.reason))
    ensures Answers(tests, b)
  {}

  /** A bill is made exactly when every check passes, and otherwise refused for the first that
      fails. */
  lemma RejectedForFirstFailure(cost: Rate, retail: Rate, tokens: Tokens, promotion: string, taxRate: string,
                                exchangeRate: string)
    ensures Answers(TestsOf(cost, retail, tokens, promotion, taxRate, exchangeRate),
                    Calculate(cost, retail, tokens, promotion, taxRate, exchangeRate))
  {
    AcceptAnswers(cost, retail, tokens, promotion, taxRate, exchangeRate);
    SameAnswer(TestsOf(cost, retail, tokens, promotion, taxRate, exchangeRate),
               Accept(cost, retail, tokens, promotion, taxRate, exchangeRate),
               Calculate(cost, retail, tokens, promotion, taxRate, exchangeRate));
  }

  lemma TotalNonNegative(p: Prices, unit: int, t: Tokens)
    requires unit > 0 && NonNegativePrices(p) && ValidTokens(t)
    ensures Total(p, unit, t) >= 0.0
  {}

  // ----- the rounded bill

  lemma ProductNonNegative(x: real, y: real)
    requires x >= 0.0 && y >= 0.0
    ensures Times(x, y) >= 0.0
  {}

  lemma RoundedSum(x: real, y: real)
    requires x >= 0.0 && y >= 0.0
    ensures -1 <= Round(x) + Round(y) - Round(Plus(x, y)) <= 1
  {}

  /** Rounded separately, the capped promotion and the pre-tax amount still add up to the
      retail amount; pre-tax and tax miss the final amount by at most one unit. */
  lemma FiguresAddUp(cost: real, retail: real, promo: int, tax: real, exchange: real)
    requires retail >= 0.0 && promo >= 0 && tax >= 0.0
    ensures var f := Compute(cost, retail, promo as real, tax, exchange);
            && Round(f.promotion) + Round(f.preTax) == Round(f.retail)
            && -1 <= Round(f.preTax) + Round(f.tax) - Round(f.final) <= 1
            && 0.0 <= f.preTax
  {
    var f := Compute(cost, retail, promo as real, tax, exchange);
    if promo as real <= retail {
      RoundShift(retail, promo);
      RoundWhole(promo);
    }
    ProductNonNegative(f.preTax, tax);
    RoundedSum(f.preTax, f.tax);
  }

  ghost predicate Readable(b: Bill) {
    && IsNumeral(b.providerCost) && IsNumeral(b.retailAmount) && IsNumeral(b.exchangeRate) && IsNumeral(b.grossMargin)
    && IsNumeral(b.promotionAmount) && IsNumeral(b.preTaxAmount) && IsNumeral(b.taxRate) && IsNumeral(b.taxAmount)
    && IsNumeral(b.finalAmount)
  }

  // The bill reads as the roundings of the figures.
  ghost predicate Shows(b: Bill, f: Figures, tax: real, exchange: real) {
    && Readable(b)
    && Units(b.providerCost) == Round(f.cost) && Units(b.retailAmount) == Round(f.retail)
    && Units(b.exchangeRate) == Round(exchange) && Units(b.grossMargin) == Round(f.margin)
    && Units(b.promotionAmount) == Round(f.promotion) && Units(b.preTaxAmount) == Round(f.preTax)
    && Units(b.taxRate) == Round(tax) && Units(b.taxAmount) == Round(f.tax) && Units(b.finalAmount) == Round(f.final)
  }

  lemma PrintedFigures(f: Figures, tax: real, exchange: real)
    ensures Shows(Print(f, tax, exchange), f, tax, exchange)
  {
    FormatIsCanonical(f.cost);
    FormatIsCanonical(f.retail);
    FormatIsCanonical(exchange);
    FormatIsCanonical(f.margin);
    FormatIsCanonical(f.promotion);
    FormatIsCanonical(f.preTax);
    FormatIsCanonical(tax);
    FormatIsCanonical(f.tax);
    FormatIsCanonical(f.final);
  }

  // What is taken off is the smaller of promotion and retail amount, tax is charged on the rest,
  // and the margin is what retail leaves over the converted cost.
  ghost function Due(cost: real, retail: real, promotion: real, tax: real, exchange: real): Figures {
    var off := if promotion <= retail then promotion else retail;
    var rest := retail - off;
    Figures(cost := cost, retail := retail, margin := retail - cost * exchange / ONE, promotion := off,
            preTax := rest, tax := rest * tax / ONE, final := rest + rest * tax / ONE)
  }

  lemma ComputeIsDue(cost: real, retail: real, promotion: real, tax: real, exchange: real)
    ensures Compute(cost, retail, promotion, tax, exchange) == Due(cost, retail, promotion, tax, exchange)
  {}

  // The number a string reads as.
  ghost function Read(value: string): real
    requires NonNegative(value).Ok?
  {
    NonNegative(value).value
  }

  /** What the bill says, for every accepted input, in the numbers its strings read as. */
  lemma BillSays(cost: Rate, retail: Rate, tokens: Tokens, promotion: string, taxRate: string, exchangeRate: string)
    requires Calculate(cost, retail, tokens, promotion, taxRate, exchangeRate).Priced?
    ensures cost.unit > 0 && retail.unit > 0 && Validate(cost).Ok? && Validate(retail).Ok?
    ensures NonNegative(OrElse(promotion, "0")).Ok? && NonNegative(OrElse(taxRate, "0")).Ok?
    ensures NonNegative(OrElse(exchangeRate, "1")).Ok?
    ensures var b := Calculate(cost, retail, tokens, promotion, taxRate, exchangeRate).value;
            Shows(b,
                  Due(Total(Validate(cost).value, cost.unit, tokens),
                      Total(Validate(retail).value, retail.unit, tokens),
                      Read(OrElse(promotion, "0")), Read(OrElse(taxRate, "0")), Read(OrElse(exchangeRate, "1"))),
                  Read(OrElse(taxRate, "0")), Read(OrElse(exchangeRate, "1")))
  {
    AcceptedReads(cost, retail, tokens, promotion, taxRate, exchangeRate);
    var i := Accept(cost, retail, tokens, promotion, taxRate, exchangeRate).value;
    PrintedFigures(FiguresFor(i, cost.unit, retail.unit, tokens), i.tax, i.exchange);
    ComputeIsDue(Total(i.cost, cost.unit, tokens), Total(i.retail, retail.unit, tokens), i.promotion, i.tax,
                 i.exchange);
  }

  /** The printed bill adds up, for every accepted input. */
  lemma BillAddsUp(cost: Rate, retail: Rate, tokens: Tokens, promotion: string, taxRate: string, exchangeRate: string)
    requires Calculate(cost, retail, tokens, promotion, taxRate, exchangeRate).Priced?
    ensures var b := Calculate(cost, retail, tokens, promotion, taxRate, exchangeRate).value;
            && Readable(b)
            && Units(b.promotionAmount) + Units(b.preTaxAmount) == Units(b.retailAmount)
            && -1 <= Units(b.preTaxAmount) + Units(b.taxAmount) - Units(b.finalAmount) <= 1
  {
    var promo := AcceptedInputs(cost, retail, tokens, promotion, taxRate, exchangeRate);
    var i := Accept(cost, retail, tokens, promotion, taxRate, exchangeRate).value;
    TotalNonNegative(i.retail, retail.unit, tokens);
    FiguresAddUp(Total(i.cost, cost.unit, tokens), Total(i.retail, retail.unit, tokens), promo, i.tax, i.exchange);
    PrintedFigures(FiguresFor(i, cost.unit, retail.unit, tokens), i.tax, i.exchange);
  }
}
