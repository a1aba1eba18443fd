/** The example tables of the arithmetic and exchange-bank specifications,
    restated over the model. `Money.new(n)` is n major units, and every
    amount here is written as its subunit count: 13 USD is
    `Money(1300, Usd, Plain)` and 0.13 USD is `Money(13, Usd, Plain)`. */
module Vectors {

  import opened Errors
  import opened Rounding
  import opened Division
  import opened Currencies
  import opened MoneyArithmetic
  import opened BankBase
  import opened VariableExchange

  const Usd := Currency("USD", 2)
  const Eur := Currency("EUR", 2)

  /** The class tag of Money itself. */
  const Plain: Kind := 0

  /** A directory holding the currencies the examples use. */
  function Sample(): Directory {
    CapitalsAreCode("USD");
    CapitalsAreCode("EUR");
    CapitalsAreCode("JPY");
    map["USD" := 2, "EUR" := 2, "JPY" := 0]
  }

  /** A code of capital letters is canonical. */
  lemma CapitalsAreCode(s: string)
    requires forall i :: 0 <= i < |s| ==> 'A' <= s[i] <= 'Z'
    ensures IsCode(s)
  {
    assert Upcase(s) == s;
  }

  /** A default bank that knows no rates. */
  function NoRates(): Conversion {
    (m: Money, c: Currency) => None
  }

  /** The stub the division tables install: the other Money is worth twice
      its amount in the receiver's currency. */
  function Doubling(): Conversion {
    (m: Money, c: Currency) => Some(Money(2 * m.fractional, c, Plain))
  }

  /** The stub the comparison table installs: a fixed answer. */
  function Answer(m: Money): Conversion {
    (x: Money, c: Currency) => Some(m)
  }

  function Ctx(convert: Conversion, mode: RoundingMode): Context {
    Context(convert, false, mode)
  }

  /** Unary minus, in any currency: `Money.new(n)` is n major units, so
      1.00 is 100 subunits. */
  lemma NegationTable(c: Currency)
    ensures Negate(Money(0, c, Plain)) == Money(0, c, Plain)
    ensures Negate(Money(100, c, Plain)) == Money(-100, c, Plain)
    ensures Negate(Money(-100, c, Plain)) == Money(100, c, Plain)
    ensures Negate(Money(100000, c, 7)).kind == 7
  {
  }

  /** `==` and `eql?` on 100 USD (10000 subunits) against 100 EUR, 200 USD
      and 9900 EUR, zero in two currencies, a subclass instance and values
      that are not Money. */
  lemma EqualityTable()
    ensures Equal(Money(10000, Usd, Plain), OfMoney(Money(10000, Usd, Plain)))
    ensures !Equal(Money(10000, Usd, Plain), OfMoney(Money(10000, Eur, Plain)))
    ensures !Equal(Money(10000, Usd, Plain), OfMoney(Money(20000, Usd, Plain)))
    ensures !Equal(Money(10000, Usd, Plain), OfMoney(Money(990000, Eur, Plain)))
    ensures Equal(Money(0, Usd, Plain), OfMoney(Money(0, Eur, Plain)))
    ensures Equal(Money(10000, Usd, Plain), OfMoney(Money(10000, Usd, 3)))
    ensures Equal(Money(25000, Usd, Plain), OfMoney(Money(25000, Usd, 3)))
    ensures !Equal(Money(25000, Usd, Plain), OfMoney(Money(30000, Usd, 3)))
    ensures !Equal(Money(0, Usd, Plain), OfNumber(0.0)) && !Equal(Money(100, Usd, Plain), OfNumber(100.0))
    ensures !Equal(Money(10000, Usd, Plain), Other)
    ensures Eql(Money(10000, Usd, Plain), OfMoney(Money(10000, Usd, Plain)))
    ensures !Eql(Money(10000, Usd, Plain), OfMoney(Money(10000, Eur, Plain)))
    ensures !Eql(Money(10000, Usd, Plain), OfMoney(Money(20000, Usd, Plain)))
    ensures !Eql(Money(10000, Usd, Plain), OfMoney(Money(990000, Eur, Plain)))
    ensures Eql(Money(25000, Usd, Plain), OfMoney(Money(25000, Usd, 3)))
    ensures !Eql(Money(10000, Usd, Plain), Other)
    ensures !Eql(Money(0, Usd, Plain), OfMoney(Money(0, Eur, Plain)))
  {
  }

  /** `<=>` on 100 USD against 100, 0.99 and 200 USD; 10000 USD against
      20000 EUR when the stubbed exchange answers 30000, 10000 or 9900 USD,
      or fails; and against values that are not Money. */
  lemma ComparisonTable()
    ensures Compare(Money(10000, Usd, Plain), OfMoney(Money(10000, Usd, Plain)), Ctx(NoRates(), HalfEven)) == Ok(Some(0))
    ensures Compare(Money(10000, Usd, Plain), OfMoney(Money(9900, Usd, Plain)), Ctx(NoRates(), HalfEven)) == Ok(Some(1))
    ensures Compare(Money(10000, Usd, Plain), OfMoney(Money(20000, Usd, Plain)), Ctx(NoRates(), HalfEven)) == Ok(Some(-1))
    ensures Compare(Money(1000000, Usd, Plain), OfMoney(Money(2000000, Eur, Plain)),
                    Ctx(Answer(Money(3000000, Usd, Plain)), HalfEven)) == Ok(Some(-1))
    ensures Compare(Money(1000000, Usd, Plain), OfMoney(Money(2000000, Eur, Plain)),
                    Ctx(Answer(Money(1000000, Usd, Plain)), HalfEven)) == Ok(Some(0))
    ensures Compare(Money(1000000, Usd, Plain), OfMoney(Money(2000000, Eur, Plain)),
                    Ctx(Answer(Money(990000, Usd, Plain)), HalfEven)) == Ok(Some(1))
    ensures Compare(Money(1000000, Usd, Plain), OfMoney(Money(2000000, Eur, Plain)), Ctx(NoRates(), HalfEven))
         == Ok(None)
    ensures Compare(Money(100, Usd, Plain), OfNumber(1.0), Ctx(NoRates(), HalfEven)) == Ok(None)
    ensures Compare(Money(100, Usd, Plain), Other, Ctx(NoRates(), HalfEven)) == Ok(None)
  {
  }

  /** 1000 USD plus and minus 90 USD, and plus and minus 90 EUR when the
      stubbed exchange answers 900 USD; numbers are refused. */
  lemma AdditionTable()
    ensures Add(Money(100000, Usd, Plain), OfMoney(Money(9000, Usd, Plain)), Ctx(NoRates(), HalfEven))
         == Ok(Money(109000, Usd, Plain))
    ensures Add(Money(100000, Usd, Plain), OfMoney(Money(9000, Eur, Plain)),
                Ctx(Answer(Money(90000, Usd, Plain)), HalfEven))
         == Ok(Money(190000, Usd, Plain))
    ensures Sub(Money(100000, Usd, Plain), OfMoney(Money(9000, Usd, Plain)), Ctx(NoRates(), HalfEven))
         == Ok(Money(91000, Usd, Plain))
    ensures Sub(Money(100000, Usd, Plain), OfMoney(Money(9000, Eur, Plain)),
                Ctx(Answer(Money(90000, Usd, Plain)), HalfEven))
         == Ok(Money(10000, Usd, Plain))
    ensures Add(Money(100, Usd, Plain), OfNumber(0.0), Ctx(NoRates(), HalfEven)) == Err(TypeError)
    ensures Add(Money(100, Usd, Plain), OfNumber(1.0), Ctx(NoRates(), HalfEven)) == Err(TypeError)
    ensures Sub(Money(100, Usd, Plain), OfNumber(1.0), Ctx(NoRates(), HalfEven)) == Err(TypeError)
  {
  }

  /** 10 USD times 4 and -4, and -10 USD times 4 and -4; Money and other
      values as factors are refused. */
  lemma MultiplicationTable()
    ensures Mul(Money(1000, Usd, Plain), OfNumber(4.0), Ctx(NoRates(), HalfEven)) == Ok(Money(4000, Usd, Plain))
    ensures Mul(Money(1000, Usd, Plain), OfNumber(-4.0), Ctx(NoRates(), HalfEven)) == Ok(Money(-4000, Usd, Plain))
    ensures Mul(Money(-1000, Usd, Plain), OfNumber(4.0), Ctx(NoRates(), HalfEven)) == Ok(Money(-4000, Usd, Plain))
    ensures Mul(Money(-1000, Usd, Plain), OfNumber(-4.0), Ctx(NoRates(), HalfEven)) == Ok(Money(4000, Usd, Plain))
    ensures Mul(Money(1000, Usd, Plain), OfMoney(Money(400, Usd, Plain)), Ctx(NoRates(), HalfEven)) == Err(TypeError)
    ensures Mul(Money(1000, Usd, Plain), OfMoney(Money(400, Eur, Plain)), Ctx(NoRates(), HalfEven)) == Err(TypeError)
    ensures Mul(Money(1000, Usd, Plain), Other, Ctx(NoRates(), HalfEven)) == Err(TypeError)
  {
    MulByInteger(Money(1000, Usd, Plain), 4, Ctx(NoRates(), HalfEven));
    MulByInteger(Money(1000, Usd, Plain), -4, Ctx(NoRates(), HalfEven));
    MulByInteger(Money(-1000, Usd, Plain), 4, Ctx(NoRates(), HalfEven));
    MulByInteger(Money(-1000, Usd, Plain), -4, Ctx(NoRates(), HalfEven));
  }

  /** 0.13 / 4 under the default mode, and the four rounding preferences
      applied to 0.10 divided by 3, 6 and 4. */
  lemma DivisionTable(c: Currency)
    ensures Quo(Money(13, c, Plain), OfNumber(4.0), Ctx(NoRates(), HalfEven)) == Ok(MoneyQuotient(Money(3, c, Plain)))
    ensures Quo(Money(13, c, Plain), OfNumber(-4.0), Ctx(NoRates(), HalfEven)) == Ok(MoneyQuotient(Money(-3, c, Plain)))
    ensures Quo(Money(-13, c, Plain), OfNumber(4.0), Ctx(NoRates(), HalfEven)) == Ok(MoneyQuotient(Money(-3, c, Plain)))
    ensures Quo(Money(-13, c, Plain), OfNumber(-4.0), Ctx(NoRates(), HalfEven)) == Ok(MoneyQuotient(Money(3, c, Plain)))
    ensures Quo(Money(10, c, Plain), OfNumber(3.0), Ctx(NoRates(), Ceiling)) == Ok(MoneyQuotient(Money(4, c, Plain)))
    ensures Quo(Money(10, c, Plain), OfNumber(6.0), Ctx(NoRates(), Floor)) == Ok(MoneyQuotient(Money(1, c, Plain)))
    ensures Quo(Money(10, c, Plain), OfNumber(4.0), Ctx(NoRates(), HalfUp)) == Ok(MoneyQuotient(Money(3, c, Plain)))
    ensures Quo(Money(10, c, Plain), OfNumber(4.0), Ctx(NoRates(), HalfDown)) == Ok(MoneyQuotient(Money(2, c, Plain)))
  {
    RoundingIsUnique(13.0 / 4.0, HalfEven, RoundToInt(13.0 / 4.0, HalfEven), 3);
    RoundingIsUnique(13.0 / -4.0, HalfEven, RoundToInt(13.0 / -4.0, HalfEven), -3);
    RoundingIsUnique(-13.0 / 4.0, HalfEven, RoundToInt(-13.0 / 4.0, HalfEven), -3);
    RoundingIsUnique(-13.0 / -4.0, HalfEven, RoundToInt(-13.0 / -4.0, HalfEven), 3);
    RoundingIsUnique(10.0 / 3.0, Ceiling, RoundToInt(10.0 / 3.0, Ceiling), 4);
    RoundingIsUnique(10.0 / 6.0, Floor, RoundToInt(10.0 / 6.0, Floor), 1);
    RoundingIsUnique(10.0 / 4.0, HalfUp, RoundToInt(10.0 / 4.0, HalfUp), 3);
    RoundingIsUnique(10.0 / 4.0, HalfDown, RoundToInt(10.0 / 4.0, HalfDown), 2);
  }

  /** 13 / 4 and 13 / -4 as ratios, and 13 USD / 4 EUR when 4 EUR is worth
      8 USD. */
  lemma RatioTable()
    ensures Quo(Money(1300, Usd, Plain), OfMoney(Money(400, Usd, Plain)), Ctx(NoRates(), HalfEven)) == Ok(Ratio(3.25))
    ensures Quo(Money(1300, Usd, Plain), OfMoney(Money(-400, Usd, Plain)), Ctx(NoRates(), HalfEven)) == Ok(Ratio(-3.25))
    ensures Quo(Money(1300, Usd, Plain), OfMoney(Money(400, Eur, Plain)), Ctx(Doubling(), HalfEven)) == Ok(Ratio(1.625))
  {
  }

  /** Floored divmod by a number works on subunits: 0.13 USD by 4 and -4,
      and -0.13 USD by 4 and -4. */
  lemma DivModTable()
    ensures DivMod(Money(13, Usd, Plain), OfNumber(4.0), Ctx(NoRates(), HalfEven))
         == Ok(ByNumber(Money(3, Usd, Plain), Money(1, Usd, Plain)))
    ensures DivMod(Money(13, Usd, Plain), OfNumber(-4.0), Ctx(NoRates(), HalfEven))
         == Ok(ByNumber(Money(-4, Usd, Plain), Money(-3, Usd, Plain)))
    ensures DivMod(Money(-13, Usd, Plain), OfNumber(4.0), Ctx(NoRates(), HalfEven))
         == Ok(ByNumber(Money(-4, Usd, Plain), Money(3, Usd, Plain)))
    ensures DivMod(Money(-13, Usd, Plain), OfNumber(-4.0), Ctx(NoRates(), HalfEven))
         == Ok(ByNumber(Money(3, Usd, Plain), Money(-1, Usd, Plain)))
  {
    RoundingKeepsIntegers(1.0, HalfEven);
    RoundingKeepsIntegers(-3.0, HalfEven);
    RoundingKeepsIntegers(3.0, HalfEven);
    RoundingKeepsIntegers(-1.0, HalfEven);
  }

  /** Floored divmod by Money in the same currency: 13 USD by 4 and -4 USD,
      and -13 USD by 4 and -4 USD. */
  lemma DivModByMoneyTable()
    ensures DivMod(Money(1300, Usd, Plain), OfMoney(Money(400, Usd, Plain)), Ctx(NoRates(), HalfEven))
         == Ok(ByMoney(3, Money(100, Usd, Plain)))
    ensures DivMod(Money(1300, Usd, Plain), OfMoney(Money(-400, Usd, Plain)), Ctx(NoRates(), HalfEven))
         == Ok(ByMoney(-4, Money(-300, Usd, Plain)))
    ensures DivMod(Money(-1300, Usd, Plain), OfMoney(Money(400, Usd, Plain)), Ctx(NoRates(), HalfEven))
         == Ok(ByMoney(-4, Money(300, Usd, Plain)))
    ensures DivMod(Money(-1300, Usd, Plain), OfMoney(Money(-400, Usd, Plain)), Ctx(NoRates(), HalfEven))
         == Ok(ByMoney(3, Money(-100, Usd, Plain)))
  {
  }

  /** Floored divmod by Money in another currency, with the stub that
      doubles the divisor: 13 USD by 4 and -4 EUR, and -13 USD by 4 and
      -4 EUR. */
  lemma DivModByOtherMoneyTable()
    ensures DivMod(Money(1300, Usd, Plain), OfMoney(Money(400, Eur, Plain)), Ctx(Doubling(), HalfEven))
         == Ok(ByMoney(1, Money(500, Usd, Plain)))
    ensures DivMod(Money(1300, Usd, Plain), OfMoney(Money(-400, Eur, Plain)), Ctx(Doubling(), HalfEven))
         == Ok(ByMoney(-2, Money(-300, Usd, Plain)))
    ensures DivMod(Money(-1300, Usd, Plain), OfMoney(Money(400, Eur, Plain)), Ctx(Doubling(), HalfEven))
         == Ok(ByMoney(-2, Money(300, Usd, Plain)))
    ensures DivMod(Money(-1300, Usd, Plain), OfMoney(Money(-400, Eur, Plain)), Ctx(Doubling(), HalfEven))
         == Ok(ByMoney(1, Money(-500, Usd, Plain)))
  {
  }

  /** `modulo` by a number works on major units and takes the divisor's
      sign. */
  lemma ModuloTable(c: Currency)
    requires c.decimalPlaces == 2
    ensures Modulo(Money(1300, c, Plain), OfNumber(4.0), Ctx(NoRates(), HalfEven)) == Ok(Money(100, c, Plain))
    ensures Modulo(Money(1300, c, Plain), OfNumber(-4.0), Ctx(NoRates(), HalfEven)) == Ok(Money(-300, c, Plain))
    ensures Modulo(Money(-1300, c, Plain), OfNumber(4.0), Ctx(NoRates(), HalfEven)) == Ok(Money(300, c, Plain))
    ensures Modulo(Money(-1300, c, Plain), OfNumber(-4.0), Ctx(NoRates(), HalfEven)) == Ok(Money(-100, c, Plain))
  {
    UnfoldInSubunits(4.0, c);
    UnfoldInSubunits(-4.0, c);
    assert FloorDivMod(1300.0, 400.0) == (3, 100.0);
    assert FloorDivMod(1300.0, -400.0) == (-4, -300.0);
    assert FloorDivMod(-1300.0, 400.0) == (-4, 300.0);
    assert FloorDivMod(-1300.0, -400.0) == (3, -100.0);
    RoundingKeepsIntegers(100.0, HalfEven);
    RoundingKeepsIntegers(-300.0, HalfEven);
    RoundingKeepsIntegers(300.0, HalfEven);
    RoundingKeepsIntegers(-100.0, HalfEven);
  }

  /** `modulo` by Money takes the rest of `divmod`: 13 and -13 USD by 4 and
      -4 USD, and by 4 and -4 EUR with the stub that doubles the divisor. */
  lemma ModuloByMoneyTable()
    ensures Modulo(Money(1300, Usd, Plain), OfMoney(Money(400, Usd, Plain)), Ctx(NoRates(), HalfEven))
         == Ok(Money(100, Usd, Plain))
    ensures Modulo(Money(1300, Usd, Plain), OfMoney(Money(-400, Usd, Plain)), Ctx(NoRates(), HalfEven))
         == Ok(Money(-300, Usd, Plain))
    ensures Modulo(Money(-1300, Usd, Plain), OfMoney(Money(400, Usd, Plain)), Ctx(NoRates(), HalfEven))
         == Ok(Money(300, Usd, Plain))
    ensures Modulo(Money(-1300, Usd, Plain), OfMoney(Money(-400, Usd, Plain)), Ctx(NoRates(), HalfEven))
         == Ok(Money(-100, Usd, Plain))
    ensures Modulo(Money(1300, Usd, Plain), OfMoney(Money(400, Eur, Plain)), Ctx(Doubling(), HalfEven))
         == Ok(Money(500, Usd, Plain))
    ensures Modulo(Money(1300, Usd, Plain), OfMoney(Money(-400, Eur, Plain)), Ctx(Doubling(), HalfEven))
         == Ok(Money(-300, Usd, Plain))
    ensures Modulo(Money(-1300, Usd, Plain), OfMoney(Money(400, Eur, Plain)), Ctx(Doubling(), HalfEven))
         == Ok(Money(300, Usd, Plain))
    ensures Modulo(Money(-1300, Usd, Plain), OfMoney(Money(-400, Eur, Plain)), Ctx(Doubling(), HalfEven))
         == Ok(Money(-500, Usd, Plain))
  {
    DivModByMoneyTable();
    DivModByOtherMoneyTable();
  }

  /** `remainder` follows the dividend's sign: 13 and -13 USD by 4 and -4. */
  lemma RemainderTable(c: Currency)
    requires c.decimalPlaces == 2
    ensures Remainder(Money(1300, c, Plain), OfNumber(4.0), Ctx(NoRates(), HalfEven)) == Ok(Money(100, c, Plain))
    ensures Remainder(Money(1300, c, Plain), OfNumber(-4.0), Ctx(NoRates(), HalfEven)) == Ok(Money(100, c, Plain))
    ensures Remainder(Money(-1300, c, Plain), OfNumber(4.0), Ctx(NoRates(), HalfEven)) == Ok(Money(-100, c, Plain))
    ensures Remainder(Money(-1300, c, Plain), OfNumber(-4.0), Ctx(NoRates(), HalfEven)) == Ok(Money(-100, c, Plain))
  {
    UnfoldInSubunits(-4.0, c);
    UnfoldInSubunits(4.0, c);
    assert TruncDivMod(1300.0, 400.0) == (3, 100.0);
    assert TruncDivMod(1300.0, -400.0) == (-3, 100.0);
    assert TruncDivMod(-1300.0, 400.0) == (-3, -100.0);
    assert TruncDivMod(-1300.0, -400.0) == (3, -100.0);
    RoundingKeepsIntegers(100.0, HalfEven);
    RoundingKeepsIntegers(-100.0, HalfEven);
  }

  /** The rest of `divmod` by a number and `modulo` by the same number
      differ: 0.13 USD divmod 4 leaves 0.01 USD, 0.13 USD modulo 4 is
      0.13 USD. */
  lemma ModuloIsNotDivModRest(c: Currency)
    requires c.decimalPlaces == 2
    ensures DivMod(Money(13, c, Plain), OfNumber(4.0), Ctx(NoRates(), HalfEven)).value.rest == Money(1, c, Plain)
    ensures Modulo(Money(13, c, Plain), OfNumber(4.0), Ctx(NoRates(), HalfEven)) == Ok(Money(13, c, Plain))
  {
    UnfoldInSubunits(4.0, c);
    assert FloorDivMod(13.0, 4.0) == (3, 1.0);
    assert FloorDivMod(13.0, 400.0) == (0, 13.0);
    RoundingKeepsIntegers(1.0, HalfEven);
    RoundingKeepsIntegers(13.0, HalfEven);
  }

  /** positive? and negative? on 1, 0 and -1 USD (100, 0 and -100
      subunits). */
  lemma PredicateTable()
    ensures IsPositive(Money(100, Usd, Plain)) && !IsPositive(Money(0, Usd, Plain)) && !IsPositive(Money(-100, Usd, Plain))
    ensures IsNegative(Money(-100, Usd, Plain)) && !IsNegative(Money(0, Usd, Plain)) && !IsNegative(Money(100, Usd, Plain))
    ensures NonZero(Money(0, Usd, Plain)) == None && NonZero(Money(100, Usd, Plain)) == Some(Money(100, Usd, Plain))
    ensures Abs(Money(-100, Usd, Plain)) == Money(100, Usd, Plain)
  {
  }

  lemma SameCurrencyTable()
    ensures SameCurrency(Sample(), "usd", "USD") == Ok(true)
  {
    assert Wrap(Sample(), "usd") == Ok(Usd);
    assert Wrap(Sample(), "USD") == Ok(Usd);
  }

  lemma DifferentCurrencyTable()
    ensures SameCurrency(Sample(), "usd", "EUR") == Ok(false)
  {
    assert Wrap(Sample(), "usd") == Ok(Usd);
    assert Wrap(Sample(), "EUR") == Ok(Eur);
  }

  /** The setting of the exchange examples: `usd` and `eur` are two
      different currencies of two decimal places, and `target` names `eur`
      in `dir`. The sample directory is one such setting (SampleSetting). */
  predicate Setting(dir: Directory, usd: Currency, eur: Currency, target: string) {
    Wrap(dir, target) == Ok(eur) && usd != eur && usd.decimalPlaces == 2 && eur.decimalPlaces == 2
  }

  lemma SampleSetting()
    ensures Setting(Sample(), Usd, Eur, "EUR")
  {
    assert Wrap(Sample(), "EUR") == Ok(Eur);
  }

  /** A bank holding one rate, `usd` to `eur`. */
  function Rates(usd: Currency, eur: Currency, rate: real): Table {
    map[(usd.code, eur.code) := rate]
  }

  /** With no rounding method the exchanged Money is the exact product,
      rounded once by the constructor. */
  lemma Unrounded(dir: Directory, usd: Currency, eur: Currency, target: string, rate: real, n: int, kind: Kind)
    requires Setting(dir, usd, eur, target)
    ensures Exchange(Rates(usd, eur, rate), dir, None, Money(n, usd, kind), target, None, None, HalfEven)
         == Ok(Money(RoundToInt(n as real * rate, HalfEven), eur, kind))
  {
    CentsOfConverted(usd, eur, rate, n, kind);
    FromAmountCount(Converted(Money(n, usd, kind), rate), eur, kind, HalfEven);
  }

  /** A mode, per call, rounds the product once, to the target's subunits. */
  lemma Rounded(dir: Directory, usd: Currency, eur: Currency, target: string, rate: real, n: int,
                stored: Option<Rounder>, m: RoundingMode)
    requires Setting(dir, usd, eur, target)
    ensures Exchange(Rates(usd, eur, rate), dir, stored, Money(n, usd, Plain), target, Some(m), None, HalfEven)
         == Ok(Money(RoundToInt(n as real * rate, m), eur, Plain))
  {
    var from := Money(n, usd, Plain);
    CentsOfConverted(usd, eur, rate, n, Plain);
    ExchangeRoundsOnce(Rates(usd, eur, rate), dir, stored, from, target, m, HalfEven);
  }

  lemma CentsOfConverted(usd: Currency, eur: Currency, rate: real, n: int, kind: Kind)
    requires usd.decimalPlaces == 2 && eur.decimalPlaces == 2
    ensures InSubunits(Converted(Money(n, usd, kind), rate), eur) == n as real * rate
  {
    var v := Converted(Money(n, usd, kind), rate);
    assert Scale(2) == 100.0;
    assert v == n as real / 100.0 * rate;
    UnfoldInSubunits(v, eur);
  }

  /** 100 USD at 1.33 is 133 EUR, for Money and for a subclass alike. */
  lemma ExchangeTable(dir: Directory, usd: Currency, eur: Currency, target: string, kind: Kind)
    requires Setting(dir, usd, eur, target)
    ensures Exchange(Rates(usd, eur, 1.33), dir, None, Money(10000, usd, kind), target, None, None, HalfEven)
         == Ok(Money(13300, eur, kind))
  {
    Unrounded(dir, usd, eur, target, 1.33, 10000, kind);
    RoundingKeepsIntegers(13300.0, HalfEven);
  }

  /** 0.10 USD at 1.33 is 0.133 EUR, which the default mode makes 0.13 EUR. */
  lemma DefaultModeTable(dir: Directory, usd: Currency, eur: Currency, target: string)
    requires Setting(dir, usd, eur, target)
    ensures Exchange(Rates(usd, eur, 1.33), dir, None, Money(10, usd, Plain), target, None, None, HalfEven)
         == Ok(Money(13, eur, Plain))
  {
    Unrounded(dir, usd, eur, target, 1.33, 10, Plain);
    RoundingIsUnique(13.3, HalfEven, RoundToInt(13.3, HalfEven), 13);
  }

  /** ... and :ceil makes it 0.14 EUR. */
  lemma CeilingModeTable(dir: Directory, usd: Currency, eur: Currency, target: string)
    requires Setting(dir, usd, eur, target)
    ensures Exchange(Rates(usd, eur, 1.33), dir, None, Money(10, usd, Plain), target, Some(Ceiling), None, HalfEven)
         == Ok(Money(14, eur, Plain))
  {
    Rounded(dir, usd, eur, target, 1.33, 10, None, Ceiling);
    RoundingIsUnique(13.3, Ceiling, RoundToInt(13.3, Ceiling), 14);
  }

  /** Large amounts are exact: 10^20 USD is 1.33 * 10^20 EUR. */
  lemma LargeExchangeTable(dir: Directory, usd: Currency, eur: Currency, target: string)
    requires Setting(dir, usd, eur, target)
    ensures Exchange(Rates(usd, eur, 1.33), dir, None, Money(10000000000000000000000, usd, Plain), target, None, None, HalfEven)
         == Ok(Money(13300000000000000000000, eur, Plain))
  {
    Unrounded(dir, usd, eur, target, 1.33, 10000000000000000000000, Plain);
    RoundingKeepsIntegers(13300000000000000000000.0, HalfEven);
  }

  /** 100_000_000_000_000.01 USD is 133_000_000_000_000.01 EUR. */
  lemma PrecisionTable(dir: Directory, usd: Currency, eur: Currency, target: string)
    requires Setting(dir, usd, eur, target)
    ensures Exchange(Rates(usd, eur, 1.33), dir, None, Money(10000000000000001, usd, Plain), target, None, None, HalfEven)
         == Ok(Money(13300000000000001, eur, Plain))
  {
    Unrounded(dir, usd, eur, target, 1.33, 10000000000000001, Plain);
    RoundingIsUnique(13300000000000001.33, HalfEven, RoundToInt(13300000000000001.33, HalfEven), 13300000000000001);
  }

  /** The ceiling block of the exchange examples. */
  function CeilingBlock(): Block {
    (n: real, c: Currency) => RoundAt(n, c.decimalPlaces, Ceiling)
  }

  /** A stored rounding method rounds the product to the target's
      subunits. */
  lemma StoredRounding(dir: Directory, usd: Currency, eur: Currency, target: string, rate: real, n: int,
                       stored: Rounder, m: RoundingMode)
    requires Setting(dir, usd, eur, target)
    requires stored == ByMode(m) || (stored == ByBlock(CeilingBlock()) && m == Ceiling)
    ensures Exchange(Rates(usd, eur, rate), dir, Some(stored), Money(n, usd, Plain), target, None, None, HalfEven)
         == Ok(Money(RoundToInt(n as real * rate, m), eur, Plain))
  {
    var from := Money(n, usd, Plain);
    var v := Converted(from, rate);
    assert Round(v, eur, None, None, Some(stored)) == RoundAt(v, 2, m);
    FromRoundedAmount(v, eur, Plain, m, HalfEven);
    CentsOfConverted(usd, eur, rate, n, Plain);
  }

  /** At 1.335, 0.10 USD is 0.1335 EUR: 0.14 under a stored :ceil block. */
  lemma StoredBlockTable(dir: Directory, usd: Currency, eur: Currency, target: string)
    requires Setting(dir, usd, eur, target)
    ensures Exchange(Rates(usd, eur, 1.335), dir, Some(ByBlock(CeilingBlock())), Money(10, usd, Plain), target, None, None, HalfEven)
         == Ok(Money(14, eur, Plain))
  {
    StoredRounding(dir, usd, eur, target, 1.335, 10, ByBlock(CeilingBlock()), Ceiling);
    RoundingIsUnique(13.35, Ceiling, RoundToInt(13.35, Ceiling), 14);
  }

  /** A per-call :floor overrides the stored block: 0.13 EUR. */
  lemma PerCallModeTable(dir: Directory, usd: Currency, eur: Currency, target: string)
    requires Setting(dir, usd, eur, target)
    ensures Exchange(Rates(usd, eur, 1.335), dir, Some(ByBlock(CeilingBlock())), Money(10, usd, Plain), target, Some(Floor), None, HalfEven)
         == Ok(Money(13, eur, Plain))
  {
    Rounded(dir, usd, eur, target, 1.335, 10, Some(ByBlock(CeilingBlock())), Floor);
    RoundingIsUnique(13.35, Floor, RoundToInt(13.35, Floor), 13);
  }

  /** A block that rounds up and then adds one subunit. */
  function PlusSubunitBlock(): Block {
    (n: real, c: Currency) => RoundAt(n, c.decimalPlaces, Ceiling) + 1.0 / Scale(c.decimalPlaces)
  }

  /** A per-call block overrides the stored one and its answer is taken as
      it is: 0.1335 EUR rounded up plus one cent is 0.15 EUR. */
  lemma PerCallBlockTable(dir: Directory, usd: Currency, eur: Currency, target: string)
    requires Setting(dir, usd, eur, target)
    ensures Exchange(Rates(usd, eur, 1.335), dir, Some(ByBlock(CeilingBlock())), Money(10, usd, Plain), target, None,
                     Some(PlusSubunitBlock()), HalfEven)
         == Ok(Money(15, eur, Plain))
  {
    var v := Converted(Money(10, usd, Plain), 1.335);
    var up := RoundAt(v, 2, Ceiling);
    var w := up + 1.0 / Scale(2);
    CentsOfConverted(usd, eur, 1.335, 10, Plain);
    RoundAtInSubunits(v, eur, Ceiling);
    RoundingIsUnique(13.35, Ceiling, RoundToInt(13.35, Ceiling), 14);
    assert InSubunits(up, eur) == 14.0;
    UnfoldInSubunits(up, eur);
    UnfoldInSubunits(w, eur);
    assert Scale(2) == 100.0;
    assert InSubunits(w, eur) == 15.0;
    assert Round(v, eur, None, Some(PlusSubunitBlock()), Some(ByBlock(CeilingBlock()))) == w;
    FromAmountCount(w, eur, Plain, HalfEven);
    RoundingKeepsIntegers(15.0, HalfEven);
  }

  /** A stored :half_down mode rounds 0.1335 EUR to 0.13 EUR. */
  lemma StoredModeTable(dir: Directory, usd: Currency, eur: Currency, target: string)
    requires Setting(dir, usd, eur, target)
    ensures Exchange(Rates(usd, eur, 1.335), dir, Some(ByMode(HalfDown)), Money(10, usd, Plain), target, None, None, HalfEven)
         == Ok(Money(13, eur, Plain))
  {
    StoredRounding(dir, usd, eur, target, 1.335, 10, ByMode(HalfDown), HalfDown);
    RoundingIsUnique(13.35, HalfDown, RoundToInt(13.35, HalfDown), 13);
  }

  /** An unknown target fails with UnknownCurrency; a known one the bank
      holds no rate for fails with UnknownRate. */
  lemma ExchangeErrorTable(dir: Directory, usd: Currency, eur: Currency, target: string, unknown: string, other: string)
    requires Setting(dir, usd, eur, target)
    requires Upcase(unknown) !in dir
    requires Wrap(dir, other).Ok? && Wrap(dir, other).value != usd && Wrap(dir, other).value.code != eur.code
    ensures Exchange(Rates(usd, eur, 1.33), dir, None, Money(10000, usd, Plain), unknown, None, None, HalfEven)
         == Err(UnknownCurrency)
    ensures Exchange(Rates(usd, eur, 1.33), dir, None, Money(10000, usd, Plain), other, None, None, HalfEven)
         == Err(UnknownRate)
  {
  }

  /** Rates set as "usd"/"eur" are read back as "USD"/"EUR"; the table
      exports as two "FROM_TO_TO" keys and imports back. */
  lemma RateTable()
    ensures Store(map[], Sample(), "usd", "eur", 1.0) == Ok(map[("USD", "EUR") := 1.0])
  {
    assert Wrap(Sample(), "usd") == Ok(Usd);
    assert Wrap(Sample(), "eur") == Ok(Eur);
  }

  lemma GetRateTable()
    ensures Lookup(map[("USD", "EUR") := 1.0], Sample(), "usd", "EUR") == Ok(Some(1.0))
  {
    assert Wrap(Sample(), "usd") == Ok(Usd);
    assert Wrap(Sample(), "EUR") == Ok(Eur);
  }

  lemma ExportKeysOfTwo(p: Pair, q: Pair, a: real, b: real)
    requires IsCode(p.0) && IsCode(p.1) && IsCode(q.0) && IsCode(q.1)
    ensures forall k :: k in Export(map[p := a, q := b]) ==> k == Key(p) || k == Key(q)
  {
    var e := Export(map[p := a, q := b]);
    forall k | k in e ensures k == Key(p) || k == Key(q) {
      var r :| r in map[p := a, q := b] && Key(r) == k;
    }
  }

  /** A two-pair table exports to the two keys and nothing else. */
  lemma ExportOfTwo(p: Pair, q: Pair, a: real, b: real)
    requires p != q
    requires IsCode(p.0) && IsCode(p.1) && IsCode(q.0) && IsCode(q.1)
    ensures Export(map[p := a, q := b]) == map[Key(p) := a, Key(q) := b]
  {
    ExportKeysOfTwo(p, q, a, b);
    KeyIsInjective(p, q);
    var e := Export(map[p := a, q := b]);
    var w := map[Key(p) := a, Key(q) := b];
    assert forall k :: k in e <==> k in w;
    assert forall k :: k in e ==> e[k] == w[k];
  }

  lemma KeyTable()
    ensures Key(("USD", "EUR")) == "USD_TO_EUR" && Key(("USD", "JPY")) == "USD_TO_JPY"
  {
  }

  lemma ExportTable()
    ensures Export(map[("USD", "EUR") := 1.25, ("USD", "JPY") := 2.55])
         == map["USD_TO_EUR" := 1.25, "USD_TO_JPY" := 2.55]
  {
    CapitalsAreCode("USD");
    CapitalsAreCode("EUR");
    CapitalsAreCode("JPY");
    ExportOfTwo(("USD", "EUR"), ("USD", "JPY"), 1.25, 2.55);
    KeyTable();
  }

  /** Importing the two keys of a two-pair table into an empty bank gives
      the table back. */
  lemma ImportOfTwo(p: Pair, q: Pair, a: real, b: real)
    requires IsCode(p.0) && IsCode(p.1) && IsCode(q.0) && IsCode(q.1)
    ensures ImportEntries(map[], [(Key(p), a), (Key(q), b)]) == Some(map[p := a, q := b])
  {
    ParseKeyOfKey(p);
    ParseKeyOfKey(q);
    var data := [(Key(p), a), (Key(q), b)];
    assert data[1..] == [(Key(q), b)];
    assert ImportEntries(map[p := a], [(Key(q), b)]) == ImportEntries(map[p := a, q := b], []);
    assert ImportEntries(map[], data) == ImportEntries(map[p := a], [(Key(q), b)]);
  }

  lemma ImportTable()
    ensures ImportEntries(map[], [("USD_TO_EUR", 1.25), ("USD_TO_JPY", 2.55)])
         == Some(map[("USD", "EUR") := 1.25, ("USD", "JPY") := 2.55])
  {
    CapitalsAreCode("USD");
    CapitalsAreCode("EUR");
    CapitalsAreCode("JPY");
    KeyTable();
    ImportOfTwo(("USD", "EUR"), ("USD", "JPY"), 1.25, 2.55);
  }
}
