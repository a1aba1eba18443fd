/** The Money value type and its arithmetic. A Money is an immutable amount,
    held exactly as an integer count of its currency's subunits, with a
    currency and a runtime class tag that every operator carries from the
    receiver to its result. Conversion of the other operand, the
    "conversions disallowed" policy and the configured rounding mode are
    given by a Context instead of process-wide state. */
module MoneyArithmetic {

  import opened Errors
  import opened Rounding
  import opened Division
  import opened Currencies

  /** The runtime class of a Money value: 0 for Money itself, any other
      number for a subclass. */
  type Kind = nat

  datatype Money = Money(fractional: int, currency: Currency, kind: Kind)

  /** `Money#to_d`: the amount in major units. */
  function Amount(m: Money): real {
    m.fractional as real / Scale(m.currency.decimalPlaces)
  }

  /** A number of major units of `currency`, counted in its subunits. */
  function InSubunits(units: real, currency: Currency): (s: real)
    ensures units != 0.0 ==> s != 0.0
    ensures units > 0.0 ==> s > 0.0
  {
    units * Scale(currency.decimalPlaces)
  }

  /** The subunit count of a constructed Money is the mode's rounding of
      the amount in subunits. */
  lemma FromAmountCount(x: real, currency: Currency, kind: Kind, mode: RoundingMode)
    ensures FromAmount(x, currency, kind, mode) == Money(RoundToInt(InSubunits(x, currency), mode), currency, kind)
  {
  }

  /** A value rounded to a currency's places is a whole number of subunits. */
  lemma RoundAtInSubunits(v: real, currency: Currency, m: RoundingMode)
    ensures InSubunits(RoundAt(v, currency.decimalPlaces, m), currency) == RoundToInt(InSubunits(v, currency), m) as real
  {
    var r := RoundAt(v, currency.decimalPlaces, m);
    var n := RoundToInt(v * Scale(currency.decimalPlaces), m);
    assert r * Scale(currency.decimalPlaces) == n as real;
    UnfoldInSubunits(v, currency);
    UnfoldInSubunits(r, currency);
  }

  /** A value already rounded to a currency's places becomes that Money
      exactly, whatever the constructor's own mode. */
  lemma FromRoundedAmount(v: real, currency: Currency, kind: Kind, m: RoundingMode, mode: RoundingMode)
    ensures FromAmount(RoundAt(v, currency.decimalPlaces, m), currency, kind, mode)
         == Money(RoundToInt(InSubunits(v, currency), m), currency, kind)
  {
    FromAmountCount(RoundAt(v, currency.decimalPlaces, m), currency, kind, mode);
    RoundAtInSubunits(v, currency, m);
    RoundingKeepsIntegers(InSubunits(RoundAt(v, currency.decimalPlaces, m), currency), mode);
  }

  lemma UnfoldInSubunits(units: real, currency: Currency)
    ensures InSubunits(units, currency) == units * Scale(currency.decimalPlaces)
  {
  }

  /** Builds a Money from a subunit count that may carry extra digits,
      rounding it under the configured mode, as the constructor does. */
  function FromSubunits(x: real, currency: Currency, kind: Kind, mode: RoundingMode): (m: Money)
    ensures m.currency == currency && m.kind == kind
    ensures IsRounding(x, mode, m.fractional)
    ensures IsIntegral(x) ==> m.fractional as real == x
  {
    KeepsIntegral(x, mode);
    Money(RoundToInt(x, mode), currency, kind)
  }

  lemma KeepsIntegral(x: real, mode: RoundingMode)
    ensures IsIntegral(x) ==> RoundToInt(x, mode) as real == x
  {
    if IsIntegral(x) {
      RoundingKeepsIntegers(x, mode);
    }
  }

  /** `Money.new(amount, currency)`: an amount in major units, rounded to
      the currency's decimal places. */
  function FromAmount(amount: real, currency: Currency, kind: Kind, mode: RoundingMode): (m: Money)
    ensures m.currency == currency && m.kind == kind
    ensures IsRounding(InSubunits(amount, currency), mode, m.fractional)
    ensures IsIntegral(InSubunits(amount, currency)) ==> Amount(m) == amount
  {
    var m := FromSubunits(InSubunits(amount, currency), currency, kind, mode);
    AmountOfSubunits(amount, m);
    m
  }

  /** A Money whose subunit count is exactly `amount` in subunits has that
      amount. */
  lemma AmountOfSubunits(amount: real, m: Money)
    ensures m.fractional as real == InSubunits(amount, m.currency) ==> Amount(m) == amount
  {
    if m.fractional as real == InSubunits(amount, m.currency) {
      var scale := Scale(m.currency.decimalPlaces);
      DivideThenScale(m.fractional as real, scale);
      ScaleCancels(Amount(m), amount, scale);
    }
  }

  /** Reading a Money's amount and building it again gives the same Money. */
  lemma FromAmountOfAmount(m: Money, mode: RoundingMode)
    ensures FromAmount(Amount(m), m.currency, m.kind, mode) == m
  {
    var scale := Scale(m.currency.decimalPlaces);
    DivideThenScale(m.fractional as real, scale);
    assert InSubunits(Amount(m), m.currency) == m.fractional as real;
    RoundingKeepsIntegers(m.fractional as real, mode);
  }

  /** How another Money is brought into a given currency: `exchange_to`
      through the default bank. None stands for UnknownRate. */
  type Conversion = (Money, Currency) -> Option<Money>

  /** The process-wide configuration the operators read: the default bank's
      conversion, whether conversions are disallowed, and Money.rounding_mode. */
  datatype Context = Context(convert: Conversion, disallowed: bool, mode: RoundingMode)

  /** The right-hand operand of an operator. */
  datatype Operand = OfMoney(money: Money) | OfNumber(number: real) | Other

  /** `Money#exchange_to`: a Money already in the target currency is kept;
      otherwise the policy either refuses or the conversion is asked. */
  function ExchangeTo(m: Money, target: Currency, ctx: Context): (r: Result<Money>)
    ensures m.currency == target ==> r == Ok(m)
    ensures r.Ok? && m.currency != target ==> !ctx.disallowed && ctx.convert(m, target) == Some(r.value)
    ensures r.Err? ==> m.currency != target
    ensures r.Err? && ctx.disallowed ==> r.error == DifferentCurrency
    ensures r.Err? && !ctx.disallowed ==> r.error == UnknownRate && ctx.convert(m, target).None?
  {
    if m.currency == target then Ok(m)
    else if ctx.disallowed then Err(DifferentCurrency)
    else match ctx.convert(m, target)
      case None => Err(UnknownRate)
      case Some(c) => Ok(c)
  }

  /** `-@`. */
  function Negate(m: Money): (r: Money)
    ensures r.currency == m.currency && r.kind == m.kind
    ensures r.fractional + m.fractional == 0
  {
    m.(fractional := -m.fractional)
  }

  lemma NegateInvolution(m: Money)
    ensures Negate(Negate(m)) == m
    ensures Negate(m).fractional == 0 <==> m.fractional == 0
  {
  }

  /** `abs`: a new value; the receiver, being a value, is untouched. */
  function Abs(m: Money): (r: Money)
    ensures r.currency == m.currency && r.kind == m.kind
    ensures r.fractional >= 0
    ensures r.fractional == m.fractional || r.fractional == -m.fractional
  {
    if m.fractional < 0 then Negate(m) else m
  }

  predicate IsZero(m: Money) {
    m.fractional == 0
  }

  predicate IsPositive(m: Money) {
    m.fractional > 0
  }

  predicate IsNegative(m: Money) {
    m.fractional < 0
  }

  /** `nonzero?`: the receiver itself when it is not zero, nil otherwise. */
  function NonZero(m: Money): (r: Option<Money>)
    ensures r.Some? <==> !IsZero(m)
    ensures r.Some? ==> r.value == m
  {
    if IsZero(m) then None else Some(m)
  }

  /** Exactly one of zero?, positive? and negative? holds, and `abs` and `-@`
      keep zero? unchanged. */
  lemma SignPredicatesPartition(m: Money)
    ensures IsZero(m) || IsPositive(m) || IsNegative(m)
    ensures !(IsZero(m) && IsPositive(m)) && !(IsZero(m) && IsNegative(m)) && !(IsPositive(m) && IsNegative(m))
    ensures IsZero(Abs(m)) == IsZero(m) && IsZero(Negate(m)) == IsZero(m)
    ensures IsPositive(Negate(m)) == IsNegative(m)
  {
  }

  /** `==`: same currency and amount, or both amounts zero whatever the
      currencies; never equal to something that is not Money. */
  predicate Equal(a: Money, other: Operand) {
    && other.OfMoney?
    && ((a.currency == other.money.currency && a.fractional == other.money.fractional)
        || (IsZero(a) && IsZero(other.money)))
  }

  /** `eql?`: same currency and amount, with no exception for zero. */
  predicate Eql(a: Money, other: Operand) {
    other.OfMoney? && a.currency == other.money.currency && a.fractional == other.money.fractional
  }

  /** `==` is an equivalence on Money values, and the class tag plays no part. */
  lemma EqualIsEquivalence(a: Money, b: Money, c: Money, k: Kind)
    ensures Equal(a, OfMoney(a))
    ensures Equal(a, OfMoney(b)) ==> Equal(b, OfMoney(a))
    ensures Equal(a, OfMoney(b)) && Equal(b, OfMoney(c)) ==> Equal(a, OfMoney(c))
    ensures Equal(a, OfMoney(b)) == Equal(a, OfMoney(b.(kind := k)))
  {
  }

  /** `eql?` implies `==`, and the two differ exactly on two zero amounts of
      different currencies. */
  lemma EqlDiffersOnlyAtZero(a: Money, other: Operand)
    ensures Eql(a, other) ==> Equal(a, other)
    ensures Equal(a, other) && !Eql(a, other) <==>
      other.OfMoney? && IsZero(a) && IsZero(other.money) && a.currency != other.money.currency
  {
  }

  function Sign(d: int): (s: int)
    ensures s == -1 <==> d < 0
    ensures s == 0 <==> d == 0
    ensures s == 1 <==> d > 0
  {
    if d < 0 then -1 else if d == 0 then 0 else 1
  }

  /** `<=>`: orders by amount after bringing the other operand into the
      receiver's currency. A non-Money operand and an UnknownRate give nil;
      only the disallowed-conversion error escapes. */
  function Compare(a: Money, other: Operand, ctx: Context): (r: Result<Option<int>>)
    ensures !other.OfMoney? ==> r == Ok(None)
    ensures other.OfMoney? && other.money.currency == a.currency ==>
      r == Ok(Some(Sign(a.fractional - other.money.fractional)))
    ensures r.Err? ==> r.error == DifferentCurrency && ctx.disallowed
    ensures other.OfMoney? && r == Ok(None) ==>
      ExchangeTo(other.money, a.currency, ctx) == Err(UnknownRate)
    ensures r.Ok? && r.value.Some? ==>
      other.OfMoney? && ExchangeTo(other.money, a.currency, ctx).Ok?
      && r.value.value == Sign(a.fractional - ExchangeTo(other.money, a.currency, ctx).value.fractional)
  {
    match other
    case OfMoney(b) =>
      (match ExchangeTo(b, a.currency, ctx)
       case Ok(c) => Ok(Some(Sign(a.fractional - c.fractional)))
       case Err(e) => if e == UnknownRate then Ok(None) else Err(e))
    case _ => Ok(None)
  }

  /** Within one currency `<=>` is antisymmetric and agrees with `==`. */
  lemma CompareSameCurrency(a: Money, b: Money, ctx: Context)
    requires a.currency == b.currency
    ensures Compare(a, OfMoney(b), ctx).Ok? && Compare(b, OfMoney(a), ctx).Ok?
    ensures Compare(a, OfMoney(b), ctx).value.value == -Compare(b, OfMoney(a), ctx).value.value
    ensures Compare(a, OfMoney(b), ctx).value.value == 0 <==> Equal(a, OfMoney(b))
  {
  }

  /** `+` and `-`, defined once for both operators as the source does: only
      Money may be added or subtracted, after conversion. */
  function Combine(a: Money, other: Operand, ctx: Context, subtract: bool): (r: Result<Money>)
    ensures !other.OfMoney? ==> r == Err(TypeError)
    ensures r.Ok? ==> r.value.currency == a.currency && r.value.kind == a.kind
    ensures other.OfMoney? ==> (r.Err? <==> ExchangeTo(other.money, a.currency, ctx).Err?)
    ensures other.OfMoney? && r.Err? ==> r.error == ExchangeTo(other.money, a.currency, ctx).error
    ensures r.Ok? ==>
      && other.OfMoney?
      && r.value.fractional == a.fractional +
           (if subtract then -1 else 1) * ExchangeTo(other.money, a.currency, ctx).value.fractional
  {
    match other
    case OfMoney(b) =>
      (match ExchangeTo(b, a.currency, ctx)
       case Ok(c) =>
         Ok(a.(fractional := if subtract then a.fractional - c.fractional else a.fractional + c.fractional))
       case Err(e) => Err(e))
    case _ => Err(TypeError)
  }

  /** `+`. */
  function Add(a: Money, other: Operand, ctx: Context): (r: Result<Money>)
    ensures !other.OfMoney? ==> r == Err(TypeError)
    ensures other.OfMoney? && other.money.currency == a.currency ==>
      r == Ok(Money(a.fractional + other.money.fractional, a.currency, a.kind))
  {
    Combine(a, other, ctx, false)
  }

  /** `-`. */
  function Sub(a: Money, other: Operand, ctx: Context): (r: Result<Money>)
    ensures !other.OfMoney? ==> r == Err(TypeError)
    ensures other.OfMoney? && other.money.currency == a.currency ==>
      r == Ok(Money(a.fractional - other.money.fractional, a.currency, a.kind))
  {
    Combine(a, other, ctx, true)
  }

  /** Adding then subtracting the same Money of the receiver's currency is
      exact: no rounding drift. */
  lemma SubUndoesAdd(a: Money, b: Money, ctx: Context)
    requires a.currency == b.currency
    ensures Add(a, OfMoney(b), ctx).Ok?
    ensures Sub(Add(a, OfMoney(b), ctx).value, OfMoney(b), ctx) == Ok(a)
  {
  }

  /** A subunit count multiplied by a number. */
  function Times(count: int, x: real): real {
    count as real * x
  }

  /** `*`: only by a number; the product is rounded to subunits. */
  function Mul(a: Money, other: Operand, ctx: Context): (r: Result<Money>)
    ensures !other.OfNumber? ==> r == Err(TypeError)
    ensures other.OfNumber? ==> r.Ok? && r.value.currency == a.currency && r.value.kind == a.kind
    ensures other.OfNumber? ==> IsRounding(Times(a.fractional, other.number), ctx.mode, r.value.fractional)
  {
    match other
    case OfNumber(x) => Ok(FromSubunits(Times(a.fractional, x), a.currency, a.kind, ctx.mode))
    case _ => Err(TypeError)
  }

  /** Multiplying by an integer is exact and follows the usual sign rule. */
  lemma MulByInteger(a: Money, n: int, ctx: Context)
    ensures Mul(a, OfNumber(n as real), ctx) == Ok(Money(a.fractional * n, a.currency, a.kind))
    ensures IsPositive(Mul(a, OfNumber(n as real), ctx).value) <==>
      (IsPositive(a) && n > 0) || (IsNegative(a) && n < 0)
  {
    IntegerProduct(a.fractional, n);
    FromWhole(a.fractional * n, a.currency, a.kind, ctx.mode);
    ProductSign(a.fractional, n);
  }

  lemma IntegerProduct(x: int, y: int)
    ensures Times(x, y as real) == (x * y) as real
  {
  }

  lemma FromWhole(n: int, currency: Currency, kind: Kind, mode: RoundingMode)
    ensures FromSubunits(n as real, currency, kind, mode) == Money(n, currency, kind)
  {
    RoundingKeepsIntegers(n as real, mode);
  }

  lemma ProductSign(x: int, y: int)
    ensures x * y > 0 <==> (x > 0 && y > 0) || (x < 0 && y < 0)
  {
    if x > 0 && y < 0 {
      assert x * y == -(x * -y);
    } else if x < 0 && y > 0 {
      assert x * y == -(-x * y);
    } else if x < 0 && y < 0 {
      assert x * y == -x * -y;
    }
  }

  /** The result of `/`: a Money when dividing by a number, a plain ratio
      when dividing by Money. */
  datatype Quotient = MoneyQuotient(money: Money) | Ratio(ratio: real)

  /** `/` (and its alias `div`). */
  function Quo(a: Money, other: Operand, ctx: Context): (r: Result<Quotient>)
    ensures other.Other? ==> r == Err(TypeError)
    ensures other.OfNumber? && other.number == 0.0 ==> r == Err(ZeroDivision)
    ensures other.OfNumber? && other.number != 0.0 ==>
      && r.Ok? && r.value.MoneyQuotient?
      && r.value.money.currency == a.currency && r.value.money.kind == a.kind
      && IsRounding(a.fractional as real / other.number, ctx.mode, r.value.money.fractional)
    ensures other.OfMoney? && ExchangeTo(other.money, a.currency, ctx).Err? ==>
      r == Err(ExchangeTo(other.money, a.currency, ctx).error)
    ensures other.OfMoney? && ExchangeTo(other.money, a.currency, ctx).Ok? ==>
      var c := ExchangeTo(other.money, a.currency, ctx).value;
      && (c.fractional == 0 ==> r == Err(ZeroDivision))
      && (c.fractional != 0 ==> r.Ok? && r.value.Ratio? && r.value.ratio * c.fractional as real == a.fractional as real)
  {
    match other
    case OfNumber(x) =>
      if x == 0.0 then Err(ZeroDivision)
      else Ok(MoneyQuotient(FromSubunits(a.fractional as real / x, a.currency, a.kind, ctx.mode)))
    case OfMoney(b) =>
      (match ExchangeTo(b, a.currency, ctx)
       case Err(e) => Err(e)
       case Ok(c) =>
         if c.fractional == 0 then Err(ZeroDivision)
         else
           QuotientTimesDivisor(a.fractional as real, c.fractional as real);
           Ok(Ratio(a.fractional as real / c.fractional as real)))
    case Other => Err(TypeError)
  }

  /** The result of `divmod`: by Money, an integer count and a Money rest;
      by a number, a Money share and a Money rest. */
  datatype DivModResult = ByMoney(count: int, rest: Money) | ByNumber(share: Money, rest: Money)

  /** `divmod`: floored division. By Money, the subunit counts are divided
      after conversion; by a number, the receiver's subunit count is. */
  function DivMod(a: Money, other: Operand, ctx: Context): (r: Result<DivModResult>)
    ensures other.Other? ==> r == Err(TypeError)
    ensures other.OfNumber? && other.number == 0.0 ==> r == Err(ZeroDivision)
    ensures other.OfNumber? && other.number != 0.0 ==>
      var (q, rest) := FloorDivMod(a.fractional as real, other.number);
      && r.Ok? && r.value.ByNumber?
      && r.value.share == Money(q, a.currency, a.kind)
      && r.value.rest.currency == a.currency && r.value.rest.kind == a.kind
      && IsRounding(rest, ctx.mode, r.value.rest.fractional)
    ensures other.OfMoney? && ExchangeTo(other.money, a.currency, ctx).Err? ==>
      r == Err(ExchangeTo(other.money, a.currency, ctx).error)
    ensures other.OfMoney? && ExchangeTo(other.money, a.currency, ctx).Ok? ==>
      var d := ExchangeTo(other.money, a.currency, ctx).value.fractional;
      && (d == 0 ==> r == Err(ZeroDivision))
      && (d != 0 ==>
            && r.Ok? && r.value.ByMoney?
            && r.value.rest.currency == a.currency && r.value.rest.kind == a.kind
            && a.fractional == r.value.count * d + r.value.rest.fractional
            && (d > 0 ==> 0 <= r.value.rest.fractional < d)
            && (d < 0 ==> d < r.value.rest.fractional <= 0))
  {
    match other
    case OfNumber(x) =>
      if x == 0.0 then Err(ZeroDivision)
      else
        var (q, rest) := FloorDivMod(a.fractional as real, x);
        Ok(ByNumber(Money(q, a.currency, a.kind), FromSubunits(rest, a.currency, a.kind, ctx.mode)))
    case OfMoney(b) =>
      (match ExchangeTo(b, a.currency, ctx)
       case Err(e) => Err(e)
       case Ok(c) =>
         if c.fractional == 0 then Err(ZeroDivision)
         else
           var (q, rest) := FloorDivMod(a.fractional as real, c.fractional as real);
           FloorDivModOfIntegers(a.fractional, c.fractional, ctx.mode);
           Ok(ByMoney(q, FromSubunits(rest, a.currency, a.kind, ctx.mode))))
    case Other => Err(TypeError)
  }

  /** Floored division of two subunit counts leaves an integral remainder,
      which the constructor's rounding keeps as it is. */
  lemma FloorDivModOfIntegers(a: int, d: int, mode: RoundingMode)
    requires d != 0
    ensures var (q, rest) := FloorDivMod(a as real, d as real);
      var m := RoundToInt(rest, mode);
      && a == q * d + m
      && (d > 0 ==> 0 <= m < d)
      && (d < 0 ==> d < m <= 0)
  {
    var (q, rest) := FloorDivMod(a as real, d as real);
    IntegralRemainder(a, d, FloorDivMod(a as real, d as real));
    RoundingKeepsIntegers((a - q * d) as real, mode);
  }

  /** The same for truncated division. */
  lemma TruncDivModOfIntegers(a: int, d: int, mode: RoundingMode)
    requires d != 0
    ensures var (q, rest) := TruncDivMod(a as real, d as real);
      var m := RoundToInt(rest, mode);
      && a == q * d + m
      && (a >= 0 ==> 0 <= m < if d > 0 then d else -d)
      && (a <= 0 ==> -(if d > 0 then d else -d) < m <= 0)
  {
    TruncRest(a, d, TruncDivMod(a as real, d as real), mode);
  }

  lemma TruncRest(a: int, d: int, qr: (int, real), mode: RoundingMode)
    requires a as real == qr.0 as real * d as real + qr.1
    requires RAbs(qr.1) < RAbs(d as real)
    requires a as real >= 0.0 ==> qr.1 >= 0.0
    requires a as real <= 0.0 ==> qr.1 <= 0.0
    ensures var m := RoundToInt(qr.1, mode);
      && a == qr.0 * d + m
      && (a >= 0 ==> 0 <= m < if d > 0 then d else -d)
      && (a <= 0 ==> -(if d > 0 then d else -d) < m <= 0)
  {
    var r := a - qr.0 * d;
    IntegralRemainder(a, d, qr);
    RoundingKeepsIntegers(r as real, mode);
    TruncBounds(a, d, r);
  }

  lemma TruncBounds(a: int, d: int, r: int)
    requires RAbs(r as real) < RAbs(d as real)
    requires a >= 0 ==> r >= 0
    requires a <= 0 ==> r <= 0
    ensures a >= 0 ==> 0 <= r < if d > 0 then d else -d
    ensures a <= 0 ==> -(if d > 0 then d else -d) < r <= 0
  {
  }

  /** `modulo` (and its alias `%`): the rest of `divmod` when dividing by
      Money; when dividing by a number, the floored remainder of the amount
      in major units. */
  function Modulo(a: Money, other: Operand, ctx: Context): (r: Result<Money>)
    ensures other.Other? ==> r == Err(TypeError)
    ensures other.OfMoney? ==>
      (r.Ok? <==> DivMod(a, other, ctx).Ok?) && (r.Ok? ==> r.value == DivMod(a, other, ctx).value.rest)
      && (r.Err? ==> r.error == DivMod(a, other, ctx).error)
    ensures other.OfNumber? && other.number == 0.0 ==> r == Err(ZeroDivision)
    ensures other.OfNumber? && other.number != 0.0 ==>
      var d := InSubunits(other.number, a.currency);
      && r.Ok? && r.value.currency == a.currency && r.value.kind == a.kind
      && IsRounding(FloorDivMod(a.fractional as real, d).1, ctx.mode, r.value.fractional)
  {
    match other
    case OfNumber(x) =>
      if x == 0.0 then Err(ZeroDivision)
      else
        var d := InSubunits(x, a.currency);
        Ok(FromSubunits(FloorDivMod(a.fractional as real, d).1, a.currency, a.kind, ctx.mode))
    case OfMoney(_) =>
      (match DivMod(a, other, ctx)
       case Ok(res) => Ok(res.rest)
       case Err(e) => Err(e))
    case Other => Err(TypeError)
  }

  /** `remainder`: truncated division, so the result takes the dividend's
      sign. By Money the subunit counts are divided after conversion; by a
      number, the amount in major units is. */
  function Remainder(a: Money, other: Operand, ctx: Context): (r: Result<Money>)
    ensures other.Other? ==> r == Err(TypeError)
    ensures other.OfNumber? && other.number == 0.0 ==> r == Err(ZeroDivision)
    ensures other.OfNumber? && other.number != 0.0 ==>
      var d := InSubunits(other.number, a.currency);
      && r.Ok? && r.value.currency == a.currency && r.value.kind == a.kind
      && IsRounding(TruncDivMod(a.fractional as real, d).1, ctx.mode, r.value.fractional)
    ensures other.OfMoney? && ExchangeTo(other.money, a.currency, ctx).Err? ==>
      r == Err(ExchangeTo(other.money, a.currency, ctx).error)
    ensures other.OfMoney? && ExchangeTo(other.money, a.currency, ctx).Ok? ==>
      var d := ExchangeTo(other.money, a.currency, ctx).value.fractional;
      && (d == 0 ==> r == Err(ZeroDivision))
      && (d != 0 ==>
            && r.Ok? && r.value.currency == a.currency && r.value.kind == a.kind
            && a.fractional == TruncDivMod(a.fractional as real, d as real).0 * d + r.value.fractional
            && (a.fractional >= 0 ==> 0 <= r.value.fractional < if d > 0 then d else -d)
            && (a.fractional <= 0 ==> -(if d > 0 then d else -d) < r.value.fractional <= 0))
  {
    match other
    case OfNumber(x) =>
      if x == 0.0 then Err(ZeroDivision)
      else
        var d := InSubunits(x, a.currency);
        Ok(FromSubunits(TruncDivMod(a.fractional as real, d).1, a.currency, a.kind, ctx.mode))
    case OfMoney(b) =>
      (match ExchangeTo(b, a.currency, ctx)
       case Err(e) => Err(e)
       case Ok(c) =>
         if c.fractional == 0 then Err(ZeroDivision)
         else
           TruncDivModOfIntegers(a.fractional, c.fractional, ctx.mode);
           Ok(FromSubunits(TruncDivMod(a.fractional as real, c.fractional as real).1, a.currency, a.kind, ctx.mode)))
    case Other => Err(TypeError)
  }

  /** With conversions disallowed, every operator that would convert refuses
      a Money of another currency, even when both amounts are zero. */
  lemma DisallowedRefusesOtherCurrencies(a: Money, b: Money, ctx: Context)
    requires ctx.disallowed && a.currency != b.currency
    ensures Add(a, OfMoney(b), ctx) == Err(DifferentCurrency)
    ensures Sub(a, OfMoney(b), ctx) == Err(DifferentCurrency)
    ensures Quo(a, OfMoney(b), ctx) == Err(DifferentCurrency)
    ensures Compare(a, OfMoney(b), ctx) == Err(DifferentCurrency)
    ensures DivMod(a, OfMoney(b), ctx) == Err(DifferentCurrency)
    ensures Modulo(a, OfMoney(b), ctx) == Err(DifferentCurrency)
    ensures Remainder(a, OfMoney(b), ctx) == Err(DifferentCurrency)
  {
  }
}
