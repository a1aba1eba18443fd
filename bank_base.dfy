/** The abstract bank: the rounding rule every bank applies after a
    conversion, currency identity, and the mutable rounding method a bank
    is created with. */
module BankBase {

  import opened Errors
  import opened Rounding
  import opened Currencies
  import opened MoneyArithmetic

  /** A rounding block: called with the converted amount and the target
      currency, it returns the amount to use. */
  type Block = (real, Currency) -> real

  /** A rounding strategy: a BigDecimal mode symbol or a callable. */
  datatype Rounder = ByMode(mode: RoundingMode) | ByBlock(block: Block)

  /** `block || mode || rounding_method`: the first strategy present wins. */
  function Choose(mode: Option<RoundingMode>, block: Option<Block>, stored: Option<Rounder>): (s: Option<Rounder>)
    ensures s.None? <==> block.None? && mode.None? && stored.None?
    ensures block.Some? ==> s == Some(ByBlock(block.value))
    ensures block.None? && mode.Some? ==> s == Some(ByMode(mode.value))
    ensures block.None? && mode.None? ==> s == stored
  {
    if block.Some? then Some(ByBlock(block.value))
    else if mode.Some? then Some(ByMode(mode.value))
    else stored
  }

  /** Applies one strategy: a mode rounds to the currency's decimal places,
      a callable's answer is taken as it is. */
  function Apply(rounder: Rounder, value: real, currency: Currency): (r: real)
    ensures rounder.ByBlock? ==> r == rounder.block(value, currency)
    ensures rounder.ByMode? ==>
      r * Scale(currency.decimalPlaces) == RoundToInt(value * Scale(currency.decimalPlaces), rounder.mode) as real
  {
    match rounder
    case ByMode(m) => RoundAt(value, currency.decimalPlaces, m)
    case ByBlock(f) => f(value, currency)
  }

  /** `Base#round`: rounds with the per-call block, else the per-call mode,
      else the stored rounding method; with none of them the value is
      returned unchanged. */
  function Round(value: real, currency: Currency, mode: Option<RoundingMode>, block: Option<Block>,
                 stored: Option<Rounder>): (r: real)
    ensures block.None? && mode.None? && stored.None? ==> r == value
    ensures block.Some? ==> r == block.value(value, currency)
    ensures block.None? && mode.Some? ==> r == RoundAt(value, currency.decimalPlaces, mode.value)
    ensures block.None? && mode.None? && stored.Some? ==> r == Apply(stored.value, value, currency)
  {
    match Choose(mode, block, stored)
    case None => value
    case Some(rounder) => Apply(rounder, value, currency)
  }

  /** A per-call block or mode makes the stored rounding method irrelevant;
      without them the stored one decides. */
  lemma PerCallOverridesStored(value: real, currency: Currency, mode: Option<RoundingMode>,
                               block: Option<Block>, stored: Option<Rounder>, stored': Option<Rounder>)
    ensures block.Some? || mode.Some? ==>
      Round(value, currency, mode, block, stored) == Round(value, currency, mode, block, stored')
    ensures block.None? && mode.None? && stored.Some? ==>
      Round(value, currency, mode, block, stored) == Apply(stored.value, value, currency)
  {
  }

  /** A mode strategy, per call or stored, rounds the value to exactly the
      currency's decimal places, the way that mode rounds. */
  lemma ModeRoundsToPlaces(value: real, currency: Currency, mode: Option<RoundingMode>,
                           stored: Option<Rounder>, m: RoundingMode)
    requires (mode == Some(m)) || (mode.None? && stored == Some(ByMode(m)))
    ensures Round(value, currency, mode, None, stored) == RoundAt(value, currency.decimalPlaces, m)
  {
  }

  /** Rounding an already rounded value again with a mode changes nothing. */
  lemma ModeRoundingIsIdempotent(value: real, currency: Currency, m: RoundingMode, m': RoundingMode)
    ensures var once := Round(value, currency, Some(m), None, None);
      Round(once, currency, Some(m'), None, None) == once
  {
    RoundAtIdempotent(value, currency.decimalPlaces, m, m');
  }

  /** `same_currency?`: both identifiers are resolved, then compared. An
      identifier the directory does not know fails with UnknownCurrency. */
  function SameCurrency(dir: Directory, id1: string, id2: string): (r: Result<bool>)
    ensures r.Ok? <==> Upcase(id1) in dir && Upcase(id2) in dir
    ensures r.Err? ==> r.error == UnknownCurrency
    ensures r.Ok? ==> (r.value <==> Upcase(id1) == Upcase(id2))
  {
    match (Wrap(dir, id1), Wrap(dir, id2))
    case (Ok(c1), Ok(c2)) => Ok(c1 == c2)
    case (Err(e), _) => Err(e)
    case (_, Err(e)) => Err(e)
  }

  /** Currency identity is an equivalence on the identifiers the directory
      knows, and letter case does not matter. */
  lemma SameCurrencyIsEquivalence(dir: Directory, a: string, b: string, c: string)
    requires Upcase(a) in dir && Upcase(b) in dir && Upcase(c) in dir
    ensures SameCurrency(dir, a, a) == Ok(true)
    ensures SameCurrency(dir, a, b) == SameCurrency(dir, b, a)
    ensures SameCurrency(dir, a, b) == Ok(true) && SameCurrency(dir, b, c) == Ok(true) ==>
      SameCurrency(dir, a, c) == Ok(true)
    ensures SameCurrency(dir, a, Upcase(a)) == Ok(true)
  {
    UpcaseIdempotent(a);
  }

  /** `Money::Bank::Base`. Its only state is the rounding method, set from
      the block given at creation and replaceable afterwards. */
  class Base {
    var roundingMethod: Option<Rounder>

    /** `initialize(&block)`: the stored rounding method is exactly the
        block, or nil without one. */
    constructor(block: Option<Block>)
      ensures block.Some? ==> roundingMethod == Some(ByBlock(block.value))
      ensures block.None? ==> roundingMethod == None
    {
      roundingMethod := if block.Some? then Some(ByBlock(block.value)) else None;
    }

    /** `rounding_method=`. */
    method SetRoundingMethod(rounder: Option<Rounder>)
      modifies this
      ensures roundingMethod == rounder
    {
      roundingMethod := rounder;
    }

    /** `round`, reading the stored rounding method. */
    method RoundValue(value: real, currency: Currency, mode: Option<RoundingMode>, block: Option<Block>)
      returns (r: real)
      ensures r == Round(value, currency, mode, block, roundingMethod)
    {
      r := Round(value, currency, mode, block, roundingMethod);
    }

    /** `exchange_with` is abstract here: every call fails. */
    method ExchangeWith(from: Money, target: string, mode: Option<RoundingMode>, block: Option<Block>)
      returns (r: Result<Money>)
      ensures r == Err(NotImplemented)
    {
      r := Err(NotImplemented);
    }
  }
}
