# Money arithmetic and the variable-exchange bank, in Dafny

This project models three pieces of the Ruby `money` library:

- **Money arithmetic.** A Money is an immutable amount of one currency. The
  library's arithmetic tests pin down its operators: unary minus, `==`,
  `eql?`, `<=>`, the sign predicates, `+`, `-`, `*`, `/` (also `div`),
  `divmod`, `modulo` (also `%`), `remainder` and `abs`. They also pin down
  the policy under which conversions between currencies are disallowed.
- **`Money::Bank::Base`.** The abstract bank holds a mutable
  `rounding_method`. Its `round` picks a rounding strategy in a fixed order,
  and `same_currency?` compares resolved currencies.
- **`Money::Bank::VariableExchange`.** This bank keeps a table of rates keyed
  by an upper-cased (from, to) pair. It sets and reads rates, and exchanges
  by multiplying the amount by the rate, then rounding with the base rule.
  It exports and imports its table as a flat map keyed `"FROM_TO_TO"`.

Representation:

- A Money holds an integer count of its currency's subunits (`fractional`),
  the currency, and a class tag (`Kind`). The tag stands for the runtime
  subclass that every operator carries from receiver to result.
- Decimal values and rates are Dafny `real`s, which are exact rationals.
  Literals such as `1.33` and `0.1` are therefore the exact decimals that
  BigDecimal reads.
- A rounding mode is a datatype. `Rounding.IsRounding` is the reference
  definition of each mode. `Rounding.RoundToInt` is proved to meet it, and
  that integer is unique.
- Currency resolution is a directory: a map from upper-case code to decimal
  places. An identifier is matched after ASCII upper-casing.
- The process-wide settings the operators read form a `Context` parameter:
  - the default bank's `exchange_to`, a function whose `None` result stands
    for `UnknownRate`;
  - the "conversions disallowed" flag;
  - `Money.rounding_mode`.
- Every exception is an `Error` constructor inside a `Result`.
- `Money.new(n, cur)` takes n major units, so `Money.new(13, :USD)` is
  1300 subunits and `Money.new(0.13, :USD)` is 13. The example tables in
  `Vectors` write every amount as its subunit count.
- Both banks are classes with a mutable `roundingMethod` field. The
  exchange bank's rate store is a `map` field that `SetRate` and
  `ImportRates` reassign.

Modules, leaves first:

| Module | File | Contents |
|---|---|---|
| `Errors` | `errors.dfy` | Option, Error, Result |
| `Rounding` | `rounding.dfy` | BigDecimal rounding modes |
| `Division` | `division.dfy` | floored and truncated division |
| `Currencies` | `currency.dfy` | directory and `Currency.wrap` |
| `MoneyArithmetic` | `money.dfy` | the Money value type |
| `BankBase` | `bank_base.dfy` | `Money::Bank::Base` |
| `VariableExchange` | `variable_exchange.dfy` | the exchange bank |
| `Vectors` | `vectors.dfy` | the tests' example tables as lemmas |

Two behaviours of `Base#round` decide how a converted amount is rounded:

- **Strategy order.** `round` takes `block || mode || rounding_method`
  (lib/money/bank/base.rb:128): a per-call block wins over a per-call
  mode, and both win over the stored method (`BankBase.Choose`).
- **No strategy.** With none of the three, `round` returns the value
  unchanged (lib/money/bank/base.rb:129). The Money constructor then rounds
  it to subunits under `Money.rounding_mode`, which is `moneyMode` in
  `VariableExchange.Exchange`.

The arithmetic tests fix a split that the model keeps:

- `divmod` by a number divides the subunit count. 0.13 USD divmod 4 is
  [0.03 USD, 0.01 USD].
- `modulo`, `%` and `remainder` by a number divide the amount in major
  units. 13 USD modulo 4 is 1 USD.
- So the rest of `divmod` by a number differs from `modulo` by the same
  number (`Vectors.ModuloIsNotDivModRest`).

## Model

| member | source | states |
|---|---|---|
| Rounding.RoundToInt | lib/money/bank/base.rb:131 | rounding a value to an integer under a BigDecimal mode gives an integer that the mode's reference rule (floor, ceiling, toward/away from zero, three half-way rules) admits |
| Rounding.RoundingIsUnique | lib/money/bank/base.rb:131 | each mode's rule admits exactly one integer, so the rounding is fully determined by the rule |
| Rounding.RoundingKeepsIntegers | lib/money/bank/base.rb:131 | every mode leaves an integral value unchanged |
| Rounding.RoundingIsClose | lib/money/bank/base.rb:131 | every mode moves a value by less than one unit |
| Rounding.RoundAt | lib/money/bank/base.rb:131 | `value.round(places, mode)`: scaled by 10^places, the result is the mode's rounding of the scaled value |
| Rounding.RoundAtIsRepresentable | lib/money/bank/base.rb:131 | a value rounded to `places` has no digits beyond `places` |
| Rounding.RoundAtThenCount | lib/money/bank/base.rb:131 | counting a rounded value in 10^-places units gives the first rounding's count, whatever the second mode |
| Rounding.RoundAtKeepsRepresentable | lib/money/bank/base.rb:131 | a value with at most `places` decimals is kept by every mode |
| Rounding.RoundAtIdempotent | lib/money/bank/base.rb:131 | rounding twice to the same places equals rounding once, whatever the second mode |
| Division.FloorDivMod | spec/money/arithmetic_spec.rb:368-389 | floored division: `a == q*b + r`, and `r` is zero or has the divisor's sign with `abs(r) < abs(b)` |
| Division.TruncDivMod | spec/money/arithmetic_spec.rb:502-513 | truncated division: `a == q*b + r`, `abs(r) < abs(b)`, and `r` is zero or has the dividend's sign |
| Currencies.Upcase | spec/money/bank/variable_exchange_spec.rb:139-142 | upper-casing keeps the length and maps each character through ASCII upper-casing |
| Currencies.UpcaseIdempotent | spec/money/bank/variable_exchange_spec.rb:139-142 | upper-casing twice is upper-casing once |
| Currencies.Wrap | lib/money/bank/base.rb:122-124 | `Currency.wrap` succeeds iff the upper-cased identifier is in the directory, then yields that code with its decimal places; otherwise UnknownCurrency |
| Currencies.WrapIgnoresCase | spec/money/bank/variable_exchange_spec.rb:139-142 | identifiers that differ only in letter case resolve to the same currency |
| Currencies.ResolvedAlikeIffSameCode | lib/money/bank/base.rb:122-124 | two identifiers that resolve give the same currency iff the resolved codes are equal |
| Currencies.WrapOfCode | spec/money/bank/variable_exchange_spec.rb:33-39 | a resolved currency's own code resolves back to it, so a string and a Currency are accepted alike |
| MoneyArithmetic.Amount | spec/money/arithmetic_spec.rb:291-302 | `to_d` (read by the conversion stubs): the amount in major units, the subunit count divided by 10^decimal_places |
| MoneyArithmetic.FromSubunits | spec/money/arithmetic_spec.rb:191-201 | a Money built from a subunit value keeps currency and class, rounds the value under the mode, and keeps an integral value exactly |
| MoneyArithmetic.FromAmount | spec/money/bank/variable_exchange_spec.rb:84-86 | `Money.new(amount)` rounds the amount in subunits under the configured mode, keeps currency and class, and keeps an amount with no extra digits exactly |
| MoneyArithmetic.FromAmountOfAmount | spec/money/bank/variable_exchange_spec.rb:84-86 | building a Money from another's amount gives that Money back, whatever the mode |
| MoneyArithmetic.FromRoundedAmount | spec/money/bank/variable_exchange_spec.rb:45-47 | a value already rounded to a currency's places becomes exactly that many subunits; the constructor's own rounding adds nothing |
| MoneyArithmetic.ExchangeTo | spec/money/arithmetic_spec.rb:91-109 | `exchange_to`: a Money already in the target is kept; otherwise it fails with DifferentCurrency when conversions are disallowed, with UnknownRate when the bank has no answer, else gives the bank's answer |
| MoneyArithmetic.Negate | spec/money/arithmetic_spec.rb:4-15 | unary minus keeps currency and class and gives the opposite amount |
| MoneyArithmetic.NegateInvolution | spec/money/arithmetic_spec.rb:4-10 | negating twice is the identity, and the result is zero iff the receiver is |
| MoneyArithmetic.Abs | spec/money/arithmetic_spec.rb:515-526 | `abs` returns a non-negative value equal to the amount or its negation, with the receiver's currency and class |
| MoneyArithmetic.NonZero | spec/money/arithmetic_spec.rb:538-553 | `nonzero?` returns the receiver itself iff it is not zero, else nil |
| MoneyArithmetic.IsZero | spec/money/arithmetic_spec.rb:528-536 | `zero?` holds iff the subunit count is 0 |
| MoneyArithmetic.IsPositive | spec/money/arithmetic_spec.rb:129-141 | `positive?` holds iff the subunit count is above 0 |
| MoneyArithmetic.IsNegative | spec/money/arithmetic_spec.rb:143-155 | `negative?` holds iff the subunit count is below 0 |
| MoneyArithmetic.SignPredicatesPartition | spec/money/arithmetic_spec.rb:129-155 | exactly one of zero?, positive?, negative? holds; `abs` and unary minus keep zero?; negation swaps positive? and negative? |
| MoneyArithmetic.Equal | spec/money/arithmetic_spec.rb:17-56 | `==` holds iff the other operand is a Money with the same currency and amount, or both amounts are zero whatever the currencies |
| MoneyArithmetic.Eql | spec/money/arithmetic_spec.rb:58-82 | `eql?` holds iff the other operand is a Money with the same currency and amount, with no exception for zero |
| MoneyArithmetic.EqualIsEquivalence | spec/money/arithmetic_spec.rb:17-56 | `==` is reflexive, symmetric and transitive, and the class of the other operand plays no part |
| MoneyArithmetic.EqlDiffersOnlyAtZero | spec/money/arithmetic_spec.rb:58-82 | `eql?` implies `==`; they differ exactly on two zero amounts of different currencies |
| MoneyArithmetic.Sign | spec/money/arithmetic_spec.rb:84-89 | the result of `<=>` is -1, 0 or 1 as the difference is negative, zero or positive |
| MoneyArithmetic.Compare | spec/money/arithmetic_spec.rb:84-127 | `<=>` is nil for a non-Money operand and for an UnknownRate; within a currency it orders by amount; across currencies it orders against the converted operand; only DifferentCurrency, under the disallow policy, escapes |
| MoneyArithmetic.CompareSameCurrency | spec/money/arithmetic_spec.rb:85-89 | within one currency `<=>` always answers, is antisymmetric, and is 0 iff `==` holds |
| MoneyArithmetic.Combine | spec/money/arithmetic_spec.rb:157-231 | `+`/`-` refuse a non-Money operand with TypeError; otherwise they fail iff the conversion fails, with its error, else add or subtract the converted amount in the receiver's currency and class |
| MoneyArithmetic.Add | spec/money/arithmetic_spec.rb:157-172 | same-currency `+` adds subunit counts; a bare number gives TypeError |
| MoneyArithmetic.Sub | spec/money/arithmetic_spec.rb:174-189 | same-currency `-` subtracts subunit counts; a bare number gives TypeError |
| MoneyArithmetic.SubUndoesAdd | spec/money/arithmetic_spec.rb:157-189 | adding then subtracting a Money of the same currency gives the receiver back exactly |
| MoneyArithmetic.Mul | spec/money/arithmetic_spec.rb:191-219 | `*` by Money or a non-number gives TypeError; by a number it keeps currency and class and rounds the product under the mode |
| MoneyArithmetic.MulByInteger | spec/money/arithmetic_spec.rb:192-201 | multiplying by an integer is exact, and the product is positive iff the factors have the same strict sign |
| MoneyArithmetic.Quo | spec/money/arithmetic_spec.rb:233-316 | `/` by a non-zero number rounds the quotient to subunits under the mode; by Money it fails as the conversion fails, gives ZeroDivision for a zero divisor, and otherwise a ratio whose product with the divisor is the dividend |
| MoneyArithmetic.DivMod | spec/money/arithmetic_spec.rb:368-426 | `divmod` by Money: `a == q*d + r` with `r` of the divisor's sign and below it, conversion errors passed on; by a number: the floored quotient of the subunit count and its rounded rest; TypeError and ZeroDivision otherwise |
| MoneyArithmetic.FloorDivModOfIntegers | spec/money/arithmetic_spec.rb:380-389 | floored division of subunit counts leaves an integral rest that the constructor keeps, satisfying the floored-division law |
| MoneyArithmetic.TruncDivModOfIntegers | spec/money/arithmetic_spec.rb:502-513 | truncated division of subunit counts leaves an integral rest of the dividend's sign, below the divisor, satisfying the division law |
| MoneyArithmetic.Modulo | spec/money/arithmetic_spec.rb:428-500 | `modulo`/`%` by Money is exactly `divmod`'s rest or its error; by a number it is the floored remainder of the amount in major units, rounded to subunits |
| MoneyArithmetic.Remainder | spec/money/arithmetic_spec.rb:502-513 | `remainder` by Money: `a == q*d + r` with `r` of the dividend's sign and below the divisor; by a number: the truncated remainder of the amount in major units |
| MoneyArithmetic.DisallowedRefusesOtherCurrencies | spec/money/arithmetic_spec.rb:571-600 | with conversions disallowed, `+`, `-`, `/`, `<=>`, `divmod` and `remainder` on another currency fail with DifferentCurrency, zero amounts included; `modulo` by Money is defined as the rest of `divmod`, so it fails the same way |
| BankBase.Choose | lib/money/bank/base.rb:128 | the strategy is the block if given, else the mode if given, else the stored method; none exactly when all three are absent |
| BankBase.Apply | lib/money/bank/base.rb:130-134 | a mode rounds to the currency's decimal places in that mode; a callable's answer for (value, currency) is taken as it is |
| BankBase.Round | lib/money/bank/base.rb:127-135 | with no block, mode or stored method the value is returned unchanged; with a block the result is the block's answer; else with a per-call mode the value is rounded to the currency's decimal places under that mode; else the stored method is applied |
| BankBase.PerCallOverridesStored | lib/money/bank/base.rb:127-129 | with a per-call block or mode the stored method does not affect the result; without them the stored method decides |
| BankBase.ModeRoundsToPlaces | lib/money/bank/base.rb:130-131 | a per-call mode, or a stored mode when none is given per call, rounds to exactly the currency's decimal places |
| BankBase.ModeRoundingIsIdempotent | lib/money/bank/base.rb:130-131 | rounding an already rounded value again with any mode changes nothing |
| BankBase.SameCurrency | lib/money/bank/base.rb:122-124 | `same_currency?` fails with UnknownCurrency iff an identifier is unknown; otherwise it is true iff both upper-case to the same code |
| BankBase.SameCurrencyIsEquivalence | lib/money/bank/base.rb:117-124 | on known identifiers `same_currency?` is reflexive, symmetric and transitive, and ignores letter case |
| BankBase.Base.constructor | lib/money/bank/base.rb:67-70 | a new bank's rounding method is exactly the block passed, or nil without one |
| BankBase.Base.SetRoundingMethod | lib/money/bank/base.rb:50 | `rounding_method=` replaces the stored method |
| BankBase.Base.RoundValue | lib/money/bank/base.rb:127-135 | `round` on a bank applies the precedence rule to the bank's stored method |
| BankBase.Base.ExchangeWith | lib/money/bank/base.rb:102-104 | the abstract `exchange_with` always fails with NotImplemented |
| VariableExchange.Key | spec/money/bank/variable_exchange_spec.rb:181-182 | the export key of a pair is the from code, "_TO_", then the to code |
| VariableExchange.ParseKey | spec/money/bank/variable_exchange_spec.rb:228-254 | an imported key that parses yields a pair of canonical codes whose key is the imported key upper-cased |
| VariableExchange.ParseKeyOfSplit | spec/money/bank/variable_exchange_spec.rb:228-254 | every key made of two '_'-free parts around "_TO_" parses, to exactly those two parts upper-cased |
| VariableExchange.ParsedKeySplits | spec/money/bank/variable_exchange_spec.rb:228-254 | every key that parses is two '_'-free parts around "_TO_" |
| VariableExchange.ParseKeyAccepts | spec/money/bank/variable_exchange_spec.rb:228-254 | a key parses iff it is two '_'-free parts around "_TO_" |
| VariableExchange.ParseKeyOfKey | spec/money/bank/variable_exchange_spec.rb:177-254 | reading back the "FROM_TO_TO" key of a canonical pair gives the pair |
| VariableExchange.KeyIsInjective | spec/money/bank/variable_exchange_spec.rb:177-183 | distinct canonical pairs have distinct export keys |
| VariableExchange.Lookup | spec/money/bank/variable_exchange_spec.rb:161-169 | `get_rate` fails with UnknownCurrency iff a code is unknown; otherwise it returns the stored rate of the upper-cased pair, or nil |
| VariableExchange.Store | spec/money/bank/variable_exchange_spec.rb:145-158 | `set_rate` fails with UnknownCurrency iff a code is unknown; otherwise it sets the upper-cased pair and nothing else |
| VariableExchange.LookupAfterStore | spec/money/bank/variable_exchange_spec.rb:139-165 | after a rate is set, `get_rate` under any spelling of the same codes returns it; every other pair keeps its rate |
| VariableExchange.Exchange | spec/money/bank/variable_exchange_spec.rb:32-121 | `exchange_with`: an unknown target gives UnknownCurrency; the same currency returns the Money; for another known currency the result succeeds iff the pair has a stored rate, gives UnknownRate when it has none, and otherwise is the exact amount times the rate, rounded by the base rule, as a Money of the receiver's class in the target currency |
| VariableExchange.ExchangeRoundsOnce | spec/money/bank/variable_exchange_spec.rb:64-72 | with a mode in force the result is that mode's rounding of the exact product to the target's subunits |
| VariableExchange.ExchangeIsExact | spec/money/bank/variable_exchange_spec.rb:74-86 | without a strategy, a product with no digits beyond the target's subunits is kept exactly, however large |
| VariableExchange.KnownFormat | spec/money/bank/variable_exchange_spec.rb:185-209 | the formats `:json`, `:ruby` and `:yaml` are known; any other is refused |
| VariableExchange.Export | spec/money/bank/variable_exchange_spec.rb:177-209 | the export has one "FROM_TO_TO" entry per stored pair carrying its rate, and no other entry |
| VariableExchange.ImportEntries | spec/money/bank/variable_exchange_spec.rb:228-260 | an import fails iff some key is not "FROM_TO_TO"; otherwise the table stays canonical |
| VariableExchange.ImportOfAgreeingEntries | spec/money/bank/variable_exchange_spec.rb:228-254 | importing entries that agree with a table overlays that table, restricted to the pairs named, on the current one |
| VariableExchange.ImportOfExport | spec/money/bank/variable_exchange_spec.rb:177-254 | importing any listing of an export of a table, in any order and with repeats, sets every rate of that table and leaves other pairs alone |
| VariableExchange.Bank.constructor | spec/money/bank/variable_exchange_spec.rb:90-96 | a new bank has an empty table, and its rounding method is the block given or nil |
| VariableExchange.Bank.SetRoundingMethod | spec/money/bank/variable_exchange_spec.rb:116-121 | `rounding_method=` replaces the initial block and leaves the rates alone |
| VariableExchange.Bank.SetRate | spec/money/bank/variable_exchange_spec.rb:125-158 | `set_rate`/`add_rate` return the rate and store it under the upper-cased pair, or fail with UnknownCurrency and change nothing |
| VariableExchange.Bank.GetRate | spec/money/bank/variable_exchange_spec.rb:161-169 | `get_rate` answers from the current table |
| VariableExchange.Bank.ExchangeWith | spec/money/bank/variable_exchange_spec.rb:32-121 | `exchange_with` converts with the current table and stored rounding method |
| VariableExchange.Bank.ExportRates | spec/money/bank/variable_exchange_spec.rb:177-209 | an unknown format gives UnknownRateFormat; a known one gives the export of the current table |
| VariableExchange.Bank.ImportRates | spec/money/bank/variable_exchange_spec.rb:228-260 | an unknown format gives UnknownRateFormat, a malformed key gives MalformedRateKey, and both leave the table unchanged; otherwise the table becomes the result of applying the entries in order |
| Vectors.NegationTable | spec/money/arithmetic_spec.rb:4-15 | -0 is 0, -(1 USD) is -1 USD and -(-1 USD) is 1 USD in any currency, and a subclass tag is kept |
| Vectors.EqualityTable | spec/money/arithmetic_spec.rb:17-82 | 100 USD is `==` and `eql?` to 100 USD, not to 100 EUR, 200 USD or 9900 EUR; 0 USD == 0 EUR but not `eql?`; subclass operands of 100 and 250 USD are equal and 250 against 300 USD is not; numbers and other objects are never equal |
| Vectors.ComparisonTable | spec/money/arithmetic_spec.rb:84-127 | 100 USD <=> 100, 99 and 200 USD is 0, 1 and -1; 10000 USD <=> 20000 EUR is -1, 0 and 1 when the stubbed exchange answers 30000, 10000 and 9900 USD, and nil when it fails; a number or another object gives nil |
| Vectors.AdditionTable | spec/money/arithmetic_spec.rb:157-231 | 1000 USD + 90 USD = 1090 USD and - 90 USD = 910 USD; with 90 EUR exchanged to 900 USD, + gives 1900 USD and - gives 100 USD; a number operand to `+` or `-` gives TypeError |
| Vectors.MultiplicationTable | spec/money/arithmetic_spec.rb:191-219 | 10 USD * 4 = 40 USD, 10 USD * -4 = -40 USD, -10 USD * 4 = -40 USD, -10 USD * -4 = 40 USD; Money in either currency or another object as factor gives TypeError |
| Vectors.DivisionTable | spec/money/arithmetic_spec.rb:233-278 | 0.13 / 4 = 0.03, 0.13 / -4 = -0.03, -0.13 / 4 = -0.03, -0.13 / -4 = 0.03 USD; 0.1/3 under ceiling 0.04, 0.1/6 under floor 0.01, 0.1/4 under half-up 0.03 and under half-down 0.02 |
| Vectors.RatioTable | spec/money/arithmetic_spec.rb:280-302 | 13 / 4 = 3.25, 13 / -4 = -3.25, and 13 USD / 4 EUR = 1.625 when 4 EUR is worth 8 USD |
| Vectors.DivModTable | spec/money/arithmetic_spec.rb:369-378 | 0.13 USD divmod 4 = [0.03, 0.01], divmod -4 = [-0.04, -0.03]; -0.13 USD divmod 4 = [-0.04, 0.03], divmod -4 = [0.03, -0.01] |
| Vectors.DivModByMoneyTable | spec/money/arithmetic_spec.rb:380-389 | 13 USD divmod 4 USD = [3, 1 USD], by -4 USD [-4, -3 USD]; -13 USD by 4 USD [-4, 3 USD], by -4 USD [3, -1 USD] |
| Vectors.DivModByOtherMoneyTable | spec/money/arithmetic_spec.rb:391-402 | with 4 EUR worth 8 USD, 13 USD divmod 4 EUR = [1, 5 USD], by -4 EUR [-2, -3 USD]; -13 USD by 4 EUR [-2, 3 USD], by -4 EUR [1, -5 USD] |
| Vectors.ModuloTable | spec/money/arithmetic_spec.rb:429-438 | 13 USD modulo 4 = 1, modulo -4 = -3; -13 USD modulo 4 = 3, modulo -4 = -1 |
| Vectors.ModuloByMoneyTable | spec/money/arithmetic_spec.rb:440-462 | 13 USD modulo 4 and -4 USD = 1 and -3 USD, -13 USD = 3 and -1 USD; by 4 and -4 EUR worth twice as many USD, 5, -3, 3 and -5 USD |
| Vectors.RemainderTable | spec/money/arithmetic_spec.rb:503-512 | 13 USD remainder 4 and -4 = 1 USD; -13 USD remainder 4 and -4 = -1 USD |
| Vectors.ModuloIsNotDivModRest | spec/money/arithmetic_spec.rb:369-439 | 0.13 divmod 4 leaves 0.01, while 0.13 modulo 4 is 0.13 |
| Vectors.PredicateTable | spec/money/arithmetic_spec.rb:129-155 | positive? and negative? on 1, 0 and -1 USD; nonzero? and abs on the same amounts |
| Vectors.SameCurrencyTable | lib/money/bank/base.rb:117-124 | "usd" and "USD" are the same currency |
| Vectors.DifferentCurrencyTable | lib/money/bank/base.rb:117-124 | "usd" and "EUR" are not the same currency |
| Vectors.Unrounded | spec/money/bank/variable_exchange_spec.rb:41-47 | with no strategy, n cents at a rate become the constructor's rounding of n times the rate, in the receiver's class |
| Vectors.Rounded | spec/money/bank/variable_exchange_spec.rb:64-72 | a per-call mode rounds n times the rate under that mode, whatever the stored method |
| Vectors.StoredRounding | spec/money/bank/variable_exchange_spec.rb:99-121 | a stored mode, or the stored ceiling block, rounds n times the rate under that mode |
| Vectors.ExchangeTable | spec/money/bank/variable_exchange_spec.rb:41-43 | 100 USD at 1.33 is 133 EUR, for Money and a subclass alike |
| Vectors.DefaultModeTable | spec/money/bank/variable_exchange_spec.rb:45-47 | 0.10 USD at 1.33 is 0.13 EUR |
| Vectors.CeilingModeTable | spec/money/bank/variable_exchange_spec.rb:69-72 | with :ceil, 0.10 USD at 1.33 is 0.14 EUR |
| Vectors.LargeExchangeTable | spec/money/bank/variable_exchange_spec.rb:74-77 | 10^20 USD at 1.33 is 1.33 * 10^20 EUR exactly |
| Vectors.PrecisionTable | spec/money/bank/variable_exchange_spec.rb:84-86 | 100_000_000_000_000.01 USD is 133_000_000_000_000.01 EUR |
| Vectors.StoredBlockTable | spec/money/bank/variable_exchange_spec.rb:99-101 | at 1.335 the stored ceiling block makes 0.10 USD 0.14 EUR |
| Vectors.PerCallBlockTable | spec/money/bank/variable_exchange_spec.rb:103-108 | a per-call block (ceiling plus one cent) overrides the stored one: 0.15 EUR |
| Vectors.PerCallModeTable | spec/money/bank/variable_exchange_spec.rb:110-113 | a per-call :floor overrides the stored block: 0.13 EUR |
| Vectors.StoredModeTable | spec/money/bank/variable_exchange_spec.rb:116-121 | a stored :half_down makes 0.10 USD at 1.335 0.13 EUR |
| Vectors.ExchangeErrorTable | spec/money/bank/variable_exchange_spec.rb:49-55 | an unknown target gives UnknownCurrency, a known one without a rate UnknownRate |
| Vectors.RateTable | spec/money/bank/variable_exchange_spec.rb:139-142 | setting "usd"/"eur" stores the pair ("USD", "EUR") |
| Vectors.GetRateTable | spec/money/bank/variable_exchange_spec.rb:139-142 | the rate of ("USD", "EUR") is read back as "usd"/"EUR" |
| Vectors.ExportOfTwo | spec/money/bank/variable_exchange_spec.rb:177-209 | a table of two canonical pairs exports to exactly their two keys |
| Vectors.KeyTable | spec/money/bank/variable_exchange_spec.rb:181-182 | the keys of ("USD", "EUR") and ("USD", "JPY") are "USD_TO_EUR" and "USD_TO_JPY" |
| Vectors.ExportTable | spec/money/bank/variable_exchange_spec.rb:177-209 | USD to EUR 1.25 and USD to JPY 2.55 export as {"USD_TO_EUR" => 1.25, "USD_TO_JPY" => 2.55} |
| Vectors.ImportOfTwo | spec/money/bank/variable_exchange_spec.rb:228-254 | importing the two keys of a two-pair table into an empty bank gives that table |
| Vectors.ImportTable | spec/money/bank/variable_exchange_spec.rb:229-235 | importing {"USD_TO_EUR" => 1.25, "USD_TO_JPY" => 2.55} sets both rates |

## Left out

- Infinite-precision Money (the `:infinite_precision` contexts): amounts are whole subunits only.
- Subunits: `subunit_to_unit` is taken as 10^decimal_places; currencies with other subunit ratios are not modelled.
- The JSON, YAML and Marshal codecs and the file write during export: export yields, and import takes, the flat key map itself. Foreign library code and I/O.
- Store transactions, mutexes and the `:without_mutex` option: concurrency only.
- Marshal round trip of a bank object: Ruby serialisation.
- A custom rate store given at creation: a duck-typed object with no contract here. The store is the bank's own `map`.
- `Base.instance`: global memoised state. The `setup` hook is empty in the base class and is not modelled.
- `coerce` and number-on-the-left operators: Ruby's dispatch protocol.
- Float semantics: every literal is an exact decimal, as BigDecimal reads it.
- Currency resolution is an abstract directory. Upper-casing is ASCII only, and codes are free of '_'. The actual currency table lives outside these files.
- VariableExchange.Bank: it repeats `Base`'s `roundingMethod` field and its constructor contract rather than inheriting them, because the model has no class inheritance.
- VariableExchange.ImportEntries: the rate store's import code is not part of this model. The model accepts exactly the keys that export produces, "FROM_TO_TO" with '_'-free parts. Any other key fails the whole import with MalformedRateKey, and the table is left unchanged.
- VariableExchange.ImportEntries: the decoded Hash is taken as a sequence in its order; a later entry for the same pair wins.
- lib/money/money/arithmetic.rb is not part of this model. The Money operators follow their tests. Where the tests say nothing, the model makes a choice: a zero divisor is ZeroDivision for every operator.
- Vectors: the exchange tables are stated for any directory where the target names a second two-decimal currency (`Vectors.Setting`); `Vectors.SampleSetting` shows the sample directory is one.
