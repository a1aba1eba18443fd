/** BigDecimal's rounding modes, applied to an exact rational value.
    A mode maps a value to an integer (a count of subunits); rounding to a
    number of decimal places scales by a power of ten first. */
module Rounding {

  /** The BigDecimal rounding modes (`:up`, `:down`/`:truncate`, `:ceiling`/`:ceil`,
      `:floor`, `:half_up`, `:half_down`, `:half_even`/`:banker`). */
  datatype RoundingMode = Up | Truncate | Ceiling | Floor | HalfUp | HalfDown | HalfEven

  function Pow10(n: nat): (r: nat)
    ensures r >= 1
    ensures n > 0 ==> r >= 10
  {
    if n == 0 then 1 else 10 * Pow10(n - 1)
  }

  function RAbs(x: real): real {
    if x < 0.0 then -x else x
  }

  predicate IsIntegral(x: real) {
    x.Floor as real == x
  }

  /** The reference definition of each mode: which integers `n` are acceptable
      results of rounding `x`. Exactly one integer satisfies it (RoundingIsUnique). */
  predicate IsRounding(x: real, mode: RoundingMode, n: int) {
    var y := n as real;
    match mode
    case Floor => y <= x < y + 1.0
    case Ceiling => y - 1.0 < x <= y
    case Truncate => if x >= 0.0 then y <= x < y + 1.0 else y - 1.0 < x <= y
    case Up => if x >= 0.0 then y - 1.0 < x <= y else y <= x < y + 1.0
    case HalfUp => RAbs(y - x) <= 0.5 && (RAbs(y - x) == 0.5 ==> RAbs(y) > RAbs(x))
    case HalfDown => RAbs(y - x) <= 0.5 && (RAbs(y - x) == 0.5 ==> RAbs(y) < RAbs(x))
    case HalfEven => RAbs(y - x) <= 0.5 && (RAbs(y - x) == 0.5 ==> n % 2 == 0)
  }

  /** Rounds `x` to an integer under `mode`. */
  function RoundToInt(x: real, mode: RoundingMode): (n: int)
    ensures IsRounding(x, mode, n)
  {
    var f := x.Floor;
    var frac := x - f as real;
    assert 0.0 <= frac < 1.0;
    match mode
    case Floor => f
    case Ceiling => if frac == 0.0 then f else f + 1
    case Truncate => if x >= 0.0 || frac == 0.0 then f else f + 1
    case Up => if x < 0.0 || frac == 0.0 then f else f + 1
    case HalfUp => if frac > 0.5 || (frac == 0.5 && x > 0.0) then f + 1 else f
    case HalfDown => if frac > 0.5 || (frac == 0.5 && x < 0.0) then f + 1 else f
    case HalfEven => if frac > 0.5 || (frac == 0.5 && f % 2 == 1) then f + 1 else f
  }

  /** Every mode's rule admits exactly one integer, so RoundToInt is determined
      by IsRounding alone. */
  lemma RoundingIsUnique(x: real, mode: RoundingMode, n: int, m: int)
    requires IsRounding(x, mode, n) && IsRounding(x, mode, m)
    ensures n == m
  {
  }

  /** A value that is already integral is left as it is by every mode. */
  lemma {:induction false} RoundingKeepsIntegers(x: real, mode: RoundingMode)
    requires IsIntegral(x)
    ensures RoundToInt(x, mode) as real == x
  {
    var n := RoundToInt(x, mode);
    assert IsRounding(x, mode, x.Floor) by {
      assert RAbs(x.Floor as real - x) == 0.0;
    }
    RoundingIsUnique(x, mode, n, x.Floor);
  }

  /** Every mode moves a value by less than one unit. */
  lemma RoundingIsClose(x: real, mode: RoundingMode)
    ensures RAbs(RoundToInt(x, mode) as real - x) < 1.0
  {
  }

  /** The number of subunits in one unit when a currency has `places` decimals. */
  function Scale(places: nat): (s: real)
    ensures s >= 1.0
    ensures IsIntegral(s)
  {
    Pow10(places) as real
  }

  /** `value.round(places, mode)`: rounds to `places` decimal digits; scaled
      by 10^places, the result is the mode's rounding of the scaled value. */
  function RoundAt(value: real, places: nat, mode: RoundingMode): (r: real)
    ensures r * Scale(places) == RoundToInt(value * Scale(places), mode) as real
  {
    var n := RoundToInt(value * Scale(places), mode);
    DivideThenScale(n as real, Scale(places));
    n as real / Scale(places)
  }

  /** The rounded value has no digits beyond `places`. */
  lemma RoundAtIsRepresentable(value: real, places: nat, mode: RoundingMode)
    ensures IsIntegral(RoundAt(value, places, mode) * Scale(places))
  {
    var n := RoundToInt(value * Scale(places), mode);
    assert RoundAt(value, places, mode) * Scale(places) == n as real;
  }

  /** Rounding to places and then to an integer count of 10^-places units
      gives the count the first rounding chose, whatever the second mode. */
  lemma {:induction false} RoundAtThenCount(value: real, places: nat, mode: RoundingMode, mode': RoundingMode)
    ensures RoundToInt(RoundAt(value, places, mode) * Scale(places), mode') == RoundToInt(value * Scale(places), mode)
  {
    var n := RoundToInt(value * Scale(places), mode);
    assert RoundAt(value, places, mode) * Scale(places) == n as real;
    RoundingKeepsIntegers(n as real, mode');
  }

  lemma DivideThenScale(x: real, scale: real)
    requires scale != 0.0
    ensures (x / scale) * scale == x
  {
  }

  /** A value that already has at most `places` decimals is kept by every mode. */
  lemma RoundAtKeepsRepresentable(r: real, places: nat, mode: RoundingMode)
    requires IsIntegral(r * Scale(places))
    ensures RoundAt(r, places, mode) == r
  {
    RoundingKeepsIntegers(r * Scale(places), mode);
    ScaleCancels(RoundAt(r, places, mode), r, Scale(places));
  }

  /** Rounding to a number of places is idempotent, whatever the second mode. */
  lemma RoundAtIdempotent(value: real, places: nat, mode: RoundingMode, mode': RoundingMode)
    ensures RoundAt(RoundAt(value, places, mode), places, mode') == RoundAt(value, places, mode)
  {
    RoundAtIsRepresentable(value, places, mode);
    RoundAtKeepsRepresentable(RoundAt(value, places, mode), places, mode');
  }

  lemma ScaleCancels(a: real, b: real, scale: real)
    requires scale != 0.0 && a * scale == b * scale
    ensures a == b
  {
  }
}
