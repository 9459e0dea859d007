/** The price check `decimal_from` of app.py. Turning the request's raw value
    into a `decimal.Decimal` (`Decimal(str(value))`) is Python library code;
    its result is supplied by the caller, `None` when the constructor raises. */
module Decimals {
  import opened Wrappers

  /** A Python `Decimal`: a finite number `coefficient * 10^exponent`, a signed
      infinity, or not-a-number. */
  datatype Decimal = Finite(coefficient: int, exponent: int) | Infinite(negative: bool) | NaN

  /** `10^e` as an exact rational, for any integer exponent. */
  function Pow10(e: int): (p: real)
    ensures p > 0.0
    decreases if e < 0 then -e else e
  {
    if e == 0 then 1.0 else if e > 0 then 10.0 * Pow10(e - 1) else Pow10(e + 1) / 10.0
  }

  /** The exact value of a finite decimal. */
  function Value(d: Decimal): real
    requires d.Finite?
  {
    d.coefficient as real * Pow10(d.exponent)
  }

  /** The sign of a finite decimal is the sign of its coefficient. */
  lemma ValueSign(d: Decimal)
    requires d.Finite?
    ensures Value(d) < 0.0 <==> d.coefficient < 0
  {
    var p := Pow10(d.exponent);
    if d.coefficient < 0 {
      assert d.coefficient as real * p < 0.0;
    } else {
      assert d.coefficient as real * p >= 0.0;
    }
  }

  /** `decimal_from`: the parsed value when it is a number not below zero,
      otherwise `None`. `d < 0` raises for a NaN, which the helper's
      `except` turns into `None` as well. */
  function DecimalFrom(parsed: Option<Decimal>): (r: Option<Decimal>)
    ensures r.Some? ==> parsed == r
    ensures r.Some? ==> !r.value.NaN? && r.value != Infinite(true)
    ensures r.Some? && r.value.Finite? ==> Value(r.value) >= 0.0
    ensures r.None? ==> || parsed.None?
                        || parsed.value.NaN?
                        || parsed.value == Infinite(true)
                        || (parsed.value.Finite? && Value(parsed.value) < 0.0)
  {
    match parsed
    case None => None
    case Some(NaN) => None
    case Some(Infinite(negative)) => if negative then None else parsed
    case Some(Finite(c, e)) =>
      ValueSign(parsed.value);
      if c < 0 then None else parsed
  }
}
