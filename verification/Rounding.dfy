/** The arithmetic of a currency conversion: an exact decimal division rounded to a number of places, and a
    rounding to the requested precision. The places are a setting of the whole process, twenty at first,
    that other code changes. Amounts and rates are real numbers; binary floating point is not part of this
    model. */
module Rounding {
  // ----- Decimal scales -----

  function Pow10(k: nat): (r: int)
    ensures r >= 1
  {
    if k == 0 then 1 else 10 * Pow10(k - 1)
  }

  /** Ten to the power p. */
  function Scale(p: int): (r: real)
    ensures r > 0.0
  {
    if p >= 0 then Pow10(p) as real else 1.0 / Pow10(-p) as real
  }

  function Min(a: int, b: int): int {
    if a <= b then a else b
  }

  // ----- The two roundings -----

  /** Rounds to a multiple of 1/scale, halves upwards, as Math.round does. */
  function RoundHalfUp(x: real, scale: real): real
    requires scale > 0.0
  {
    (x * scale + 0.5).Floor as real / scale
  }

  /** Rounds to a multiple of 1/scale, halves away from zero, as big.js does. */
  function RoundHalfAway(x: real, scale: real): real
    requires scale > 0.0
  {
    if x >= 0.0 then RoundHalfUp(x, scale) else -RoundHalfUp(-x, scale)
  }

  /** lodash does not round beyond this many places. */
  const MAX_PRECISION := 292

  /** new Big(amount).div(quotation), where Big.DP is `places`. */
  function BigDiv(amount: real, quotation: real, places: nat): real
    requires quotation != 0.0
  {
    RoundHalfAway(amount / quotation, Scale(places))
  }

  function Convert(amount: real, quotation: real, precision: int, places: nat): real
    requires quotation != 0.0
  {
    RoundHalfUp(BigDiv(amount, quotation, places), Scale(Min(precision, MAX_PRECISION)))
  }

  /** Half a unit of the requested precision plus half a unit of the division's last place. */
  function Bound(precision: int, places: nat): (r: real)
    ensures r > 0.0
  {
    0.5 / Scale(Min(precision, MAX_PRECISION)) + 0.5 / Scale(places)
  }

  function Abs(x: real): real {
    if x >= 0.0 then x else -x
  }

  lemma DivideBounds(u: real, c: real, s: real)
    requires s > 0.0 && -c <= u <= c
    ensures -(c / s) <= u / s <= c / s
  {
  }

  lemma MultiplyDivide(x: real, s: real)
    requires s > 0.0
    ensures (x * s) / s == x && (x / s) * s == x
  {
  }

  lemma DivideDifference(a: real, b: real, s: real)
    requires s > 0.0
    ensures a / s - b / s == (a - b) / s
  {
  }

  lemma RoundHalfUpError(x: real, scale: real)
    requires scale > 0.0
    ensures Abs(RoundHalfUp(x, scale) - x) <= 0.5 / scale
  {
    var f := (x * scale + 0.5).Floor as real;
    assert -0.5 <= f - x * scale <= 0.5;
    DivideBounds(f - x * scale, 0.5, scale);
    DivideDifference(f, x * scale, scale);
    MultiplyDivide(x, scale);
  }

  lemma RoundHalfAwayError(x: real, scale: real)
    requires scale > 0.0
    ensures Abs(RoundHalfAway(x, scale) - x) <= 0.5 / scale
  {
    RoundHalfUpError(x, scale);
    RoundHalfUpError(-x, scale);
  }

  /** A conversion is within half a unit of the requested precision of the exact quotient, plus the
      rounding of the division itself. */
  lemma ConvertError(amount: real, quotation: real, precision: int, places: nat)
    requires quotation != 0.0
    ensures Abs(Convert(amount, quotation, precision, places) - amount / quotation) <= Bound(precision, places)
  {
    RoundHalfAwayError(amount / quotation, Scale(places));
    RoundHalfUpError(BigDiv(amount, quotation, places), Scale(Min(precision, MAX_PRECISION)));
  }

  lemma DivideMonotone(a: real, b: real, s: real)
    requires s > 0.0 && a <= b
    ensures a / s <= b / s
  {
  }

  lemma ScaleMonotone(x: real, y: real, s: real)
    requires s > 0.0 && x <= y
    ensures x * s <= y * s
  {
  }

  lemma FloorMonotone(u: real, v: real)
    requires u <= v
    ensures u.Floor <= v.Floor
  {
  }

  lemma RoundHalfUpMonotone(x: real, y: real, scale: real)
    requires scale > 0.0 && x <= y
    ensures RoundHalfUp(x, scale) <= RoundHalfUp(y, scale)
  {
    ScaleMonotone(x, y, scale);
    var u, v := x * scale + 0.5, y * scale + 0.5;
    assert u <= v;
    FloorMonotone(u, v);
    DivideMonotone(u.Floor as real, v.Floor as real, scale);
  }

  lemma RoundHalfUpSign(x: real, scale: real)
    requires scale > 0.0 && x >= 0.0
    ensures RoundHalfUp(x, scale) >= 0.0
  {
  }

  lemma RoundHalfAwayMonotone(x: real, y: real, scale: real)
    requires scale > 0.0 && x <= y
    ensures RoundHalfAway(x, scale) <= RoundHalfAway(y, scale)
  {
    if x >= 0.0 {
      RoundHalfUpMonotone(x, y, scale);
    } else if y < 0.0 {
      RoundHalfUpMonotone(-y, -x, scale);
    } else {
      RoundHalfUpSign(y, scale);
      RoundHalfUpSign(-x, scale);
    }
  }

  /** For a positive rate a larger amount never converts to less. */
  lemma ConvertMonotone(a: real, b: real, quotation: real, precision: int, places: nat)
    requires quotation > 0.0 && a <= b
    ensures Convert(a, quotation, precision, places) <= Convert(b, quotation, precision, places)
  {
    DivideMonotone(a, b, quotation);
    RoundHalfAwayMonotone(a / quotation, b / quotation, Scale(places));
    RoundHalfUpMonotone(BigDiv(a, quotation, places), BigDiv(b, quotation, places),
                        Scale(Min(precision, MAX_PRECISION)));
  }

  lemma ScaleStep(p: int)
    ensures Scale(p + 1) == Scale(p) * 10.0
  {
  }

  lemma CancelFactor(a: real, b: real, s: real)
    requires s > 0.0 && a * s == b * s
    ensures a == b
  {
  }
}
