/** What the two roundings of a conversion are, and which amounts they leave alone. */
module ExactRounding {
  import opened Rounding

  // ----- A currency with rate 1 -----

  ghost predicate Whole(u: real) {
    u == u.Floor as real
  }

  /** x is a multiple of 1/scale. */
  ghost predicate IsMultiple(x: real, scale: real) {
    Whole(x * scale)
  }

  /** The amount has at most p decimals; for a negative p it is a multiple of ten to the power -p. */
  ghost predicate HasDecimals(a: real, p: int) {
    IsMultiple(a, Scale(p))
  }

  lemma IntegerIsWhole(n: int)
    ensures Whole(n as real) && (n as real + 0.5).Floor == n
  {
  }

  lemma RoundedTimesScale(x: real, scale: real)
    requires scale > 0.0
    ensures RoundHalfUp(x, scale) * scale == (x * scale + 0.5).Floor as real
  {
  }

  lemma SameProduct(a: real, b: real, s: real)
    requires a == b
    ensures a * s == b * s && IsMultiple(a, s) == IsMultiple(b, s)
  {
  }

  lemma WholeProduct(x: real, s: real, n: int)
    requires x * s == n as real
    ensures IsMultiple(x, s)
  {
  }

  /** Rounding leaves a number alone exactly when it is a multiple of the unit; its result is one. */
  lemma RoundHalfUpExact(x: real, scale: real)
    requires scale > 0.0
    ensures RoundHalfUp(x, scale) == x <==> IsMultiple(x, scale)
    ensures IsMultiple(RoundHalfUp(x, scale), scale)
  {
    hide RoundHalfUp;
    var n := (x * scale + 0.5).Floor;
    RoundedTimesScale(x, scale);
    WholeProduct(RoundHalfUp(x, scale), scale, n);
    if RoundHalfUp(x, scale) == x {
      SameProduct(RoundHalfUp(x, scale), x, scale);
    }
    if IsMultiple(x, scale) {
      IntegerIsWhole((x * scale).Floor);
      assert n as real == x * scale;
      CancelFactor(RoundHalfUp(x, scale), x, scale);
    }
  }

  lemma NegativeMultiple(x: real, scale: real)
    ensures IsMultiple(-x, scale) == IsMultiple(x, scale)
  {
    var u := x * scale;
    assert (-x) * scale == -u;
    IntegerIsWhole(-(u.Floor));
    IntegerIsWhole(-((-u).Floor));
  }

  lemma RoundHalfAwayExact(x: real, scale: real)
    requires scale > 0.0
    ensures RoundHalfAway(x, scale) == x <==> IsMultiple(x, scale)
    ensures IsMultiple(RoundHalfAway(x, scale), scale)
  {
    hide RoundHalfUp, IsMultiple;
    if x >= 0.0 {
      RoundHalfUpExact(x, scale);
    } else {
      RoundHalfUpExact(-x, scale);
      NegativeMultiple(x, scale);
      NegativeMultiple(RoundHalfUp(-x, scale), scale);
    }
  }

  lemma TenfoldMultiple(x: real, scale: real)
    requires IsMultiple(x, scale)
    ensures IsMultiple(x, scale * 10.0)
  {
    var u := x * scale;
    assert x * (scale * 10.0) == u * 10.0;
    IntegerIsWhole(u.Floor * 10);
    assert u * 10.0 == (u.Floor * 10) as real;
  }

  /** More decimals never hurt. */
  lemma {:induction false} FinerDecimals(a: real, p: int, q: int)
    requires p <= q && HasDecimals(a, p)
    ensures HasDecimals(a, q)
    decreases q - p
  {
    hide IsMultiple, Scale;
    if p < q {
      ScaleStep(p);
      TenfoldMultiple(a, Scale(p));
      FinerDecimals(a, p + 1, q);
    }
  }

  /** A rate of 1 leaves an amount unchanged exactly when the amount has no more decimals than both the
      requested precision and the division keep. */
  lemma UnitRateKeepsAmount(amount: real, precision: int, places: nat)
    ensures Convert(amount, 1.0, precision, places) == amount <==>
            HasDecimals(amount, Min(Min(precision, MAX_PRECISION), places))
  {
    hide RoundHalfUp, RoundHalfAway, IsMultiple, Scale;
    var p, quotient := Min(precision, MAX_PRECISION), BigDiv(amount, 1.0, places);
    assert amount / 1.0 == amount;
    RoundHalfAwayExact(amount, Scale(places));
    RoundHalfUpExact(quotient, Scale(p));
    if p <= places {
      if HasDecimals(amount, p) { FinerDecimals(amount, p, places); }
    } else {
      FinerDecimals(quotient, places, p);
    }
  }

  /** The scale of p places: one for none, tenfold for one more. */
  lemma ScaleIsPower(p: int)
    ensures Scale(0) == 1.0 && Scale(p + 1) == 10.0 * Scale(p)
  {
    ScaleStep(p);
  }

  lemma ScaleOfSmall()
    ensures Scale(2) == 100.0 && Scale(3) == 1000.0
  {
    assert Pow10(1) == 10 && Pow10(2) == 100 && Pow10(3) == 1000;
  }

  // ----- What the two roundings are -----

  /** r is the multiple of the unit nearest to x, the upper one of two equally near. */
  ghost predicate NearestUp(r: real, x: real, scale: real)
    requires scale > 0.0
  {
    IsMultiple(r, scale) && x - 0.5 / scale < r <= x + 0.5 / scale
  }

  /** r is the multiple of the unit nearest to x, the one farther from zero of two equally near. */
  ghost predicate NearestAway(r: real, x: real, scale: real)
    requires scale > 0.0
  {
    IsMultiple(r, scale) &&
    if x >= 0.0 then x - 0.5 / scale < r <= x + 0.5 / scale else x - 0.5 / scale <= r < x + 0.5 / scale
  }

  lemma StrictScale(u: real, v: real, scale: real)
    requires scale > 0.0
    ensures u < v <==> u * scale < v * scale
  {
    if u < v {
      assert (v - u) * scale > 0.0;
    } else {
      ScaleMonotone(v, u, scale);
    }
  }

  lemma ScaledBounds(r: real, x: real, scale: real)
    requires scale > 0.0
    ensures x - 0.5 / scale < r <==> x * scale - 0.5 < r * scale
    ensures r <= x + 0.5 / scale <==> r * scale <= x * scale + 0.5
  {
    var h := 0.5 / scale;
    assert h * scale == 0.5;
    assert (x - h) * scale == x * scale - 0.5 && (x + h) * scale == x * scale + 0.5;
    StrictScale(x - h, r, scale);
    StrictScale(x + h, r, scale);
  }

  lemma FloorBetween(u: real, n: int)
    requires u - 0.5 < n as real <= u + 0.5
    ensures (u + 0.5).Floor == n
  {
  }

  /** The first rounding is that nearest multiple. */
  lemma RoundHalfUpNearest(x: real, scale: real, r: real)
    requires scale > 0.0
    ensures r == RoundHalfUp(x, scale) <==> NearestUp(r, x, scale)
  {
    hide RoundHalfUp;
    RoundHalfUpExact(x, scale);
    RoundedTimesScale(x, scale);
    var y := RoundHalfUp(x, scale);
    ScaledBounds(y, x, scale);
    ScaledBounds(r, x, scale);
    if NearestUp(r, x, scale) {
      FloorBetween(x * scale, (r * scale).Floor);
      CancelFactor(r, y, scale);
    }
  }

  /** So is the second, which treats both signs alike. */
  lemma RoundHalfAwayNearest(x: real, scale: real, r: real)
    requires scale > 0.0
    ensures r == RoundHalfAway(x, scale) <==> NearestAway(r, x, scale)
  {
    hide RoundHalfUp, IsMultiple;
    if x >= 0.0 {
      RoundHalfUpNearest(x, scale, r);
    } else {
      RoundHalfUpNearest(-x, scale, -r);
      NegativeMultiple(r, scale);
    }
  }

  /** The conversion without its definition: the quotient is brought to the nearest multiple of the division's last
      place, and that to the nearest multiple of the requested precision. */
  lemma ConvertNearest(amount: real, quotation: real, precision: int, places: nat, q: real, r: real)
    requires quotation != 0.0
    ensures NearestAway(q, amount / quotation, Scale(places)) &&
            NearestUp(r, q, Scale(if precision <= 292 then precision else 292))
            ==> r == Convert(amount, quotation, precision, places)
  {
    RoundHalfAwayNearest(amount / quotation, Scale(places), q);
    RoundHalfUpNearest(q, Scale(Min(precision, MAX_PRECISION)), r);
  }

  /** Three decimals at the precision of two. */
  lemma ThreeDecimalsAreRounded()
    ensures Convert(0.125, 1.0, 2, 20) == 0.13
  {
    hide RoundHalfAway, Scale;
    assert Scale(2) == 100.0 && Scale(3) == 1000.0 by { ScaleOfSmall(); }
    assert HasDecimals(0.125, 3) by { IntegerIsWhole(125); }
    FinerDecimals(0.125, 3, 20);
    RoundHalfAwayExact(0.125, Scale(20));
    assert BigDiv(0.125, 1.0, 20) == 0.125;
    assert RoundHalfUp(0.125, 100.0) == 13.0 / 100.0;
  }
}
