/** Converting many amounts and adding up, against converting their sum. */
module ConvertedSums {
  import opened Rounding

  function Sum(xs: seq<real>): real {
    if xs == [] then 0.0 else Sum(xs[..|xs| - 1]) + xs[|xs| - 1]
  }

  /** b added up n times. */
  function Times(n: nat, b: real): real {
    if n == 0 then 0.0 else Times(n - 1, b) + b
  }

  lemma {:induction false} TimesIsProduct(n: nat, b: real)
    ensures Times(n, b) == n as real * b
  {
    if n > 0 { TimesIsProduct(n - 1, b); }
  }

  lemma {:induction false} SumOfErrors(ys: seq<real>, zs: seq<real>, b: real)
    requires |ys| == |zs| && forall k :: 0 <= k < |ys| ==> Abs(ys[k] - zs[k]) <= b
    ensures Abs(Sum(ys) - Sum(zs)) <= Times(|ys|, b)
  {
    if ys != [] {
      var m := |ys| - 1;
      SumOfErrors(ys[..m], zs[..m], b);
    }
  }

  lemma DivideSum(a: real, b: real, q: real)
    requires q != 0.0
    ensures (a + b) / q == a / q + b / q && 0.0 / q == 0.0
  {
  }

  ghost predicate AreQuotients(zs: seq<real>, xs: seq<real>, quotation: real)
    requires quotation != 0.0
  {
    |zs| == |xs| && forall k :: 0 <= k < |xs| ==> zs[k] == xs[k] / quotation
  }

  function Quotients(xs: seq<real>, quotation: real): (zs: seq<real>)
    requires quotation != 0.0
    ensures AreQuotients(zs, xs, quotation)
  {
    seq(|xs|, k requires 0 <= k < |xs| => xs[k] / quotation)
  }

  lemma {:induction false} SumOfQuotients(xs: seq<real>, zs: seq<real>, quotation: real)
    requires quotation != 0.0 && AreQuotients(zs, xs, quotation)
    ensures Sum(zs) == Sum(xs) / quotation
  {
    if xs == [] {
      DivideSum(0.0, 0.0, quotation);
    } else {
      var m := |xs| - 1;
      SumOfQuotients(xs[..m], zs[..m], quotation);
      DivideSum(Sum(xs[..m]), xs[m], quotation);
    }
  }

  lemma Triangle(a: real, exact: real, b: real, c: real, d: real)
    requires Abs(a - exact) <= c && Abs(b - exact) <= d
    ensures Abs(a - b) <= c + d
  {
  }

  /** Line k is converted while the division keeps places[k] places, never fewer than `least`. */
  ghost predicate AreConverted(lines: seq<real>, xs: seq<real>, quotation: real, precision: int, places: seq<nat>,
                               least: nat)
    requires quotation != 0.0
  {
    |lines| == |xs| == |places| &&
    forall k :: 0 <= k < |xs| ==> least <= places[k] && lines[k] == Convert(xs[k], quotation, precision, places[k])
  }

  lemma {:induction false} ScaleGrows(p: int, q: int)
    requires p <= q
    ensures Scale(p) <= Scale(q)
    decreases q - p
  {
    if p < q {
      ScaleStep(p);
      ScaleGrows(p + 1, q);
    }
  }

  lemma FactorMonotone(u: real, s: real, t: real)
    requires u >= 0.0 && s <= t
    ensures u * s <= u * t
  {
  }

  lemma DivideAntitone(c: real, s: real, t: real)
    requires c >= 0.0 && 0.0 < s <= t
    ensures c / t <= c / s
  {
    var u, v := c / s, c / t;
    MultiplyDivide(c, s);
    MultiplyDivide(c, t);
    FactorMonotone(u, s, t);
    if u < v { ScaleMonotone(u, v, t); CancelFactor(u, v, t); }
  }

  /** More places of the division make the bound smaller. */
  lemma BoundShrinks(precision: int, p: nat, q: nat)
    requires p <= q
    ensures Bound(precision, q) <= Bound(precision, p)
  {
    ScaleGrows(p, q);
    DivideAntitone(0.5, Scale(p), Scale(q));
  }

  lemma ErrorPerLine(lines: seq<real>, xs: seq<real>, zs: seq<real>, quotation: real, precision: int, places: seq<nat>,
                     least: nat)
    requires quotation != 0.0 && AreConverted(lines, xs, quotation, precision, places, least)
    requires AreQuotients(zs, xs, quotation)
    ensures forall k :: 0 <= k < |xs| ==> Abs(lines[k] - zs[k]) <= Bound(precision, least)
  {
    forall k | 0 <= k < |xs| ensures Abs(lines[k] - zs[k]) <= Bound(precision, least) {
      ConvertError(xs[k], quotation, precision, places[k]);
      BoundShrinks(precision, least, places[k]);
    }
  }

  lemma LinesNearExactTotal(lines: seq<real>, xs: seq<real>, zs: seq<real>, quotation: real, b: real)
    requires quotation != 0.0 && AreQuotients(zs, xs, quotation) && |lines| == |xs|
    requires forall k :: 0 <= k < |xs| ==> Abs(lines[k] - zs[k]) <= b
    ensures Abs(Sum(lines) - Sum(xs) / quotation) <= Times(|xs|, b)
  {
    SumOfErrors(lines, zs, b);
    SumOfQuotients(xs, zs, quotation);
  }

  lemma LinesAgainstTotalStepwise(lines: seq<real>, xs: seq<real>, quotation: real, precision: int, places: seq<nat>,
                                  totalPlaces: nat, least: nat)
    requires quotation != 0.0 && AreConverted(lines, xs, quotation, precision, places, least) && least <= totalPlaces
    ensures Abs(Sum(lines) - Convert(Sum(xs), quotation, precision, totalPlaces)) <=
            Times(|xs| + 1, Bound(precision, least))
  {
    hide Convert, Bound, Sum;
    var total, exact := Convert(Sum(xs), quotation, precision, totalPlaces), Sum(xs) / quotation;
    var b := Bound(precision, least);
    var zs := Quotients(xs, quotation);
    ErrorPerLine(lines, xs, zs, quotation, precision, places, least);
    LinesNearExactTotal(lines, xs, zs, quotation, b);
    ConvertError(Sum(xs), quotation, precision, totalPlaces);
    BoundShrinks(precision, least, totalPlaces);
    Triangle(Sum(lines), exact, total, Times(|xs|, b), b);
    assert Times(|xs| + 1, b) == Times(|xs|, b) + b;
  }

  /** Converting n lines and adding up differs from converting the sum by at most n + 1 bounds, also when the
      places of the division change between the calls. */
  lemma LinesAgainstTotal(lines: seq<real>, xs: seq<real>, quotation: real, precision: int, places: seq<nat>,
                          totalPlaces: nat, least: nat)
    requires quotation != 0.0 && AreConverted(lines, xs, quotation, precision, places, least) && least <= totalPlaces
    ensures Abs(Sum(lines) - Convert(Sum(xs), quotation, precision, totalPlaces)) <=
            (|xs| + 1) as real * Bound(precision, least)
  {
    hide *;
    LinesAgainstTotalStepwise(lines, xs, quotation, precision, places, totalPlaces, least);
    TimesIsProduct(|xs| + 1, Bound(precision, least));
  }
}
