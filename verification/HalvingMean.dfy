/**
  The running average of the serial decoder: every new value counts as much as all
  earlier ones together. Its closed form speaks of the printed integers themselves.
  */
module HalvingMean {

  function Scaled(x: int, coef: real): real { x as real / 1000.0 * coef }

  function Average(xs: seq<int>, coef: real): real {
    if xs == [] then 0.0
    else if |xs| == 1 then Scaled(xs[0], coef)
    else (Average(xs[..|xs| - 1], coef) + Scaled(xs[|xs| - 1], coef)) / 2.0
  }

  function Half(k: nat): (h: real)
    ensures h > 0.0
  {
    if k == 0 then 1.0 else Half(k - 1) / 2.0
  }

  /** The weight of the i-th of n values: the newest counts 1/2, the two oldest 1/2^(n-1). */
  function Weight(n: nat, i: nat): (w: real)
    requires i < n
    ensures w > 0.0
  {
    if i == 0 then Half(n - 1) else Half(n - i)
  }

  /** The weighted sum of the first m of n values. */
  function Blend(xs: seq<int>, n: nat, m: nat): real
    requires m <= n && m <= |xs|
  {
    if m == 0 then 0.0 else Blend(xs, n, m - 1) + Weight(n, m - 1) * xs[m - 1] as real
  }

  /** One more value halves the weight of all others. */
  lemma {:induction false} BlendHalves(xs: seq<int>, n: nat, m: nat)
    requires m <= n && m <= |xs|
    ensures Blend(xs, n + 1, m) == Blend(xs, n, m) / 2.0
  {
    if m > 0 {
      BlendHalves(xs, n, m - 1);
      assert Weight(n + 1, m - 1) == Weight(n, m - 1) / 2.0;
      HalfProduct(Weight(n, m - 1), xs[m - 1] as real);
    }
  }

  lemma HalfProduct(a: real, b: real)
    ensures (a / 2.0) * b == (a * b) / 2.0
  {
  }

  lemma {:induction false} BlendPrefix(xs: seq<int>, ys: seq<int>, n: nat, m: nat)
    requires m <= n && m <= |xs| && m <= |ys| && xs[..m] == ys[..m]
    ensures Blend(xs, n, m) == Blend(ys, n, m)
  {
    if m > 0 {
      assert xs[..m - 1] == xs[..m][..m - 1] && ys[..m - 1] == ys[..m][..m - 1];
      assert xs[m - 1] == xs[..m][m - 1] == ys[..m][m - 1];
      BlendPrefix(xs, ys, n, m - 1);
    }
  }

  lemma NewestCountsHalf(n: nat)
    requires n >= 2
    ensures Weight(n, n - 1) == 0.5
  {
    assert Half(1) == Half(0) / 2.0;
  }

  lemma Thousandth(x: int, coef: real)
    ensures 1000.0 * Scaled(x, coef) == coef * x as real
  {
  }

  lemma Mean(a: real, b: real, coef: real, p: real, q: real)
    requires 1000.0 * a == coef * p && 1000.0 * b == coef * q
    ensures 1000.0 * ((a + b) / 2.0) == coef * (p / 2.0 + 0.5 * q)
  {
  }

  /** The fold is the weighted sum of the integers, in thousandths of the coefficient. */
  lemma {:induction false} AverageClosedForm(xs: seq<int>, coef: real)
    requires xs != []
    ensures 1000.0 * Average(xs, coef) == coef * Blend(xs, |xs|, |xs|)
    decreases |xs|
  {
    hide Scaled, Weight;
    var n := |xs|;
    var last := xs[n - 1];
    Thousandth(last, coef);
    if n == 1 {
      OneValue(xs);
    } else {
      var init := xs[..n - 1];
      AverageClosedForm(init, coef);
      BlendPrefix(xs, init, n - 1, n - 1);
      BlendHalves(xs, n - 1, n - 1);
      NewestCountsHalf(n);
      Mean(Average(init, coef), Scaled(last, coef), coef, Blend(init, n - 1, n - 1), last as real);
    }
  }

  lemma OneValue(xs: seq<int>)
    requires |xs| == 1
    ensures Blend(xs, 1, 1) == xs[0] as real
  {
    assert Blend(xs, 1, 0) == 0.0 && Weight(1, 0) == 1.0;
  }

  /** The weights add up to 1. */
  lemma {:induction false} WeightsSum(n: nat)
    requires n > 0
    ensures Blend(seq(n, _ => 1), n, n) == 1.0
  {
    var ones := seq(n, _ => 1);
    if n == 1 {
      OneValue(ones);
    } else {
      var fewer: seq<int> := seq(n - 1, _ => 1);
      WeightsSum(n - 1);
      BlendPrefix(ones, fewer, n - 1, n - 1);
      BlendHalves(ones, n - 1, n - 1);
      NewestCountsHalf(n);
    }
  }

  predicate Within(x: int, coef: real, lo: real, hi: real) { lo <= x as real / 1000.0 * coef <= hi }

  lemma ScaledWithin(x: int, coef: real, lo: real, hi: real)
    requires Within(x, coef, lo, hi)
    ensures lo <= Scaled(x, coef) <= hi
  {
  }

  /** The average lies between any bounds of the scaled values. */
  lemma {:induction false} AverageBetween(xs: seq<int>, coef: real, lo: real, hi: real)
    requires xs != [] && forall i :: 0 <= i < |xs| ==> Within(xs[i], coef, lo, hi)
    ensures lo <= Average(xs, coef) <= hi
    decreases |xs|
  {
    hide Scaled, Within;
    ScaledWithin(xs[|xs| - 1], coef, lo, hi);
    if |xs| > 1 {
      AverageBetween(xs[..|xs| - 1], coef, lo, hi);
    }
  }

  /** A value is the weighted sum of the integers xs, in thousandths of the coefficient; 0 when there are none. */
  ghost predicate Converted(value: real, xs: seq<int>, coef: real) {
    && (xs == [] ==> value == 0.0)
    && (|xs| == 1 ==> 1000.0 * value == coef * xs[0] as real)
    && (xs != [] ==> 1000.0 * value == coef * Blend(xs, |xs|, |xs|))
  }

  lemma AverageConverts(xs: seq<int>, coef: real)
    ensures Converted(Average(xs, coef), xs, coef)
  {
    if xs != [] {
      AverageClosedForm(xs, coef);
    }
    if |xs| == 1 {
      OneValue(xs);
    }
  }
}
