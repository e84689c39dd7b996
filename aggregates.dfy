/**
 * The pandas/numpy aggregations the dashboard relies on, over exact reals:
 * sum, minimum, mean, sample and population variance, `unique` and the
 * `idxmin` of a per-driver `groupby` result.
 */
module Aggregates {
  import opened Common

  /** `sum(xs)`, accumulated from the left as Python does. */
  function Sum(xs: seq<real>): real
  {
    if xs == [] then 0.0 else Sum(xs[..|xs| - 1]) + xs[|xs| - 1]
  }

  lemma {:induction false} SumAppend(xs: seq<real>, x: real)
    ensures Sum(xs + [x]) == Sum(xs) + x
  {
    assert (xs + [x])[..|xs|] == xs;
  }

  lemma {:induction false} SumConcat(xs: seq<real>, ys: seq<real>)
    ensures Sum(xs + ys) == Sum(xs) + Sum(ys)
    decreases |ys|
  {
    if ys == [] {
      assert xs + ys == xs;
    } else {
      var ys' := ys[..|ys| - 1];
      assert xs + ys == (xs + ys') + [ys[|ys| - 1]];
      SumAppend(xs + ys', ys[|ys| - 1]);
      SumConcat(xs, ys');
      SumAppend(ys', ys[|ys| - 1]);
      assert ys' + [ys[|ys| - 1]] == ys;
    }
  }

  /** The sum of `|xs|` copies of one value. */
  lemma {:induction false} SumConstant(xs: seq<real>, c: real)
    requires forall i :: 0 <= i < |xs| ==> xs[i] == c
    ensures Sum(xs) == |xs| as real * c
  {
    if xs != [] {
      SumConstant(xs[..|xs| - 1], c);
    }
  }

  /** A sum of non-negative terms is non-negative. */
  lemma {:induction false} SumNonNegative(xs: seq<real>)
    requires forall i :: 0 <= i < |xs| ==> xs[i] >= 0.0
    ensures Sum(xs) >= 0.0
  {
    if xs != [] {
      SumNonNegative(xs[..|xs| - 1]);
    }
  }

  /** `min(xs)`: the smallest element of a non-empty sequence. */
  function MinReal(xs: seq<real>): (m: real)
    requires xs != []
    ensures m in xs
    ensures forall i :: 0 <= i < |xs| ==> m <= xs[i]
  {
    if |xs| == 1 then xs[0]
    else
      var rest := MinReal(xs[1..]);
      if xs[0] <= rest then xs[0] else rest
  }

  /** The arithmetic mean of a non-empty sequence (`Series.mean()`). */
  function Mean(xs: seq<real>): real
    requires xs != []
  {
    Sum(xs) / |xs| as real
  }

  /** A square, never negative. */
  function Square(x: real): (s: real)
    ensures s >= 0.0
  {
    if x < 0.0 then (-x) * (-x) else x * x
  }

  /** The squared deviations of the elements from their mean. */
  function SquaredDeviations(xs: seq<real>): (d: seq<real>)
    requires xs != []
    ensures |d| == |xs|
    ensures forall i :: 0 <= i < |d| ==> d[i] >= 0.0
  {
    var m := Mean(xs);
    seq(|xs|, i requires 0 <= i < |xs| => Square(xs[i] - m))
  }

  /**
   * The sample variance (denominator n - 1) that pandas' `.std()` takes the
   * square root of; undefined below two values, where pandas gives NaN.
   */
  function SampleVariance(xs: seq<real>): (v: real)
    requires |xs| >= 2
    ensures v >= 0.0
  {
    SumNonNegative(SquaredDeviations(xs));
    Sum(SquaredDeviations(xs)) / (|xs| - 1) as real
  }

  /** The population variance (denominator n) that `np.std` takes the square root of. */
  function PopulationVariance(xs: seq<real>): (v: real)
    requires xs != []
    ensures v >= 0.0
  {
    SumNonNegative(SquaredDeviations(xs));
    Sum(SquaredDeviations(xs)) / |xs| as real
  }

  /** Laps all run in the same time have no spread. */
  lemma ConstantHasZeroVariance(xs: seq<real>, c: real)
    requires xs != []
    requires forall i :: 0 <= i < |xs| ==> xs[i] == c
    ensures PopulationVariance(xs) == 0.0
    ensures |xs| >= 2 ==> SampleVariance(xs) == 0.0
  {
    SumConstant(xs, c);
    assert Mean(xs) == c;
    SumConstant(SquaredDeviations(xs), 0.0);
  }

  /** The position of the first occurrence of `x` in `xs`. */
  function FirstIndex<T(==)>(xs: seq<T>, x: T): (i: nat)
    requires x in xs
    ensures i < |xs| && xs[i] == x && x !in xs[..i]
  {
    var front := xs[..|xs| - 1];
    if x in front then
      var i := FirstIndex(front, x);
      assert xs[..i] == front[..i];
      i
    else
      assert xs[..|xs| - 1] == front;
      |xs| - 1
  }

  /** `pd.unique`: the distinct elements in order of first appearance. */
  function Unique<T(==,!new)>(xs: seq<T>): (u: seq<T>)
    ensures forall x :: x in u <==> x in xs
    ensures forall i, j :: 0 <= i < j < |u| ==> u[i] != u[j]
    ensures |u| <= |xs|
  {
    if xs == [] then []
    else
      var u := Unique(xs[..|xs| - 1]);
      assert forall x :: x in xs <==> x in xs[..|xs| - 1] || x == xs[|xs| - 1];
      if xs[|xs| - 1] in u then u else u + [xs[|xs| - 1]]
  }

  /** `pd.unique` lists the elements in the order of their first occurrence. */
  lemma {:induction false} UniqueInFirstAppearanceOrder<T(!new)>(xs: seq<T>)
    ensures forall i, j :: 0 <= i < j < |Unique(xs)| ==> FirstIndex(xs, Unique(xs)[i]) < FirstIndex(xs, Unique(xs)[j])
  {
    if xs != [] {
      var front := xs[..|xs| - 1];
      var last := xs[|xs| - 1];
      UniqueInFirstAppearanceOrder(front);
      var u := Unique(front);
      var v := Unique(xs);
      assert v == if last in u then u else u + [last];
      forall i, j | 0 <= i < j < |v|
        ensures FirstIndex(xs, v[i]) < FirstIndex(xs, v[j])
      {
        assert v[i] == u[i] && u[i] in u && u[i] in front;
        if j < |u| {
          assert v[j] == u[j] && u[j] in u && u[j] in front;
          assert FirstIndex(front, u[i]) < FirstIndex(front, u[j]);
        } else {
          assert last !in u;
          assert v[j] == last && last !in front;
        }
      }
    }
  }

  /** One entry of a per-driver aggregate (`groupby('Driver')[...].agg()`). */
  datatype Stat = Stat(driver: DriverId, value: real)

  /**
   * `idxmin` of a per-driver aggregate. pandas sorts the groupby index by
   * driver and `idxmin` returns the first minimum, so a tie goes to the
   * driver that sorts first.
   */
  function IdxMin(stats: seq<Stat>): (r: Stat)
    requires stats != []
    ensures r in stats
    ensures forall s :: s in stats ==> r.value < s.value || (r.value == s.value && !LexLess(s.driver, r.driver))
  {
    if |stats| == 1 then
      LexLessIrreflexive(stats[0].driver);
      stats[0]
    else
      var rest := IdxMin(stats[1..]);
      var head := stats[0];
      assert forall s :: s in stats ==> s == head || s in stats[1..];
      if head.value < rest.value then
        LexLessIrreflexive(head.driver);
        head
      else if head.value == rest.value && LexLess(head.driver, rest.driver) then
        LexLessIrreflexive(head.driver);
        assert forall s :: s in stats[1..] && s.value == head.value ==> !LexLess(s.driver, head.driver) by {
          forall s | s in stats[1..] && s.value == head.value
            ensures !LexLess(s.driver, head.driver)
          {
            LexLessTotal(s.driver, rest.driver);
            if s.driver != rest.driver {
              LexLessTransitive(head.driver, rest.driver, s.driver);
            }
            LexLessAsymmetric(head.driver, s.driver);
          }
        }
        head
      else
        rest
  }
}
