/**
  The placeholder localisation step: the per-axis arithmetic mean of the
  buffered positions, each axis then rounded to two decimals. Python's
  `round(_, 2)` is a parameter (`round2`), since floating-point rounding is not
  modelled; coordinates are reals.
*/
module Fusion {

  datatype Vec3 = Vec3(x: real, y: real, z: real)

  /** Python's `sum(...)` over reals, left to right. */
  function Sum(xs: seq<real>): real
    decreases |xs|
  {
    if |xs| == 0 then 0.0 else Sum(xs[..|xs| - 1]) + xs[|xs| - 1]
  }

  /** The smallest element of a non-empty sequence. */
  function Min(xs: seq<real>): (m: real)
    requires |xs| > 0
    ensures forall i :: 0 <= i < |xs| ==> m <= xs[i]
    ensures m in xs
    decreases |xs|
  {
    if |xs| == 1 then xs[0]
    else
      var m := Min(xs[..|xs| - 1]);
      if xs[|xs| - 1] < m then xs[|xs| - 1] else m
  }

  /** The largest element of a non-empty sequence. */
  function Max(xs: seq<real>): (m: real)
    requires |xs| > 0
    ensures forall i :: 0 <= i < |xs| ==> xs[i] <= m
    ensures m in xs
    decreases |xs|
  {
    if |xs| == 1 then xs[0]
    else
      var m := Max(xs[..|xs| - 1]);
      if xs[|xs| - 1] > m then xs[|xs| - 1] else m
  }

  /** `sum(xs) / len(xs)`: defined only for a non-empty sequence. */
  function Mean(xs: seq<real>): real
    requires |xs| > 0
  {
    Sum(xs) / (|xs| as real)
  }

  function Xs(ps: seq<Vec3>): (xs: seq<real>)
    ensures |xs| == |ps| && forall i :: 0 <= i < |ps| ==> xs[i] == ps[i].x
  {
    seq(|ps|, i requires 0 <= i < |ps| => ps[i].x)
  }

  function Ys(ps: seq<Vec3>): (ys: seq<real>)
    ensures |ys| == |ps| && forall i :: 0 <= i < |ps| ==> ys[i] == ps[i].y
  {
    seq(|ps|, i requires 0 <= i < |ps| => ps[i].y)
  }

  function Zs(ps: seq<Vec3>): (zs: seq<real>)
    ensures |zs| == |ps| && forall i :: 0 <= i < |ps| ==> zs[i] == ps[i].z
  {
    seq(|ps|, i requires 0 <= i < |ps| => ps[i].z)
  }

  /** True when every position equals the first one. */
  predicate AllSame(ps: seq<Vec3>)
    requires |ps| > 0
  {
    forall i :: 0 <= i < |ps| ==> ps[i] == ps[0]
  }

  /** The unweighted centroid of a non-empty set of positions: each axis lies
      between that axis's smallest and largest input, and positions that all
      coincide have that point as their centroid. */
  function Centroid(ps: seq<Vec3>): (c: Vec3)
    requires |ps| > 0
    ensures Min(Xs(ps)) <= c.x <= Max(Xs(ps))
    ensures Min(Ys(ps)) <= c.y <= Max(Ys(ps))
    ensures Min(Zs(ps)) <= c.z <= Max(Zs(ps))
    ensures AllSame(ps) ==> c == ps[0]
  {
    MeanWithinBounds(Xs(ps));
    MeanWithinBounds(Ys(ps));
    MeanWithinBounds(Zs(ps));
    MeansOfSame(ps);
    Vec3(Mean(Xs(ps)), Mean(Ys(ps)), Mean(Zs(ps)))
  }

  lemma MeansOfSame(ps: seq<Vec3>)
    requires |ps| > 0
    ensures AllSame(ps) ==> Mean(Xs(ps)) == ps[0].x && Mean(Ys(ps)) == ps[0].y && Mean(Zs(ps)) == ps[0].z
  {
    if AllSame(ps) {
      MeanOfEqual(Xs(ps), ps[0].x);
      MeanOfEqual(Ys(ps), ps[0].y);
      MeanOfEqual(Zs(ps), ps[0].z);
    }
  }

  /** `round(_, 2)` applied to each axis. */
  function RoundEach(v: Vec3, round2: real -> real): Vec3
  {
    Vec3(round2(v.x), round2(v.y), round2(v.z))
  }

  /** The fused position the coordinators publish: each axis is the rounded
      mean of that axis, and nodes that all report the same point publish
      that point, rounded. */
  function Fuse(ps: seq<Vec3>, round2: real -> real): (f: Vec3)
    requires |ps| > 0
    ensures f.x == round2(Mean(Xs(ps))) && f.y == round2(Mean(Ys(ps))) && f.z == round2(Mean(Zs(ps)))
    ensures AllSame(ps) ==> f == RoundEach(ps[0], round2)
  {
    RoundEach(Centroid(ps), round2)
  }

  lemma {:induction false} SumWithinBounds(xs: seq<real>, lo: real, hi: real)
    requires forall i :: 0 <= i < |xs| ==> lo <= xs[i] <= hi
    ensures lo * (|xs| as real) <= Sum(xs) <= hi * (|xs| as real)
    decreases |xs|
  {
    if |xs| > 0 {
      SumWithinBounds(xs[..|xs| - 1], lo, hi);
    }
  }

  /** The mean lies between the smallest and the largest input. */
  lemma MeanWithinBounds(xs: seq<real>)
    requires |xs| > 0
    ensures Min(xs) <= Mean(xs) <= Max(xs)
  {
    MeanBetween(xs, Min(xs), Max(xs));
  }

  lemma MeanBetween(xs: seq<real>, lo: real, hi: real)
    requires |xs| > 0
    requires forall i :: 0 <= i < |xs| ==> lo <= xs[i] <= hi
    ensures lo <= Mean(xs) <= hi
  {
    SumWithinBounds(xs, lo, hi);
    ScaleDown(lo, Sum(xs), hi, |xs| as real);
  }

  lemma ScaleDown(lo: real, s: real, hi: real, n: real)
    requires n > 0.0 && lo * n <= s <= hi * n
    ensures lo <= s / n <= hi
  {
    assert (s / n) * n == s;
  }

  /** When every input has the same value on an axis, the mean is that value. */
  lemma MeanOfEqual(xs: seq<real>, v: real)
    requires |xs| > 0
    requires forall i :: 0 <= i < |xs| ==> xs[i] == v
    ensures Mean(xs) == v
  {
    MeanBetween(xs, v, v);
  }

  /** x values 1, 2, 3 average to 2. */
  lemma MeanOneTwoThree()
    ensures Mean([1.0, 2.0, 3.0]) == 2.0
  {
    var xs := [1.0, 2.0, 3.0];
    assert xs[..2] == [1.0, 2.0];
    assert [1.0, 2.0][..1] == [1.0];
    assert [1.0][..0] == [];
    assert Sum(xs) == 6.0;
  }

  /** Positions (1,1,1), (2,2,2) and (3,3,3) fuse to the rounded 2 on every axis. */
  lemma FuseOneTwoThree(round2: real -> real)
    ensures Fuse([Vec3(1.0, 1.0, 1.0), Vec3(2.0, 2.0, 2.0), Vec3(3.0, 3.0, 3.0)], round2) ==
      Vec3(round2(2.0), round2(2.0), round2(2.0))
  {
    var ps := [Vec3(1.0, 1.0, 1.0), Vec3(2.0, 2.0, 2.0), Vec3(3.0, 3.0, 3.0)];
    assert Xs(ps) == [1.0, 2.0, 3.0];
    assert Ys(ps) == [1.0, 2.0, 3.0];
    assert Zs(ps) == [1.0, 2.0, 3.0];
    MeanOneTwoThree();
  }
}
