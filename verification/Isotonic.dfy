/** Isotonic regression by pool-adjacent-violators (eval/calibration.py).

    The method keeps the source's stack of blocks.  Its result is described without any
    blocks, by the optimality condition of the weighted least-squares problem, and that
    condition is then shown to single out the one closest non-decreasing sequence. */
module Isotonic {

  /** One input bin: how many samples it holds and what share of them was right. */
  datatype Point = Point(weight: real, value: real)

  /** One stack entry: pooled sample weight, pooled value, number of bins absorbed. */
  datatype Block = Block(weight: real, value: real, bins: nat)

  ghost predicate Positive(g: seq<Point>) {
    forall i | 0 <= i < |g| :: g[i].weight > 0.0
  }

  ghost predicate NonDecreasing(y: seq<real>) {
    forall i, j | 0 <= i < j < |y| :: y[i] <= y[j]
  }

  function Values(g: seq<Point>): (v: seq<real>)
    ensures |v| == |g|
    ensures forall i | 0 <= i < |g| :: v[i] == g[i].value
  {
    seq(|g|, i requires 0 <= i < |g| => g[i].value)
  }

  // ----- the least-squares problem -----

  /** Weighted squared distance between the first `k` inputs and `z`. */
  ghost function Distance(g: seq<Point>, z: seq<real>, k: nat): real
    requires |z| == |g| && k <= |g|
  {
    if k == 0 then 0.0
    else Distance(g, z, k - 1) + g[k-1].weight * ((g[k-1].value - z[k-1]) * (g[k-1].value - z[k-1]))
  }

  /** Weighted squared distance between two fits of the same inputs. */
  ghost function Gap(g: seq<Point>, y: seq<real>, z: seq<real>, k: nat): real
    requires |y| == |z| == |g| && k <= |g|
  {
    if k == 0 then 0.0
    else Gap(g, y, z, k - 1) + g[k-1].weight * ((z[k-1] - y[k-1]) * (z[k-1] - y[k-1]))
  }

  /** Weighted mass by which the first `k` inputs exceed the fit `y`. */
  ghost function Residual(g: seq<Point>, y: seq<real>, k: nat): real
    requires |y| == |g| && k <= |g|
  {
    if k == 0 then 0.0 else Residual(g, y, k - 1) + g[k-1].weight * (g[k-1].value - y[k-1])
  }

  /** The optimality condition: the fit rises monotonically, no prefix of the input lies below
      it, and the two carry the same mass up to every point where the fit steps up. */
  ghost predicate IsProjection(g: seq<Point>, y: seq<real>) {
    && |y| == |g|
    && NonDecreasing(y)
    && (forall k | 0 <= k <= |g| :: Residual(g, y, k) >= 0.0)
    && Residual(g, y, |g|) == 0.0
    && (forall k | 0 < k < |g| && y[k-1] < y[k] :: Residual(g, y, k) == 0.0)
  }

  ghost function Cross(g: seq<Point>, y: seq<real>, z: seq<real>, k: nat): real
    requires |y| == |z| == |g| && k <= |g|
  {
    if k == 0 then 0.0
    else Cross(g, y, z, k - 1) + g[k-1].weight * (g[k-1].value - y[k-1]) * (z[k-1] - y[k-1])
  }

  lemma {:induction false} ExpandSquare(g: seq<Point>, y: seq<real>, z: seq<real>, k: nat)
    requires |y| == |z| == |g| && k <= |g|
    ensures Distance(g, z, k) == Distance(g, y, k) - 2.0 * Cross(g, y, z, k) + Gap(g, y, z, k)
  {
    if k > 0 {
      ExpandSquare(g, y, z, k - 1);
      SquareIdentity(g[k-1].weight, g[k-1].value, y[k-1], z[k-1]);
    }
  }

  lemma {:induction false} SquareIdentity(w: real, v: real, y: real, z: real)
    ensures w * ((v - z) * (v - z)) == w * ((v - y) * (v - y)) - 2.0 * (w * (v - y) * (z - y)) + w * ((z - y) * (z - y))
  {
    var a, b := v - y, z - y;
    assert v - z == a - b;
    assert (a - b) * (a - b) == a * a - 2.0 * (a * b) + b * b;
    assert w * ((a - b) * (a - b)) == w * (a * a) - 2.0 * (w * a * b) + w * (b * b);
  }

  // Partial sums and dot products of plain sequences, for the summation by parts.
  ghost function Sum(r: seq<real>, k: nat): real
    requires k <= |r|
  {
    if k == 0 then 0.0 else Sum(r, k - 1) + r[k-1]
  }

  ghost function Dot(r: seq<real>, d: seq<real>, k: nat): real
    requires k <= |r| == |d|
  {
    if k == 0 then 0.0 else Dot(r, d, k - 1) + r[k-1] * d[k-1]
  }

  /** Abel summation: where partial sums are non-negative and vanish at every fall of `d`,
      the dot product is bounded by the last partial sum. */
  lemma {:induction false} SummationByParts(r: seq<real>, d: seq<real>, k: nat)
    requires 0 < k <= |r| == |d|
    requires forall i | 0 < i < k :: Sum(r, i) >= 0.0 && (Sum(r, i) == 0.0 || d[i-1] <= d[i])
    ensures Dot(r, d, k) <= Sum(r, k) * d[k-1]
  {
    if k > 1 {
      SummationByParts(r, d, k - 1);
      AbelStep(Dot(r, d, k - 1), Sum(r, k - 1), r[k-1], d[k-2], d[k-1]);
    } else {
      AbelStep(Dot(r, d, 0), Sum(r, 0), r[0], d[0], d[0]);
    }
  }

  lemma {:induction false} AbelStep(cross: real, before: real, r: real, d': real, d: real)
    requires cross <= before * d'
    requires before >= 0.0 && (before == 0.0 || d' <= d)
    ensures cross + r * d <= (before + r) * d
  {
    if before > 0.0 {
      SignOfProduct(d - d', before);
      assert (d - d') * before == before * d - before * d';
    }
  }

  function Pulls(g: seq<Point>, y: seq<real>): (r: seq<real>)
    requires |y| == |g|
    ensures |r| == |g| && forall i | 0 <= i < |g| :: r[i] == g[i].weight * (g[i].value - y[i])
  {
    seq(|g|, i requires 0 <= i < |g| => g[i].weight * (g[i].value - y[i]))
  }

  function Differences(z: seq<real>, y: seq<real>): (d: seq<real>)
    requires |y| == |z|
    ensures |d| == |y| && forall i | 0 <= i < |y| :: d[i] == z[i] - y[i]
  {
    seq(|y|, i requires 0 <= i < |y| => z[i] - y[i])
  }

  lemma {:induction false} PullsAddUp(g: seq<Point>, y: seq<real>, z: seq<real>, k: nat)
    requires |y| == |z| == |g| && k <= |g|
    ensures Sum(Pulls(g, y), k) == Residual(g, y, k)
    ensures Dot(Pulls(g, y), Differences(z, y), k) == Cross(g, y, z, k)
  {
    if k > 0 {
      PullsAddUp(g, y, z, k - 1);
    }
  }

  /** The fit pulls no non-decreasing sequence any closer to the input. */
  lemma {:induction false} CrossNotPositive(g: seq<Point>, y: seq<real>, z: seq<real>)
    requires |y| == |g| && IsProjection(g, y) && |z| == |g| && NonDecreasing(z)
    ensures Cross(g, y, z, |g|) <= 0.0
  {
    hide *;
    if |g| > 0 {
      var r, d := Pulls(g, y), Differences(z, y);
      forall i | 0 < i < |g|
        ensures Sum(r, i) >= 0.0 && (Sum(r, i) == 0.0 || d[i-1] <= d[i])
      {
        PullsAddUp(g, y, z, i);
        StepFacts(g, y, z, i);
      }
      PullsAddUp(g, y, z, |g|);
      StepFacts(g, y, z, |g|);
      SummationByParts(r, d, |g|);
    } else {
      PullsAddUp(g, y, z, 0);
      EmptyDot(Pulls(g, y), Differences(z, y));
    }
  }

  lemma {:induction false} EmptyDot(r: seq<real>, d: seq<real>)
    requires |r| == |d|
    ensures Dot(r, d, 0) == 0.0
  {
  }

  lemma {:induction false} StepFacts(g: seq<Point>, y: seq<real>, z: seq<real>, i: nat)
    requires IsProjection(g, y) && |z| == |g| && NonDecreasing(z) && 0 < i <= |g|
    ensures Residual(g, y, i) >= 0.0 && Residual(g, y, |g|) == 0.0
    ensures i < |g| ==> Residual(g, y, i) == 0.0 || z[i-1] - y[i-1] <= z[i] - y[i]
  {
    assert i < |g| ==> y[i-1] <= y[i] && z[i-1] <= z[i];
  }

  lemma {:induction false} SignOfProduct(x: real, w: real)
    requires w > 0.0
    ensures x * w > 0.0 <==> x > 0.0
    ensures x * w == 0.0 <==> x == 0.0
    ensures x * w >= 0.0 <==> x >= 0.0
  {
  }

  lemma {:induction false} SquareSign(d: real)
    ensures d * d >= 0.0
    ensures d * d == 0.0 <==> d == 0.0
  {
    if d > 0.0 {
      SignOfProduct(d, d);
    } else if d < 0.0 {
      SignOfProduct(-d, -d);
      assert (-d) * (-d) == d * d;
    }
  }

  lemma {:induction false} GapNonNegative(g: seq<Point>, y: seq<real>, z: seq<real>, k: nat)
    requires Positive(g) && |y| == |z| == |g| && k <= |g|
    ensures Gap(g, y, z, k) >= 0.0
    ensures Gap(g, y, z, k) == 0.0 <==> y[..k] == z[..k]
  {
    if k > 0 {
      GapNonNegative(g, y, z, k - 1);
      var w, d := g[k-1].weight, z[k-1] - y[k-1];
      SquareSign(d);
      SignOfProduct(d * d, w);
      assert y[..k] == y[..k-1] + [y[k-1]] && z[..k] == z[..k-1] + [z[k-1]];
      assert y[..k] == z[..k] <==> y[..k-1] == z[..k-1] && y[k-1] == z[k-1];
    }
  }

  /** The fit beats every other non-decreasing sequence, by at least their own distance. */
  lemma {:induction false} ProjectionIsClosest(g: seq<Point>, y: seq<real>, z: seq<real>)
    requires IsProjection(g, y) && |z| == |g| && NonDecreasing(z)
    ensures Distance(g, z, |g|) >= Distance(g, y, |g|) + Gap(g, y, z, |g|)
  {
    ExpandSquare(g, y, z, |g|);
    CrossNotPositive(g, y, z);
  }

  /** Hence it is a minimiser, and any non-decreasing sequence that does as well is the fit. */
  lemma {:induction false} ProjectionIsUniqueMinimiser(g: seq<Point>, y: seq<real>, z: seq<real>)
    requires Positive(g) && IsProjection(g, y) && |z| == |g| && NonDecreasing(z)
    ensures Distance(g, y, |g|) <= Distance(g, z, |g|)
    ensures Distance(g, z, |g|) <= Distance(g, y, |g|) <==> z == y
  {
    ProjectionIsClosest(g, y, z);
    GapNonNegative(g, y, z, |g|);
    assert y[..|g|] == y && z[..|g|] == z;
  }

  lemma {:induction false} ProjectionIsUnique(g: seq<Point>, y: seq<real>, z: seq<real>)
    requires Positive(g) && IsProjection(g, y) && IsProjection(g, z)
    ensures y == z
  {
    ProjectionIsUniqueMinimiser(g, y, z);
    ProjectionIsUniqueMinimiser(g, z, y);
  }

  // ----- consequences -----

  lemma {:induction false} ResidualOfInput(g: seq<Point>, k: nat)
    requires k <= |g|
    ensures Residual(g, Values(g), k) == 0.0
  {
    if k > 0 {
      ResidualOfInput(g, k - 1);
    }
  }

  /** Nothing is changed exactly when nothing violated the order. */
  lemma {:induction false} UnchangedIffMonotone(g: seq<Point>, y: seq<real>)
    requires Positive(g) && IsProjection(g, y)
    ensures y == Values(g) <==> NonDecreasing(Values(g))
  {
    if NonDecreasing(Values(g)) {
      forall k | 0 <= k <= |g|
        ensures Residual(g, Values(g), k) == 0.0
      {
        ResidualOfInput(g, k);
      }
      ProjectionIsUnique(g, y, Values(g));
    }
  }

  lemma {:induction false} ResidualSplit(g: seq<Point>, y: seq<real>, a: nat, b: nat, c: real)
    requires |y| == |g| && a <= b <= |g|
    requires forall i | a <= i < b :: y[i] == c
    ensures Residual(g, y, b) - Residual(g, y, a) == Excess(g[a..b], c, b - a)
    decreases b
  {
    if a < b {
      ResidualSplit(g, y, a, b - 1, c);
      assert g[a..b][..b-1-a] == g[a..b-1];
      ExcessPrefix(g[a..b], c, b - 1 - a, b - 1 - a);
      assert g[a..b][b - a - 1] == g[b-1];
    }
  }

  /** Every level of the fit is the weighted mean of exactly the inputs standing on it. */
  lemma {:induction false} LevelIsWeightedMean(g: seq<Point>, y: seq<real>, a: nat, b: nat)
    requires |y| == |g| && IsProjection(g, y) && a < b <= |g|
    requires forall i | a <= i < b :: y[i] == y[a]
    requires a > 0 ==> y[a-1] < y[a]
    requires b < |g| ==> y[b-1] < y[b]
    ensures Mass(g[a..b]) == y[a] * Weight(g[a..b])
  {
    hide *;
    StepVanishes(g, y, a);
    StepVanishes(g, y, b);
    ResidualSplit(g, y, a, b, y[a]);
    ZeroExcessIsMean(g[a..b], y[a]);
  }

  lemma {:induction false} StepVanishes(g: seq<Point>, y: seq<real>, k: nat)
    requires |y| == |g| && IsProjection(g, y) && k <= |g|
    requires 0 < k < |g| ==> y[k-1] < y[k]
    ensures Residual(g, y, k) == 0.0
  {
  }

  lemma {:induction false} ZeroExcessIsMean(g: seq<Point>, c: real)
    requires Excess(g, c, |g|) == 0.0
    ensures Mass(g) == c * Weight(g)
  {
    ExcessIsMassMinusWeight(g, c, |g|);
    assert g[..|g|] == g;
  }

  lemma {:induction false} FitMass(g: seq<Point>, y: seq<real>, k: nat)
    requires |y| == |g| && k <= |g|
    ensures Residual(g, y, k) == Mass(g[..k]) - Mass(Fitted(g, y)[..k])
  {
    if k > 0 {
      FitMass(g, y, k - 1);
      var f := Fitted(g, y);
      assert g[..k][..k-1] == g[..k-1] && f[..k][..k-1] == f[..k-1];
      assert f[k-1] == Point(g[k-1].weight, y[k-1]);
      var w, v, c := g[k-1].weight, g[k-1].value, y[k-1];
      assert w * (v - c) == w * v - w * c;
    }
  }

  /** The input bins with their values replaced by the fit. */
  function Fitted(g: seq<Point>, y: seq<real>): (f: seq<Point>)
    requires |y| == |g|
    ensures |f| == |g|
    ensures forall i | 0 <= i < |g| :: f[i] == Point(g[i].weight, y[i])
  {
    seq(|g|, i requires 0 <= i < |g| => Point(g[i].weight, y[i]))
  }

  /** Pooling moves mass between bins but neither creates nor destroys any. */
  lemma {:induction false} MassConserved(g: seq<Point>, y: seq<real>)
    requires IsProjection(g, y)
    ensures Mass(Fitted(g, y)) == Mass(g)
  {
    FitMass(g, y, |g|);
    assert g[..|g|] == g && Fitted(g, y)[..|g|] == Fitted(g, y);
  }

  /** The end of the level that starts at `a`. */
  ghost function LevelEnd(y: seq<real>, a: nat, b: nat): (e: nat)
    requires a < b <= |y| && forall i | a <= i < b :: y[i] == y[a]
    ensures b <= e <= |y| && (forall i | a <= i < e :: y[i] == y[a])
    ensures e < |y| ==> y[e] != y[a]
    decreases |y| - b
  {
    if b < |y| && y[b] == y[a] then LevelEnd(y, a, b + 1) else b
  }

  ghost function LevelStart(y: seq<real>, a: nat, b: nat): (s: nat)
    requires a < b <= |y| && forall i | a <= i < b :: y[i] == y[b-1]
    ensures s <= a && (forall i | s <= i < b :: y[i] == y[b-1])
    ensures s > 0 ==> y[s-1] != y[b-1]
  {
    if a > 0 && y[a-1] == y[b-1] then LevelStart(y, a - 1, b) else a
  }

  lemma {:induction false} PositiveSlice(g: seq<Point>, a: nat, b: nat)
    requires Positive(g) && a <= b <= |g|
    ensures Positive(g[a..b])
  {
  }

  /** A level of the fit lies in the range of the inputs standing on it. */
  lemma {:induction false} LevelInRange(g: seq<Point>, y: seq<real>, a: nat, b: nat, lo: real, hi: real)
    requires |y| == |g| && Positive(g) && IsProjection(g, y) && a < b <= |g|
    requires forall i | 0 <= i < |g| :: lo <= g[i].value <= hi
    requires forall i | a <= i < b :: y[i] == y[a]
    requires a > 0 ==> y[a-1] < y[a]
    requires b < |g| ==> y[b-1] < y[b]
    ensures lo <= y[a] <= hi
  {
    hide *;
    PositiveSlice(g, a, b);
    LevelIsWeightedMean(g, y, a, b);
    MassBounds(g[a..b], lo, hi);
    MeanInRange(y[a], Weight(g[a..b]), Mass(g[a..b]), lo, hi);
  }

  /** The fit never leaves the range of its inputs. */
  lemma {:induction false} ProjectionInRange(g: seq<Point>, y: seq<real>, lo: real, hi: real)
    requires |y| == |g| && Positive(g) && IsProjection(g, y)
    requires forall i | 0 <= i < |g| :: lo <= g[i].value <= hi
    ensures forall i | 0 <= i < |g| :: lo <= y[i] <= hi
  {
    hide *;
    if |g| > 0 {
      var n := |g|;
      var s, e := OuterLevels(g, y);
      LevelInRange(g, y, 0, e, lo, hi);
      LevelInRange(g, y, s, n, lo, hi);
    }
  }

  /** The first and the last level of the fit; every value lies between theirs. */
  lemma {:induction false} OuterLevels(g: seq<Point>, y: seq<real>) returns (s: nat, e: nat)
    requires |y| == |g| > 0 && IsProjection(g, y)
    ensures 0 < e <= |y| && (forall i | 0 <= i < e :: y[i] == y[0]) && (e < |y| ==> y[e-1] < y[e])
    ensures s < |y| && (forall i | s <= i < |y| :: y[i] == y[s]) && (s > 0 ==> y[s-1] < y[s])
    ensures forall i | 0 <= i < |y| :: y[0] <= y[i] <= y[s]
  {
    e := LevelEnd(y, 0, 1);
    s := LevelStart(y, |y| - 1, |y|);
    assert NonDecreasing(y);
  }

  lemma {:induction false} MeanInRange(c: real, w: real, mass: real, lo: real, hi: real)
    requires w > 0.0 && mass == c * w && lo * w <= mass <= hi * w
    ensures lo <= c <= hi
  {
    SignOfProduct(lo - c, w);
    SignOfProduct(c - hi, w);
  }

  lemma {:induction false} MassBounds(g: seq<Point>, lo: real, hi: real)
    requires Positive(g) && forall i | 0 <= i < |g| :: lo <= g[i].value <= hi
    ensures lo * Weight(g) <= Mass(g) <= hi * Weight(g)
    ensures |g| > 0 ==> Weight(g) > 0.0
    ensures Weight(g) >= 0.0
  {
    if |g| > 0 {
      var n := |g| - 1;
      MassBounds(g[..n], lo, hi);
      MassStep(Weight(g[..n]), Mass(g[..n]), g[n].weight, g[n].value, lo, hi);
    }
  }

  lemma {:induction false} MassStep(weight: real, mass: real, w: real, v: real, lo: real, hi: real)
    requires lo * weight <= mass <= hi * weight && w > 0.0 && lo <= v <= hi
    ensures lo * (weight + w) <= mass + w * v <= hi * (weight + w)
  {
    SignOfProduct(v - lo, w);
    SignOfProduct(hi - v, w);
    assert (v - lo) * w == w * v - lo * w && (hi - v) * w == hi * w - w * v;
    assert lo * (weight + w) == lo * weight + lo * w && hi * (weight + w) == hi * weight + hi * w;
  }

  // ----- pooled blocks -----

  ghost function Weight(g: seq<Point>): real {
    if g == [] then 0.0 else Weight(g[..|g|-1]) + g[|g|-1].weight
  }

  ghost function Mass(g: seq<Point>): real {
    if g == [] then 0.0 else Mass(g[..|g|-1]) + g[|g|-1].weight * g[|g|-1].value
  }

  /** Weighted mass by which the first `k` bins of a block exceed the block's value. */
  ghost function Excess(g: seq<Point>, c: real, k: nat): real
    requires k <= |g|
  {
    if k == 0 then 0.0 else Excess(g, c, k - 1) + g[k-1].weight * (g[k-1].value - c)
  }

  /** A block: its value is the mean of its bins, and every prefix mean is at least that. */
  ghost predicate IsPool(g: seq<Point>, b: Block) {
    && 0 < b.bins == |g|
    && b.weight == Weight(g)
    && (forall k | 0 <= k <= |g| :: Excess(g, b.value, k) >= 0.0)
    && Excess(g, b.value, |g|) == 0.0
  }

  lemma {:induction false} ExcessPrefix(g: seq<Point>, c: real, n: nat, k: nat)
    requires k <= n <= |g|
    ensures Excess(g[..n], c, k) == Excess(g, c, k)
  {
    if k > 0 {
      ExcessPrefix(g, c, n, k - 1);
    }
  }

  lemma {:induction false} ExcessConcat(g: seq<Point>, h: seq<Point>, c: real, k: nat)
    requires k <= |h|
    ensures Excess(g + h, c, |g| + k) == Excess(g, c, |g|) + Excess(h, c, k)
  {
    if k == 0 {
      assert (g + h)[..|g|] == g;
      ExcessPrefix(g + h, c, |g|, |g|);
    } else {
      ExcessConcat(g, h, c, k - 1);
      assert (g + h)[|g| + k - 1] == h[k-1];
    }
  }

  lemma {:induction false} WeightConcat(g: seq<Point>, h: seq<Point>)
    ensures Weight(g + h) == Weight(g) + Weight(h)
  {
    if h == [] {
      assert g + h == g;
    } else {
      WeightConcat(g, h[..|h|-1]);
      assert (g + h)[..|g + h| - 1] == g + h[..|h|-1];
    }
  }

  lemma {:induction false} ExcessIsMassMinusWeight(g: seq<Point>, c: real, k: nat)
    requires k <= |g|
    ensures Excess(g, c, k) == Mass(g[..k]) - c * Weight(g[..k])
  {
    if k > 0 {
      ExcessIsMassMinusWeight(g, c, k - 1);
      assert g[..k][..k-1] == g[..k-1];
      var w, v, t := g[k-1].weight, g[k-1].value, Weight(g[..k-1]);
      assert w * (v - c) == w * v - c * w;
      assert c * (t + w) == c * t + c * w;
    }
  }

  /** Moving the reference value shifts the excess by the weight seen so far. */
  lemma {:induction false} ExcessShift(g: seq<Point>, c: real, d: real, k: nat)
    requires k <= |g|
    ensures Excess(g, d, k) == Excess(g, c, k) + Times(c - d, Weight(g[..k]))
  {
    ExcessIsMassMinusWeight(g, c, k);
    ExcessIsMassMinusWeight(g, d, k);
    var t := Weight(g[..k]);
    assert (c - d) * t == c * t - d * t;
  }

  lemma {:induction false} PrefixWeight(g: seq<Point>, k: nat)
    requires Positive(g) && k <= |g|
    ensures 0.0 <= Weight(g[..k]) <= Weight(g)
    ensures |g| > 0 ==> Weight(g) > 0.0
  {
    assert g[..k] + g[k..] == g;
    WeightConcat(g[..k], g[k..]);
    WeightPositive(g[..k]);
    WeightPositive(g[k..]);
    WeightPositive(g);
  }

  lemma {:induction false} WeightPositive(g: seq<Point>)
    requires Positive(g)
    ensures Weight(g) >= 0.0 && (|g| > 0 ==> Weight(g) > 0.0)
  {
    if |g| > 0 {
      WeightPositive(g[..|g|-1]);
    }
  }

  /** Products kept folded, so that the lemmas below reason about them by the two laws. */
  ghost function Times(x: real, w: real): real { x * w }

  lemma {:induction false} TimesMono(x: real, a: real, b: real)
    requires x >= 0.0 && a <= b
    ensures Times(x, a) <= Times(x, b)
    ensures Times(x, 0.0) == 0.0
  {
    if a < b {
      SignOfProduct(x, b - a);
      assert x * (b - a) == x * b - x * a;
    }
  }

  lemma {:induction false} TimesNegate(b: real, c: real, w: real)
    ensures Times(b - c, w) == -Times(c - b, w)
  {
  }

  function Pooled(left: Block, right: Block): Block
    requires left.weight + right.weight != 0.0
  {
    var total := left.weight + right.weight;
    Block(total, (left.value * left.weight + right.value * right.weight) / total, left.bins + right.bins)
  }

  /** The pooled value lies between the two, at the point that balances them. */
  lemma {:induction false} PoolBalances(left: Block, right: Block)
    requires left.weight > 0.0 && right.weight > 0.0 && left.value >= right.value
    ensures Pooled(left, right).weight == left.weight + right.weight
    ensures Pooled(left, right).bins == left.bins + right.bins
    ensures var c := Pooled(left, right).value;
      && right.value <= c <= left.value
      && Times(left.value - c, left.weight) == Times(c - right.value, right.weight)
  {
    var total := left.weight + right.weight;
    var c := Pooled(left, right).value;
    assert c * total == left.value * left.weight + right.value * right.weight;
    assert c * total == c * left.weight + c * right.weight;
    assert (left.value - c) * left.weight == left.value * left.weight - c * left.weight;
    assert (c - right.value) * right.weight == c * right.weight - right.value * right.weight;
    SignOfProduct(left.value - c, left.weight);
    SignOfProduct(c - right.value, right.weight);
  }

  lemma {:induction false} PoolFacts(g: seq<Point>, b: Block, k: nat)
    requires IsPool(g, b) && k <= |g|
    ensures b.weight == Weight(g) && Excess(g, b.value, k) >= 0.0 && Excess(g, b.value, |g|) == 0.0
    ensures 0 < b.bins == |g|
  {
  }

  /** The excess of a pool's prefix over another reference value, as a product. */
  lemma {:induction false} ShiftedPool(g: seq<Point>, b: Block, c: real, k: nat) returns (e: real, t: real)
    requires Positive(g) && IsPool(g, b) && k <= |g|
    ensures Excess(g, c, k) == e + Times(b.value - c, t)
    ensures e >= 0.0 && 0.0 <= t <= b.weight
    ensures k == |g| ==> e == 0.0 && t == b.weight
  {
    hide *;
    PoolFacts(g, b, k);
    ExcessShift(g, b.value, c, k);
    PrefixWeight(g, k);
    e, t := Excess(g, b.value, k), Weight(g[..k]);
    assert g[..|g|] == g;
  }

  /** Lowering the reference value keeps every prefix of a pool above it. */
  lemma {:induction false} LoweredPool(g: seq<Point>, b: Block, c: real, k: nat)
    requires Positive(g) && IsPool(g, b) && c <= b.value && k <= |g|
    ensures Excess(g, c, k) >= 0.0
    ensures k == |g| ==> Excess(g, c, k) == Times(b.value - c, b.weight)
  {
    hide *;
    var e, t := ShiftedPool(g, b, c, k);
    TimesMono(b.value - c, 0.0, t);
  }

  /** Raising it costs a prefix at most what it costs the whole pool. */
  lemma {:induction false} RaisedPool(g: seq<Point>, b: Block, c: real, k: nat)
    requires Positive(g) && IsPool(g, b) && c >= b.value && k <= |g|
    ensures Excess(g, c, k) >= -Times(c - b.value, b.weight)
    ensures k == |g| ==> Excess(g, c, k) == -Times(c - b.value, b.weight)
  {
    hide *;
    var e, t := ShiftedPool(g, b, c, k);
    TimesMono(c - b.value, t, b.weight);
    TimesNegate(b.value, c, t);
  }

  /** Pooling two violating blocks gives a block again: the stack invariant. */
  lemma {:induction false} PoolOfPools(g: seq<Point>, h: seq<Point>, left: Block, right: Block)
    requires Positive(g) && Positive(h)
    requires IsPool(g, left) && IsPool(h, right) && left.value >= right.value
    ensures left.weight > 0.0 && right.weight > 0.0
    ensures IsPool(g + h, Pooled(left, right))
  {
    hide *;
    PoolFacts(g, left, 0);
    PoolFacts(h, right, 0);
    WeightPositive(g);
    WeightPositive(h);
    WeightConcat(g, h);
    PoolBalances(left, right);
    var b := Pooled(left, right);
    LoweredPool(g, left, b.value, |g|);
    RaisedPool(h, right, b.value, |h|);
    ExcessConcat(g, h, b.value, |h|);
    var lift := Excess(g, b.value, |g|);
    assert lift == Times(b.value - right.value, right.weight);
    forall k | 0 <= k <= |g + h|
      ensures Excess(g + h, b.value, k) >= 0.0
    {
      if k <= |g| {
        assert (g + h)[..|g|] == g;
        ExcessPrefix(g + h, b.value, |g|, k);
        LoweredPool(g, left, b.value, k);
      } else {
        ExcessConcat(g, h, b.value, k - |g|);
        RaisedPool(h, right, b.value, k - |g|);
        assert Excess(h, b.value, k - |g|) >= -lift;
      }
    }
    PoolFromFacts(g + h, b);
  }

  lemma {:induction false} PoolFromFacts(g: seq<Point>, b: Block)
    requires 0 < b.bins == |g| && b.weight == Weight(g)
    requires forall k | 0 <= k <= |g| :: Excess(g, b.value, k) >= 0.0
    requires Excess(g, b.value, |g|) == 0.0
    ensures IsPool(g, b)
  {
  }

  lemma {:induction false} SingletonPool(p: Point)
    ensures IsPool([p], Block(p.weight, p.value, 1))
  {
    assert Weight([p]) == Weight([p][..0]) + p.weight;
    assert Excess([p], p.value, 1) == Excess([p], p.value, 0) + p.weight * (p.value - p.value);
  }

  // ----- the stack -----

  /** The stack cuts `g` into consecutive pools, bottom first. */
  ghost predicate Covers(stack: seq<Block>, g: seq<Point>) {
    if stack == [] then g == []
    else
      var b := stack[|stack|-1];
      && b.bins <= |g|
      && IsPool(g[|g|-b.bins..], b)
      && Covers(stack[..|stack|-1], g[..|g|-b.bins])
  }

  ghost predicate Rising(stack: seq<Block>) {
    forall i, j | 0 <= i < j < |stack| :: stack[i].value <= stack[j].value
  }

  /** One value per absorbed bin. */
  function Expand(stack: seq<Block>): seq<real> {
    if stack == [] then []
    else Expand(stack[..|stack|-1]) + Repeat(stack[|stack|-1].value, stack[|stack|-1].bins)
  }

  function Repeat(v: real, n: nat): (r: seq<real>)
    ensures |r| == n && forall i | 0 <= i < n :: r[i] == v
  {
    seq(n, _ => v)
  }

  lemma {:induction false} ResidualPrefix(g: seq<Point>, y: seq<real>, n: nat, k: nat)
    requires |y| == |g| && k <= n <= |g|
    ensures Residual(g[..n], y[..n], k) == Residual(g, y, k)
  {
    if k > 0 {
      ResidualPrefix(g, y, n, k - 1);
    }
  }

  lemma {:induction false} ResidualExtend(g: seq<Point>, y: seq<real>, m: nat, c: real, k: nat)
    requires |y| == |g| && m <= k <= |g| && forall i | m <= i < |g| :: y[i] == c
    ensures Residual(g, y, k) == Residual(g, y, m) + Excess(g[m..], c, k - m)
    decreases k
  {
    if k > m {
      ResidualExtend(g, y, m, c, k - 1);
      assert g[m..][k - 1 - m] == g[k-1];
    }
  }

  lemma {:induction false} ExpandLast(stack: seq<Block>, top: real)
    requires forall i | 0 <= i < |stack| :: stack[i].value <= top
    ensures forall i | 0 <= i < |Expand(stack)| :: Expand(stack)[i] <= top
  {
    if stack != [] {
      ExpandLast(stack[..|stack|-1], top);
    }
  }

  lemma {:induction false} ExpandLength(stack: seq<Block>, g: seq<Point>)
    requires Covers(stack, g)
    ensures |Expand(stack)| == |g|
  {
    if stack != [] {
      ExpandLength(stack[..|stack|-1], g[..|g|-stack[|stack|-1].bins]);
    }
  }

  /** A rising stack of pools spells out the projection. */
  lemma {:induction false} StackIsProjection(stack: seq<Block>, g: seq<Point>)
    requires Covers(stack, g) && Rising(stack)
    ensures IsProjection(g, Expand(stack))
  {
    if stack != [] {
      var n := |stack| - 1;
      var b, below := stack[n], stack[..n];
      var m := |g| - b.bins;
      StackIsProjection(below, g[..m]);
      ExpandLast(below, b.value);
      var y := Expand(stack);
      assert y[..m] == Expand(below);
      forall k | 0 <= k <= |g|
        ensures Residual(g, y, k) >= 0.0 && (k == m || k == |g| ==> Residual(g, y, k) == 0.0)
        ensures 0 < k < |g| && y[k-1] < y[k] ==> Residual(g, y, k) == 0.0
      {
        ResidualPrefix(g, y, m, m);
        if k <= m {
          ResidualPrefix(g, y, m, k);
          assert 0 < k < m ==> y[k-1] == y[..m][k-1] && y[k] == y[..m][k];
        } else {
          ResidualExtend(g, y, m, b.value, k);
        }
      }
      assert NonDecreasing(y) by {
        forall i, j | 0 <= i < j < |y|
          ensures y[i] <= y[j]
        {
          if j < m {
            assert y[i] == y[..m][i] && y[j] == y[..m][j];
          } else if i < m {
            assert y[i] == Expand(below)[i];
          }
        }
      }
    }
  }

  // ----- the algorithm -----

  /** One pop: the popped block and the current one pool over adjacent stretches of `g`. */
  lemma {:induction false} PopStep(g: seq<Point>, stack: seq<Block>, block: Block, m: nat, i: nat)
    requires Positive(g) && m <= i <= |g| && stack != []
    requires Covers(stack, g[..m]) && Rising(stack) && IsPool(g[m..i], block)
    requires stack[|stack|-1].value >= block.value
    ensures stack[|stack|-1].bins <= m
    ensures stack[|stack|-1].weight > 0.0 && block.weight > 0.0
    ensures Covers(stack[..|stack|-1], g[..m - stack[|stack|-1].bins]) && Rising(stack[..|stack|-1])
    ensures IsPool(g[m - stack[|stack|-1].bins..i], Pooled(stack[|stack|-1], block))
  {
    var previous := stack[|stack|-1];
    var m' := m - previous.bins;
    assert g[..m][m'..] == g[m'..m] && g[..m][..m'] == g[..m'];
    PoolOfPools(g[m'..m], g[m..i], previous, block);
    assert g[m'..m] + g[m..i] == g[m'..i];
  }

  lemma {:induction false} PushStep(g: seq<Point>, stack: seq<Block>, block: Block, m: nat, i: nat)
    requires m <= i <= |g| && Covers(stack, g[..m]) && Rising(stack) && IsPool(g[m..i], block)
    requires stack == [] || stack[|stack|-1].value <= block.value
    ensures Covers(stack + [block], g[..i]) && Rising(stack + [block])
  {
    assert g[..i][m..] == g[m..i] && g[..i][..m] == g[..m];
    assert (stack + [block])[..|stack|] == stack;
  }

  lemma {:induction false} ExpandStep(stack: seq<Block>, j: nat)
    requires j < |stack|
    ensures Expand(stack[..j+1]) == Expand(stack[..j]) + Repeat(stack[j].value, stack[j].bins)
  {
    assert stack[..j+1][..j] == stack[..j];
  }

  lemma {:induction false} EmptyStack()
    ensures Covers([], []) && Rising([]) && Expand([]) == []
  {
  }

  /** Pool-adjacent-violators: push each bin, pooling with the top of the stack while that top
      is larger.  `pops` counts how often a block was taken off the stack in total. */
  method PoolAdjacentViolators(groups: seq<Point>) returns (values: seq<real>, ghost pops: nat)
    requires Positive(groups)
    ensures IsProjection(groups, values)
    ensures |values| == |groups| && pops <= |groups|
  {
    hide *;
    EmptyStack();
    var stack: seq<Block> := [];
    pops := 0;
    assert groups[..0] == [];
    for i := 0 to |groups|
      invariant Covers(stack, groups[..i]) && Rising(stack)
      invariant pops + |stack| == i
    {
      var block := Block(groups[i].weight, groups[i].value, 1);
      ghost var m: nat := i;
      assert groups[m..i+1] == [groups[i]];
      SingletonPool(groups[i]);
      while stack != [] && stack[|stack|-1].value > block.value
        invariant m <= i && Covers(stack, groups[..m]) && Rising(stack)
        invariant IsPool(groups[m..i+1], block)
        invariant pops + |stack| == i
        decreases |stack|
      {
        var previous := stack[|stack|-1];
        PopStep(groups, stack, block, m, i + 1);
        stack := stack[..|stack|-1];
        block := Pooled(previous, block);
        m := m - previous.bins;
        pops := pops + 1;
      }
      PushStep(groups, stack, block, m, i + 1);
      stack := stack + [block];
    }
    assert groups[..|groups|] == groups;
    StackIsProjection(stack, groups);
    values := [];
    assert stack[..0] == [];
    for j := 0 to |stack|
      invariant values == Expand(stack[..j])
    {
      ExpandStep(stack, j);
      values := values + Repeat(stack[j].value, stack[j].bins);
    }
    assert stack[..|stack|] == stack;
    ExpandLength(stack, groups);
  }
}
