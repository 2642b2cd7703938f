/** Fitting a calibration map, writing it down, and measuring it (eval/calibration.py), against
    the loader's contract for such maps (engine/config_loader.py). */
module Calibration {
  import opened Sorting
  import opened Grouping
  import Isotonic

  /** Raw scores at or below `upper` are worth `confidence`. */
  datatype Bin = Bin(upper: real, confidence: real)

  const MAX_SCORE := 1.0
  const UNCALIBRATED_CONFIDENCE := 0.0

  // ----- the fit, piece by piece -----

  function CorrectCount(g: seq<Outcome>): (n: nat)
    ensures n <= |g|
  {
    if g == [] then 0 else CorrectCount(g[..|g|-1]) + if Last(g).correct then 1 else 0
  }

  function Accuracy(g: seq<Outcome>): (a: real)
    ensures 0.0 <= a <= 1.0
  {
    if g == [] then 0.0 else Share(CorrectCount(g), |g|)
  }

  function Share(part: nat, whole: nat): (r: real)
    requires part <= whole && whole > 0
    ensures 0.0 <= r <= 1.0
    ensures part == whole ==> r == 1.0
    ensures r == 0.0 <==> part == 0
  {
    var r := part as real / whole as real;
    assert r * whole as real == part as real;
    Isotonic.SignOfProduct(r, whole as real);
    Isotonic.SignOfProduct(1.0 - r, whole as real);
    r
  }

  lemma {:induction false} ShareIs(part: nat, whole: nat)
    requires part <= whole && whole > 0
    ensures Share(part, whole) * whole as real == part as real
  {
  }

  /** The count is the number of places at which a correct sample stands. */
  lemma {:induction false} CountIsCardinality(g: seq<Outcome>)
    ensures CorrectCount(g) == |set i: nat | i < |g| && g[i].correct|
  {
    if g != [] {
      var n := |g| - 1;
      var before, all := set i: nat | i < n && g[..n][i].correct, set i: nat | i < |g| && g[i].correct;
      CountIsCardinality(g[..n]);
      assert g[..n] + [g[n]] == g;
      assert all == before + if g[n].correct then {n} else {};
    }
  }

  /** A group's accuracy is its share of correct samples. */
  lemma {:induction false} AccuracyIsShare(g: seq<Outcome>)
    requires g != []
    ensures Accuracy(g) * |g| as real == |set i: nat | i < |g| && g[i].correct| as real
  {
    CountIsCardinality(g);
    ShareIs(CorrectCount(g), |g|);
  }

  lemma {:induction false} CountConcat(a: seq<Outcome>, b: seq<Outcome>)
    ensures CorrectCount(a + b) == CorrectCount(a) + CorrectCount(b)
  {
    if b == [] {
      assert a + b == a;
    } else {
      assert (a + b)[..|a + b| - 1] == a + b[..|b|-1];
      CountConcat(a, b[..|b|-1]);
    }
  }

  lemma {:induction false} CountOne(o: Outcome)
    ensures CorrectCount([o]) == if o.correct then 1 else 0
  {
    assert [o][..0] == [] && CorrectCount([]) == 0;
  }

  lemma {:induction false} CountInsert(x: Outcome, s: seq<Outcome>, le: (Outcome, Outcome) -> bool)
    ensures CorrectCount(Insert(x, s, le)) == CorrectCount([x]) + CorrectCount(s)
  {
    hide CorrectCount;
    if s == [] || le(x, s[0]) {
      CountConcat([x], s);
    } else {
      CountInsert(x, s[1..], le);
      CountConcat([s[0]], Insert(x, s[1..], le));
      CountConcat([s[0]], s[1..]);
      assert s == [s[0]] + s[1..];
    }
  }

  /** Sorting a sample keeps its number of correct outcomes. */
  lemma {:induction false} CountSort(s: seq<Outcome>, le: (Outcome, Outcome) -> bool)
    ensures CorrectCount(Sort(s, le)) == CorrectCount(s)
  {
    hide CorrectCount;
    if s != [] {
      CountSort(s[1..], le);
      CountInsert(s[0], Sort(s[1..], le), le);
      CountConcat([s[0]], s[1..]);
      assert s == [s[0]] + s[1..];
    }
  }

  function Points(groups: seq<seq<Outcome>>): (p: seq<Isotonic.Point>)
    ensures |p| == |groups|
    ensures forall i | 0 <= i < |p| :: p[i] == Isotonic.Point(|groups[i]| as real, Accuracy(groups[i]))
  {
    seq(|groups|, i requires 0 <= i < |groups| => Isotonic.Point(|groups[i]| as real, Accuracy(groups[i])))
  }

  /** One bin per group, ending at the group's last score; the last one ends at 1.0. */
  function RawBins(groups: seq<seq<Outcome>>, pooled: seq<real>): (b: seq<Bin>)
    requires |groups| == |pooled| && forall i | 0 <= i < |groups| :: groups[i] != []
    ensures |b| == |groups|
    ensures forall i | 0 <= i < |b| ::
              b[i] == Bin(if i == |groups| - 1 then MAX_SCORE else Last(groups[i]).score, pooled[i])
  {
    seq(|groups|, i requires 0 <= i < |groups| =>
      Bin(if i == |groups| - 1 then MAX_SCORE else Last(groups[i]).score, pooled[i]))
  }

  // ----- one bin per bound -----

  const BY_UPPER: (Bin, Bin) -> bool := (a: Bin, b: Bin) => a.upper <= b.upper

  /** The first bin of every bound among the first `k` bins, in order of appearance. */
  function FirstPerUpper(bins: seq<Bin>, k: nat): seq<Bin>
    requires k <= |bins|
  {
    if k == 0 then []
    else
      var kept := FirstPerUpper(bins, k - 1);
      if HasUpper(kept, bins[k-1].upper) then kept else kept + [bins[k-1]]
  }

  predicate HasUpper(bins: seq<Bin>, upper: real) {
    exists i | 0 <= i < |bins| :: bins[i].upper == upper
  }

  function DropDuplicates(bins: seq<Bin>): seq<Bin> {
    Sort(FirstPerUpper(bins, |bins|), BY_UPPER)
  }

  ghost predicate Rising(bins: seq<Bin>) {
    forall i, j | 0 <= i < j < |bins| :: bins[i].upper < bins[j].upper
  }

  /** The bin at `i` is the first of its bound. */
  ghost predicate IsFirst(bins: seq<Bin>, i: nat) {
    && i < |bins|
    && forall j | 0 <= j < i :: bins[j].upper != bins[i].upper
  }

  /** Some first bin of its bound among the first `k` is `b`. */
  ghost predicate Survives(bins: seq<Bin>, k: nat, b: Bin)
    requires k <= |bins|
  {
    exists i | 0 <= i < k :: IsFirst(bins, i) && bins[i] == b
  }

  ghost predicate DistinctUppers(bins: seq<Bin>) {
    forall i, j | 0 <= i < j < |bins| :: bins[i].upper != bins[j].upper
  }

  lemma {:induction false} FirstPerUpperCovers(bins: seq<Bin>, k: nat, u: real)
    requires k <= |bins|
    ensures HasUpper(FirstPerUpper(bins, k), u) <==> HasUpper(bins[..k], u)
    ensures DistinctUppers(FirstPerUpper(bins, k))
  {
    if k > 0 {
      FirstPerUpperCovers(bins, k - 1, u);
      var kept, last := FirstPerUpper(bins, k - 1), bins[k-1];
      assert bins[..k] == bins[..k-1] + [last];
      HasUpperAppend(bins[..k-1], last, u);
      HasUpperAppend(kept, last, u);
    }
  }

  lemma {:induction false} HasUpperAppend(bins: seq<Bin>, last: Bin, u: real)
    ensures HasUpper(bins + [last], u) <==> HasUpper(bins, u) || last.upper == u
  {
    if HasUpper(bins, u) {
      var i :| 0 <= i < |bins| && bins[i].upper == u;
      assert (bins + [last])[i].upper == u;
    }
    if last.upper == u {
      assert (bins + [last])[|bins|].upper == u;
    }
  }

  lemma {:induction false} FirstPerUpperMembers(bins: seq<Bin>, k: nat, b: Bin)
    requires k <= |bins|
    ensures b in FirstPerUpper(bins, k) <==> Survives(bins, k, b)
  {
    hide HasUpper, IsFirst, Survives;
    SurvivesNone(bins, b);
    if k > 0 {
      FirstPerUpperMembers(bins, k - 1, b);
      FirstPerUpperCovers(bins, k - 1, bins[k-1].upper);
      FirstIffNew(bins, k - 1);
      SurvivesStep(bins, k, b);
    }
  }

  lemma {:induction false} FirstIffNew(bins: seq<Bin>, k: nat)
    requires k < |bins|
    ensures IsFirst(bins, k) <==> !HasUpper(bins[..k], bins[k].upper)
  {
    forall j | 0 <= j < k
      ensures bins[..k][j] == bins[j]
    {
    }
  }

  lemma {:induction false} SurvivesNone(bins: seq<Bin>, b: Bin)
    ensures !Survives(bins, 0, b)
  {
  }

  lemma {:induction false} SurvivesStep(bins: seq<Bin>, k: nat, b: Bin)
    requires 0 < k <= |bins|
    ensures Survives(bins, k, b) <==> Survives(bins, k - 1, b) || (IsFirst(bins, k - 1) && bins[k-1] == b)
  {
  }

  lemma {:induction false} DistinctSortRises(kept: seq<Bin>)
    requires DistinctUppers(kept)
    ensures Rising(Sort(kept, BY_UPPER))
    ensures forall b :: b in Sort(kept, BY_UPPER) <==> b in kept
  {
    var r := Sort(kept, BY_UPPER);
    assert TotalPreorder(BY_UPPER);
    SortSorted(kept, BY_UPPER);
    SortPermutes(kept, BY_UPPER);
    SameElements(r, kept);
    var apart := (a: Bin, b: Bin) => a.upper != b.upper;
    assert Pairwise(kept, apart);
    SortPairwise(kept, BY_UPPER, apart);
    forall i, j | 0 <= i < j < |r|
      ensures r[i].upper < r[j].upper
    {
      assert BY_UPPER(r[i], r[j]) && apart(r[i], r[j]);
    }
  }

  /** Bounds rise strictly, none is lost, and a bin survives exactly when it is the first of
      its bound. */
  lemma {:induction false} DropDuplicatesSpec(bins: seq<Bin>)
    ensures Rising(DropDuplicates(bins))
    ensures forall b :: b in DropDuplicates(bins) <==> Survives(bins, |bins|, b)
    ensures forall u :: HasUpper(DropDuplicates(bins), u) <==> HasUpper(bins, u)
  {
    var kept := FirstPerUpper(bins, |bins|);
    assert bins[..|bins|] == bins;
    FirstPerUpperCovers(bins, |bins|, 0.0);
    DistinctSortRises(kept);
    forall b
      ensures b in DropDuplicates(bins) <==> Survives(bins, |bins|, b)
    {
      FirstPerUpperMembers(bins, |bins|, b);
    }
    forall u
      ensures HasUpper(DropDuplicates(bins), u) <==> HasUpper(bins, u)
    {
      FirstPerUpperCovers(bins, |bins|, u);
      SameUppers(DropDuplicates(bins), kept, u);
      SameUppers(kept, DropDuplicates(bins), u);
    }
  }

  lemma {:induction false} SameUppers(a: seq<Bin>, b: seq<Bin>, u: real)
    requires forall x :: x in a ==> x in b
    ensures HasUpper(a, u) ==> HasUpper(b, u)
  {
    if HasUpper(a, u) {
      var i :| 0 <= i < |a| && a[i].upper == u;
      assert a[i] in b;
      var j :| 0 <= j < |b| && b[j] == a[i];
    }
  }

  lemma {:induction false} NothingToDrop(bins: seq<Bin>, k: nat)
    requires Rising(bins) && k <= |bins|
    ensures FirstPerUpper(bins, k) == bins[..k]
  {
    if k > 0 {
      NothingToDrop(bins, k - 1);
    }
  }

  lemma {:induction false} RisingIsKept(bins: seq<Bin>)
    requires Rising(bins)
    ensures DropDuplicates(bins) == bins
  {
    NothingToDrop(bins, |bins|);
    assert bins[..|bins|] == bins;
    assert Sorted(bins, BY_UPPER);
    SortedIsFixed(bins, BY_UPPER);
  }

  /** The bin at `i` is the last of its bound. */
  ghost predicate IsLast(bins: seq<Bin>, i: nat) {
    && i < |bins|
    && forall j | i < j < |bins| :: bins[j].upper != bins[i].upper
  }

  /** What is documented is that the last bin of a bound is kept.  That is so exactly when the first
      and the last bin of every bound carry the same confidence. */
  lemma {:induction false} KeepsLastIff(bins: seq<Bin>)
    ensures (forall j | 0 <= j < |bins| && IsLast(bins, j) :: bins[j] in DropDuplicates(bins))
            <==> forall i, j | 0 <= i <= j < |bins| && IsFirst(bins, i) && IsLast(bins, j) && bins[i].upper == bins[j].upper ::
                   bins[i].confidence == bins[j].confidence
  {
    hide DropDuplicates;
    DropDuplicatesSpec(bins);
    forall j | 0 <= j < |bins| && IsLast(bins, j)
      ensures bins[j] in DropDuplicates(bins) <==>
              forall i | 0 <= i <= j && IsFirst(bins, i) && bins[i].upper == bins[j].upper :: bins[i].confidence == bins[j].confidence
    {
      var first := FirstOf(bins, j);
      assert bins[j] in DropDuplicates(bins) <==> Survives(bins, |bins|, bins[j]);
    }
  }

  lemma {:induction false} FirstOf(bins: seq<Bin>, i: nat) returns (j: nat)
    requires i < |bins|
    ensures j <= i && IsFirst(bins, j) && bins[j].upper == bins[i].upper
    decreases i
  {
    j := i;
    if k :| 0 <= k < i && bins[k].upper == bins[i].upper {
      j := FirstOf(bins, k);
    }
  }

  /** The map and the key order of the source's dict. */
  ghost predicate Mirrors(kept: map<real, Bin>, order: seq<Bin>) {
    && (forall u :: u in kept <==> HasUpper(order, u))
    && (forall i | 0 <= i < |order| :: order[i].upper in kept && kept[order[i].upper] == order[i])
  }

  lemma {:induction false} MirrorsStep(kept: map<real, Bin>, order: seq<Bin>, b: Bin)
    requires Mirrors(kept, order) && b.upper !in kept
    ensures Mirrors(kept[b.upper := b], order + [b])
  {
    hide HasUpper;
    forall u
      ensures HasUpper(order + [b], u) <==> HasUpper(order, u) || b.upper == u
    {
      HasUpperAppend(order, b, u);
    }
  }

  lemma {:induction false} MirrorHolds(kept: map<real, Bin>, order: seq<Bin>, b: Bin)
    requires Mirrors(kept, order) && b in order
    ensures b.upper in kept && kept[b.upper] == b
  {
    var k :| 0 <= k < |order| && order[k] == b;
  }

  /** The source's dict of bounds: the keys in insertion order beside the map itself. */
  method DropDuplicateUppers(bins: seq<Bin>) returns (r: seq<Bin>)
    ensures r == DropDuplicates(bins)
  {
    var kept: map<real, Bin> := map[];
    var order: seq<Bin> := [];
    for k := 0 to |bins|
      invariant order == FirstPerUpper(bins, k)
      invariant Mirrors(kept, order)
    {
      if bins[k].upper !in kept {
        MirrorsStep(kept, order, bins[k]);
        kept := kept[bins[k].upper := bins[k]];
        order := order + [bins[k]];
      }
    }
    r := KeptInOrder(kept, order);
  }

  method KeptInOrder(kept: map<real, Bin>, order: seq<Bin>) returns (r: seq<Bin>)
    requires Mirrors(kept, order)
    ensures r == Sort(order, BY_UPPER)
  {
    hide Mirrors;
    r := [];
    var sorted := Sort(order, BY_UPPER);
    SortPermutes(order, BY_UPPER);
    SameElements(sorted, order);
    for i := 0 to |sorted|
      invariant r == sorted[..i]
    {
      MirrorHolds(kept, order, sorted[i]);
      r := r + [kept[sorted[i].upper]];
    }
  }

  // ----- the loader's contract -----

  ghost predicate ConfidencesRise(bins: seq<Bin>) {
    forall i, j | 0 <= i < j < |bins| :: bins[i].confidence <= bins[j].confidence
  }

  /** What the loader accepts as the bins of a calibration. */
  ghost predicate ValidBins(bins: seq<Bin>) {
    && |bins| >= 1
    && (forall b | b in bins :: -1.0 <= b.upper <= 1.0 && 0.0 <= b.confidence <= 1.0)
    && Rising(bins)
    && ConfidencesRise(bins)
    && bins[|bins|-1].upper >= 1.0
  }

  /** The loader's validator as it is written: sort and compare, and count the distinct bounds. */
  predicate LoaderAccepts(bins: seq<Bin>) {
    && |bins| >= 1
    && (forall i | 0 <= i < |bins| :: -1.0 <= bins[i].upper <= 1.0 && 0.0 <= bins[i].confidence <= 1.0)
    && var uppers, confidences := Uppers(bins), Confidences(bins);
       && uppers == Sort(uppers, BY_SIZE) && |set u | u in uppers| == |uppers|
       && confidences == Sort(confidences, BY_SIZE)
       && !(uppers[|uppers|-1] < 1.0)
  }

  const BY_SIZE: (real, real) -> bool := (x: real, y: real) => x <= y

  function Uppers(bins: seq<Bin>): (r: seq<real>)
    ensures |r| == |bins| && forall i | 0 <= i < |r| :: r[i] == bins[i].upper
  {
    seq(|bins|, i requires 0 <= i < |bins| => bins[i].upper)
  }

  function Confidences(bins: seq<Bin>): (r: seq<real>)
    ensures |r| == |bins| && forall i | 0 <= i < |r| :: r[i] == bins[i].confidence
  {
    seq(|bins|, i requires 0 <= i < |bins| => bins[i].confidence)
  }

  lemma {:induction false} SortedIffFixed(s: seq<real>)
    ensures s == Sort(s, BY_SIZE) <==> Sorted(s, BY_SIZE)
  {
    assert TotalPreorder(BY_SIZE);
    SortSorted(s, BY_SIZE);
    if Sorted(s, BY_SIZE) {
      SortedIsFixed(s, BY_SIZE);
    }
  }

  lemma {:induction false} DistinctIffCounted(s: seq<real>)
    ensures |set u | u in s| <= |s|
    ensures |set u | u in s| == |s| <==> forall i, j | 0 <= i < j < |s| :: s[i] != s[j]
  {
    if s != [] {
      var n := |s| - 1;
      var before, all := set u | u in s[..n], set u | u in s;
      DistinctIffCounted(s[..n]);
      assert s[..n] + [s[n]] == s;
      assert all == before + {s[n]};
      if s[n] in before {
        assert all == before;
        var i :| 0 <= i < n && s[..n][i] == s[n];
      }
    }
  }

  /** Read off the validator: bounds strictly rising to 1.0, confidences not falling, all in range. */
  lemma {:induction false} LoaderAcceptsIff(bins: seq<Bin>)
    ensures LoaderAccepts(bins) <==> ValidBins(bins)
  {
    hide Sort;
    var uppers, confidences := Uppers(bins), Confidences(bins);
    SortedIffFixed(uppers);
    SortedIffFixed(confidences);
    DistinctIffCounted(uppers);
    assert forall i, j | 0 <= i < j < |bins| :: BY_SIZE(confidences[i], confidences[j]) <==> bins[i].confidence <= bins[j].confidence;
    assert forall i, j | 0 <= i < j < |bins| :: BY_SIZE(uppers[i], uppers[j]) && uppers[i] != uppers[j] <==> bins[i].upper < bins[j].upper;
  }

  // ----- applying a map -----

  /** The confidence of the first bin whose bound reaches the score; the last bin's beyond. */
  function Apply(bins: seq<Bin>, score: real): real {
    if bins == [] then UNCALIBRATED_CONFIDENCE
    else if score <= bins[0].upper || |bins| == 1 then bins[0].confidence
    else Apply(bins[1..], score)
  }

  method ApplyCalibration(bins: seq<Bin>, score: real) returns (c: real)
    ensures c == Apply(bins, score)
  {
    assert bins[0..] == bins;
    for i := 0 to |bins|
      invariant forall j | 0 <= j < i :: bins[j].upper < score
      invariant i < |bins| ==> Apply(bins, score) == Apply(bins[i..], score)
      invariant i == |bins| > 0 ==> Apply(bins, score) == bins[|bins|-1].confidence
    {
      if score <= bins[i].upper {
        return bins[i].confidence;
      }
      assert bins[i..][1..] == bins[i+1..];
    }
    return if bins != [] then bins[|bins|-1].confidence else UNCALIBRATED_CONFIDENCE;
  }

  lemma {:induction false} ApplyFinds(bins: seq<Bin>, score: real, i: nat)
    requires i < |bins| && (forall j | 0 <= j < i :: bins[j].upper < score)
    requires score <= bins[i].upper || i == |bins| - 1
    ensures Apply(bins, score) == bins[i].confidence
  {
    if i > 0 {
      assert bins[0].upper < score;
      ApplyFinds(bins[1..], score, i - 1);
    }
  }

  lemma {:induction false} ApplyPicks(bins: seq<Bin>, score: real) returns (i: nat)
    requires bins != []
    ensures i < |bins| && (forall j | 0 <= j < i :: bins[j].upper < score)
    ensures score <= bins[i].upper || i == |bins| - 1
    ensures Apply(bins, score) == bins[i].confidence
  {
    i := 0;
    while i < |bins| - 1 && score > bins[i].upper
      invariant i < |bins| && forall j | 0 <= j < i :: bins[j].upper < score
    {
      i := i + 1;
    }
    ApplyFinds(bins, score, i);
  }

  /** A map the loader accepts never says a better score means less, and never leaves [0, 1]. */
  lemma {:induction false} ApplyIsMonotone(bins: seq<Bin>, low: real, high: real)
    requires ValidBins(bins) && low <= high
    ensures 0.0 <= Apply(bins, low) <= Apply(bins, high) <= 1.0
  {
    var i := ApplyPicks(bins, low);
    var j := ApplyPicks(bins, high);
    assert bins[i] in bins && bins[j] in bins;
  }

  lemma {:induction false} SurvivorsBefore(bins: seq<Bin>, i: nat, k: nat, score: real)
    requires forall a, b | 0 <= a < b < |bins| :: bins[a].upper <= bins[b].upper
    requires i < |bins| && (forall j | 0 <= j < i :: bins[j].upper < score)
    requires k < |DropDuplicates(bins)| && DropDuplicates(bins)[k] == bins[i]
    ensures forall j | 0 <= j < k :: DropDuplicates(bins)[j].upper < score
  {
    hide DropDuplicates;
    var d := DropDuplicates(bins);
    DropDuplicatesSpec(bins);
    forall j | 0 <= j < k
      ensures d[j].upper < score
    {
      assert d[j] in d && d[j].upper < d[k].upper;
      var m: nat :| m < |bins| && bins[m] == d[j];
      assert m < i;
    }
  }

  /** Dropping duplicates changes no confidence up to the last bound: the first bin of a bound is the one
      that was looked up anyway. */
  lemma {:induction false} DropKeepsApply(bins: seq<Bin>, score: real)
    requires bins != [] && forall i, j | 0 <= i < j < |bins| :: bins[i].upper <= bins[j].upper
    requires score <= bins[|bins|-1].upper
    ensures Apply(DropDuplicates(bins), score) == Apply(bins, score)
  {
    hide DropDuplicates, Apply;
    var d := DropDuplicates(bins);
    DropDuplicatesSpec(bins);
    var i := ApplyPicks(bins, score);
    assert IsFirst(bins, i);
    assert bins[i] in d;
    var k: nat :| k < |d| && d[k] == bins[i];
    SurvivorsBefore(bins, i, k, score);
    ApplyFinds(d, score, k);
  }

  // ----- what the fit produces -----

  /** No group but the last ends outside [-1, 1].  Cosines always satisfy this. */
  ghost predicate InnerEndsInRange(groups: seq<seq<Outcome>>) {
    forall i | 0 <= i < |groups| - 1 && groups[i] != [] :: -1.0 <= Last(groups[i]).score <= 1.0
  }

  lemma {:induction false} RawBinsShape(ordered: seq<Outcome>, groups: seq<seq<Outcome>>, pooled: seq<real>)
    requires ScoreSorted(ordered) && IsGrouping(groups, ordered)
    requires |pooled| == |groups| >= 1 && Isotonic.IsProjection(Points(groups), pooled)
    ensures ConfidencesRise(RawBins(groups, pooled))
    ensures forall b | b in RawBins(groups, pooled) :: 0.0 <= b.confidence <= 1.0
    ensures Rising(RawBins(groups, pooled)[..|groups|-1])
  {
    var bins := RawBins(groups, pooled);
    assert Isotonic.Positive(Points(groups));
    Isotonic.ProjectionInRange(Points(groups), pooled, 0.0, 1.0);
    forall i, j | 0 <= i < j < |groups| - 1
      ensures bins[i].upper < bins[j].upper
    {
      GroupsRise(groups, ordered, i, |groups[i]| - 1, j, |groups[j]| - 1);
    }
    assert Isotonic.NonDecreasing(pooled);
  }

  lemma {:induction false} Survivor(bins: seq<Bin>, b: Bin) returns (i: nat)
    requires Survives(bins, |bins|, b)
    ensures i < |bins| && bins[i] == b && IsFirst(bins, i)
  {
    i :| 0 <= i < |bins| && IsFirst(bins, i) && bins[i] == b;
  }

  /** Among bins with rising confidences, keeping the first per bound keeps them rising. */
  lemma {:induction false} DropKeepsConfidences(bins: seq<Bin>)
    requires ConfidencesRise(bins)
    requires forall i, j | 0 <= i < j < |bins| :: bins[i].upper <= bins[j].upper
    ensures ConfidencesRise(DropDuplicates(bins))
  {
    var r := DropDuplicates(bins);
    DropDuplicatesSpec(bins);
    forall i, j | 0 <= i < j < |r|
      ensures r[i].confidence <= r[j].confidence
    {
      assert r[i] in r && r[j] in r;
      var a := Survivor(bins, r[i]);
      var b := Survivor(bins, r[j]);
      assert r[i].upper < r[j].upper;
    }
  }

  /** Weakly rising bounds in range that reach 1.0 become an acceptable map once de-duplicated. */
  lemma {:induction false} DropMakesValid(bins: seq<Bin>)
    requires |bins| >= 1 && ConfidencesRise(bins)
    requires forall i, j | 0 <= i < j < |bins| :: bins[i].upper <= bins[j].upper
    requires forall b | b in bins :: -1.0 <= b.upper <= 1.0 && 0.0 <= b.confidence <= 1.0
    requires bins[|bins|-1].upper == 1.0
    ensures ValidBins(DropDuplicates(bins))
  {
    hide DropDuplicates, ConfidencesRise, IsFirst, Survives;
    var r := DropDuplicates(bins);
    DropDuplicatesSpec(bins);
    DropKeepsConfidences(bins);
    assert HasUpper(bins, bins[|bins|-1].upper);
    var k :| 0 <= k < |r| && r[k].upper == bins[|bins|-1].upper;
    forall b | b in r
      ensures b in bins
    {
      var i := Survivor(bins, b);
    }
    assert r[|r|-1] in r && r[k].upper <= r[|r|-1].upper;
  }

  /** The fitted map passes the loader's contract exactly when no inner group ends out of range. */
  lemma {:induction false} FitValidIff(ordered: seq<Outcome>, groups: seq<seq<Outcome>>, pooled: seq<real>)
    requires ScoreSorted(ordered) && IsGrouping(groups, ordered)
    requires |pooled| == |groups| >= 1 && Isotonic.IsProjection(Points(groups), pooled)
    ensures ValidBins(DropDuplicates(RawBins(groups, pooled))) <==> InnerEndsInRange(groups)
  {
    var bins := RawBins(groups, pooled);
    RawBinsShape(ordered, groups, pooled);
    DropDuplicatesSpec(bins);
    if InnerEndsInRange(groups) {
      forall i, j | 0 <= i < j < |bins|
        ensures bins[i].upper <= bins[j].upper
      {
        if j < |bins| - 1 {
          assert bins[..|groups|-1][i].upper < bins[..|groups|-1][j].upper;
        }
      }
      DropMakesValid(bins);
    } else {
      var i :| 0 <= i < |groups| - 1 && groups[i] != [] && !(-1.0 <= Last(groups[i]).score <= 1.0);
      assert HasUpper(bins, bins[i].upper);
      var r := DropDuplicates(bins);
      var k :| 0 <= k < |r| && r[k].upper == bins[i].upper;
      assert r[k] in r;
    }
  }

  /** A sample of cosines always fits a map the loader accepts. */
  lemma {:induction false} CosinesFitValid(outcomes: seq<Outcome>, binCount: int, pooled: seq<real>)
    requires outcomes != [] && binCount >= 1
    requires forall o: Outcome | o in outcomes :: -1.0 <= o.score <= 1.0
    requires Isotonic.IsProjection(Points(Groups(Ordered(outcomes), binCount)), pooled)
    ensures |pooled| == |Groups(Ordered(outcomes), binCount)| >= 1
    ensures forall i | 0 <= i < |pooled| :: Groups(Ordered(outcomes), binCount)[i] != []
    ensures ValidBins(DropDuplicates(RawBins(Groups(Ordered(outcomes), binCount), pooled)))
  {
    var ordered := Ordered(outcomes);
    var groups := Groups(ordered, binCount);
    OrderedIsSorted(outcomes);
    GroupsPartition(ordered, binCount);
    SameElements(ordered, outcomes);
    forall i | 0 <= i < |groups| - 1 && groups[i] != []
      ensures -1.0 <= Last<Outcome>(groups[i]).score <= 1.0
    {
      FlattenAt(groups, i, |groups[i]| - 1);
      assert Last(groups[i]) in ordered;
    }
    FitValidIff(ordered, groups, pooled);
  }

  /** Two samples that no cosine can produce, the lower one above the last bin's bound. */
  const BEYOND_RANGE: seq<Outcome> := [Outcome(2.0, true), Outcome(3.0, true)]

  lemma {:induction false} BeyondRangeGroups()
    ensures |BEYOND_RANGE| == 2 && Groups(Ordered(BEYOND_RANGE), 2) == [[BEYOND_RANGE[0]], [BEYOND_RANGE[1]]]
  {
    var s := BEYOND_RANGE;
    assert ScoreSorted(s);
    OrderedIsFixed(s);
    assert Cut(2, 2, 0) == 0 && Cut(2, 2, 1) == 1 && Cut(2, 2, 2) == 2;
    assert Slice(s, 2, 0) == [s[0]] && Slice(s, 2, 1) == [s[1]];
    assert Merged(s, 2, 0) == [];
    assert Merged(s, 2, 1) == [[s[0]]];
    assert Merged(s, 2, 2) == [[s[0]], [s[1]]];
  }

  /** The fit itself does not look at the range: its own pooled accuracies give these two samples a
      map that the loader refuses. */
  lemma {:induction false} BeyondRangeFitIsRefused()
    ensures var groups := Groups(Ordered(BEYOND_RANGE), 2);
      && |groups| == 2 && groups[0] != [] && groups[1] != []
      && Isotonic.IsProjection(Points(groups), [1.0, 1.0])
      && !ValidBins(DropDuplicates(RawBins(groups, [1.0, 1.0])))
  {
    hide DropDuplicates, ValidBins, Groups, Ordered, IsGrouping, ScoreSorted, Accuracy, BEYOND_RANGE, Isotonic.IsProjection;
    var groups, ordered := Groups(Ordered(BEYOND_RANGE), 2), Ordered(BEYOND_RANGE);
    BeyondRangeGroups();
    BeyondRangePools(groups);
    OrderedIsSorted(BEYOND_RANGE);
    GroupsPartition(ordered, 2);
    FitValidIff(ordered, groups, [1.0, 1.0]);
  }

  lemma {:induction false} BeyondRangePools(groups: seq<seq<Outcome>>)
    requires |BEYOND_RANGE| == 2 && groups == [[BEYOND_RANGE[0]], [BEYOND_RANGE[1]]]
    ensures Isotonic.IsProjection(Points(groups), [1.0, 1.0])
    ensures !InnerEndsInRange(groups)
  {
    hide Accuracy;
    AllRight(BEYOND_RANGE[0]);
    AllRight(BEYOND_RANGE[1]);
    var points := Points(groups);
    assert Isotonic.Values(points) == [1.0, 1.0];
    forall k | 0 <= k <= 2
      ensures Isotonic.Residual(points, [1.0, 1.0], k) == 0.0
    {
      Isotonic.ResidualOfInput(points, k);
    }
    assert Last(groups[0]).score == 2.0;
  }

  lemma {:induction false} AllRight(o: Outcome)
    requires o.correct
    ensures Accuracy([o]) == 1.0
  {
    assert [o][..0] == [] && CorrectCount([]) == 0;
    assert CorrectCount([o]) == 1;
  }
}
