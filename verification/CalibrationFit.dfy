/** The whole fit, its measured error, and the block a human pastes into the config
    (eval/calibration.py). */
module CalibrationFit {
  import opened Sorting
  import opened Grouping
  import opened Calibration
  import Isotonic

  // ----- expected calibration error -----

  function Abs(x: real): real { if x < 0.0 then -x else x }

  function ClaimSum(g: seq<Outcome>, confidenceOf: real -> real): real {
    if g == [] then 0.0 else ClaimSum(g[..|g|-1], confidenceOf) + confidenceOf(Last(g).score)
  }

  /** One group's share of the error: the gap between claim and truth, by sample share. */
  function GroupError(g: seq<Outcome>, confidenceOf: real -> real, total: nat): real
    requires g != [] && total > 0
  {
    |g| as real / total as real * Abs(ClaimSum(g, confidenceOf) / |g| as real - Accuracy(g))
  }

  function ErrorSum(groups: seq<seq<Outcome>>, confidenceOf: real -> real, total: nat, k: nat): real
    requires k <= |groups| && total > 0 && forall i | 0 <= i < |groups| :: groups[i] != []
  {
    if k == 0 then 0.0
    else ErrorSum(groups, confidenceOf, total, k - 1) + GroupError(groups[k-1], confidenceOf, total)
  }

  function Ece(outcomes: seq<Outcome>, confidenceOf: real -> real, binCount: int): real {
    if outcomes == [] then 0.0
    else
      var groups := Groups(Ordered(outcomes), binCount);
      NoEmptyGroup(outcomes, binCount);
      ErrorSum(groups, confidenceOf, |outcomes|, |groups|)
  }

  lemma {:induction false} NoEmptyGroup(outcomes: seq<Outcome>, binCount: int)
    requires outcomes != []
    ensures forall i | 0 <= i < |Groups(Ordered(outcomes), binCount)| :: Groups(Ordered(outcomes), binCount)[i] != []
    ensures binCount >= 1 ==> Groups(Ordered(outcomes), binCount) != []
  {
    OrderedIsSorted(outcomes);
    if binCount >= 1 {
      GroupsPartition(Ordered(outcomes), binCount);
    }
  }

  /** What a group claims is the sum over its samples, one by one. */
  lemma {:induction false} ClaimsAddUp(a: seq<Outcome>, o: Outcome, confidenceOf: real -> real)
    ensures ClaimSum([], confidenceOf) == 0.0
    ensures ClaimSum(a + [o], confidenceOf) == ClaimSum(a, confidenceOf) + confidenceOf(o.score)
  {
    assert (a + [o])[..|a|] == a;
  }

  /** A group's share of the error, in samples: how far its claims and its correct outcomes are apart. */
  lemma {:induction false} GroupErrorIs(g: seq<Outcome>, confidenceOf: real -> real, total: nat)
    requires g != [] && total > 0
    ensures var claimed, correct := ClaimSum(g, confidenceOf), |set i: nat | i < |g| && g[i].correct| as real;
      GroupError(g, confidenceOf, total) * total as real == if claimed < correct then correct - claimed else claimed - correct
  {
    hide ClaimSum, Accuracy;
    AccuracyIsShare(g);
    GapOfMeans(|g| as real, total as real, ClaimSum(g, confidenceOf), Accuracy(g));
  }

  lemma {:induction false} GapOfMeans(n: real, total: real, claimed: real, accuracy: real)
    requires n > 0.0 && total > 0.0
    ensures var correct := accuracy * n;
      n / total * Abs(claimed / n - accuracy) * total == if claimed < correct then correct - claimed else claimed - correct
  {
    var gap, share := claimed / n - accuracy, n / total;
    assert claimed / n * n == claimed;
    assert gap * n == claimed - accuracy * n;
    Isotonic.SignOfProduct(gap, n);
    assert share * total == n;
    assert share * Abs(gap) * total == Abs(gap) * (share * total);
  }

  method ExpectedCalibrationError(outcomes: seq<Outcome>, confidenceOf: real -> real, binCount: int)
    returns (error: real)
    ensures error == Ece(outcomes, confidenceOf, binCount)
  {
    hide Accuracy, ClaimSum, Abs, Groups, Ordered;
    if outcomes == [] {
      return 0.0;
    }
    var ordered := Ordered(outcomes);
    OrderedIsSorted(outcomes);
    NoEmptyGroup(outcomes, binCount);
    var total := |ordered|;
    error := 0.0;
    var groups := EqualFrequencyGroups(ordered, binCount);
    for k := 0 to |groups|
      invariant error == ErrorSum(groups, confidenceOf, total, k)
    {
      var group := groups[k];
      var claimed := ClaimSum(group, confidenceOf) / |group| as real;
      error := error + |group| as real / total as real * Abs(claimed - Accuracy(group));
    }
  }

  lemma {:induction false} ClaimBounds(g: seq<Outcome>, confidenceOf: real -> real)
    requires forall x :: 0.0 <= confidenceOf(x) <= 1.0
    ensures 0.0 <= ClaimSum(g, confidenceOf) <= |g| as real
  {
    if g != [] {
      ClaimBounds(g[..|g|-1], confidenceOf);
    }
  }

  lemma {:induction false} QuotientInUnit(a: real, n: nat)
    requires n > 0 && 0.0 <= a <= n as real
    ensures 0.0 <= a / n as real <= 1.0
  {
    var q := a / n as real;
    assert q * n as real == a;
    Isotonic.SignOfProduct(q, n as real);
    Isotonic.SignOfProduct(1.0 - q, n as real);
  }

  lemma {:induction false} ScaledUnit(share: real, gap: real)
    requires 0.0 <= share && 0.0 <= gap <= 1.0
    ensures 0.0 <= Isotonic.Times(share, gap) <= share
  {
    Isotonic.TimesMono(share, 0.0, gap);
    Isotonic.TimesMono(share, gap, 1.0);
    assert Isotonic.Times(share, 1.0) == share;
  }

  lemma {:induction false} GroupErrorBounds(g: seq<Outcome>, confidenceOf: real -> real, total: nat)
    requires g != [] && |g| <= total
    requires forall x :: 0.0 <= confidenceOf(x) <= 1.0
    ensures 0.0 <= GroupError(g, confidenceOf, total) <= |g| as real / total as real
  {
    ClaimBounds(g, confidenceOf);
    QuotientInUnit(ClaimSum(g, confidenceOf), |g|);
    QuotientInUnit(|g| as real, total);
    var share := |g| as real / total as real;
    var gap := Abs(ClaimSum(g, confidenceOf) / |g| as real - Accuracy(g));
    assert GroupError(g, confidenceOf, total) == Isotonic.Times(share, gap);
    assert 0.0 <= gap <= 1.0;
    ScaledUnit(share, gap);
  }

  /** The share of the sample that the first `k` groups hold. */
  ghost function ShareUpTo(groups: seq<seq<Outcome>>, total: nat, k: nat): real
    requires k <= |groups| && total > 0
  {
    Start(groups, k) as real / total as real
  }

  lemma {:induction false} ShareStep(groups: seq<seq<Outcome>>, total: nat, k: nat)
    requires k < |groups| && total > 0
    ensures Start(groups, k + 1) == Start(groups, k) + |groups[k]|
    ensures ShareUpTo(groups, total, k + 1) == ShareUpTo(groups, total, k) + |groups[k]| as real / total as real
    ensures ShareUpTo(groups, total, 0) == 0.0
  {
    StartStep(groups, k);
    var a, b := Start(groups, k) as real, |groups[k]| as real;
    assert (Start(groups, k) + |groups[k]|) as real == a + b;
    assert (a + b) / total as real == a / total as real + b / total as real;
    assert groups[..0] == [];
  }

  lemma {:induction false} ErrorSumBounds(groups: seq<seq<Outcome>>, confidenceOf: real -> real, total: nat, k: nat)
    requires k <= |groups| && total > 0 && forall i | 0 <= i < |groups| :: groups[i] != []
    requires forall x :: 0.0 <= confidenceOf(x) <= 1.0
    requires Start(groups, k) <= total
    ensures 0.0 <= ErrorSum(groups, confidenceOf, total, k) <= ShareUpTo(groups, total, k)
  {
    hide GroupError, Start, ShareUpTo;
    if k > 0 {
      ShareStep(groups, total, k - 1);
      GroupErrorBounds(groups[k-1], confidenceOf, total);
      ErrorSumBounds(groups, confidenceOf, total, k - 1);
    } else if |groups| > 0 {
      ShareStep(groups, total, 0);
    } else {
      NoShare(groups, total);
    }
  }

  lemma {:induction false} NoShare(groups: seq<seq<Outcome>>, total: nat)
    requires total > 0
    ensures ShareUpTo(groups, total, 0) == 0.0
  {
    assert groups[..0] == [];
  }

  lemma {:induction false} FullShare(groups: seq<seq<Outcome>>, ordered: seq<Outcome>)
    requires IsGrouping(groups, ordered) && ordered != []
    ensures Start(groups, |groups|) == |ordered| && ShareUpTo(groups, |ordered|, |groups|) == 1.0
  {
    assert groups[..|groups|] == groups;
    DivideBack(1.0, |ordered| as real);
  }

  /** 0.0 is a perfect match and 1.0 an exact inversion; nothing lies outside. */
  lemma {:induction false} EceInUnit(outcomes: seq<Outcome>, confidenceOf: real -> real, binCount: int)
    requires forall x :: 0.0 <= confidenceOf(x) <= 1.0
    ensures 0.0 <= Ece(outcomes, confidenceOf, binCount) <= 1.0
  {
    hide Start, ShareUpTo, GroupError, Ordered, IsGrouping;
    if outcomes != [] && binCount >= 1 {
      var ordered := Ordered(outcomes);
      OrderedIsSorted(outcomes);
      NoEmptyGroup(outcomes, binCount);
      GroupsPartition(ordered, binCount);
      var groups := Groups(ordered, binCount);
      FullShare(groups, ordered);
      ErrorSumBounds(groups, confidenceOf, |outcomes|, |groups|);
    }
  }

  // ----- the error left by the fit -----

  /** What enforcing monotonicity cost: each group's share times how far pooling moved it. */
  function PoolingCost(groups: seq<seq<Outcome>>, pooled: seq<real>, total: nat, k: nat): real
    requires |pooled| == |groups| && k <= |groups| && total > 0
  {
    if k == 0 then 0.0
    else
      PoolingCost(groups, pooled, total, k - 1)
      + |groups[k-1]| as real / total as real * Abs(pooled[k-1] - Accuracy(groups[k-1]))
  }

  lemma {:induction false} ConstantClaims(g: seq<Outcome>, confidenceOf: real -> real, c: real)
    requires g != [] && forall a | 0 <= a < |g| :: confidenceOf(g[a].score) == c
    ensures ClaimSum(g, confidenceOf) / |g| as real == c
  {
    ConstantSum(g, confidenceOf, c);
    DivideBack(c, |g| as real);
  }

  lemma {:induction false} ConstantSum(g: seq<Outcome>, confidenceOf: real -> real, c: real)
    requires forall a | 0 <= a < |g| :: confidenceOf(g[a].score) == c
    ensures ClaimSum(g, confidenceOf) == c * |g| as real
  {
    if g != [] {
      ConstantSum(g[..|g|-1], confidenceOf, c);
      AddOne(c, |g| - 1);
    }
  }

  lemma {:induction false} AddOne(c: real, n: nat)
    ensures c * n as real + c == c * (n + 1) as real
  {
    assert (n + 1) as real == n as real + 1.0;
  }

  lemma {:induction false} DivideBack(c: real, n: real)
    requires n != 0.0
    ensures c * n / n == c
  {
  }

  /** Every group before the last ends below the last bin's fixed bound. */
  ghost predicate InnerEndsBelowLast(groups: seq<seq<Outcome>>) {
    forall i | 0 <= i < |groups| - 1 && groups[i] != [] :: Last(groups[i]).score < MAX_SCORE
  }

  /** Samples of at most 1.0, as cosines are, always fall into such groups. */
  lemma {:induction false} CosinesEndBelowLast(outcomes: seq<Outcome>, binCount: int)
    requires outcomes != [] && binCount >= 1
    requires forall o: Outcome | o in outcomes :: o.score <= MAX_SCORE
    ensures InnerEndsBelowLast(Groups(Ordered(outcomes), binCount))
  {
    hide Ordered, Groups, IsGrouping, ScoreSorted, InnerEndsBelowLast;
    var ordered := Ordered(outcomes);
    OrderedIsSorted(outcomes);
    GroupsPartition(ordered, binCount);
    SameElements(ordered, outcomes);
    OrderedEndsBelowLast(ordered, Groups(ordered, binCount));
  }

  lemma {:induction false} OrderedEndsBelowLast(ordered: seq<Outcome>, groups: seq<seq<Outcome>>)
    requires ScoreSorted(ordered) && IsGrouping(groups, ordered)
    requires forall o: Outcome | o in ordered :: o.score <= MAX_SCORE
    ensures InnerEndsBelowLast(groups)
  {
    var j := |groups| - 1;
    forall i | 0 <= i < |groups| - 1
      ensures Last(groups[i]).score < MAX_SCORE
    {
      GroupsRise(groups, ordered, i, |groups[i]| - 1, j, 0);
      FlattenAt(groups, j, 0);
      assert groups[j][0] in ordered;
    }
  }

  lemma {:induction false} FittedBinsRise(ordered: seq<Outcome>, groups: seq<seq<Outcome>>, pooled: seq<real>)
    requires ScoreSorted(ordered) && IsGrouping(groups, ordered) && |pooled| == |groups|
    requires InnerEndsBelowLast(groups)
    ensures Rising(RawBins(groups, pooled))
  {
    var bins := RawBins(groups, pooled);
    forall i, j | 0 <= i < j < |bins|
      ensures bins[i].upper < bins[j].upper
    {
      GroupsRise(groups, ordered, i, |groups[i]| - 1, j, |groups[j]| - 1);
    }
  }

  /** Every sample is mapped to the pooled confidence of its own group; the last bin takes whatever
      lies beyond its bound. */
  lemma {:induction false} SamplesMeetTheirBin(ordered: seq<Outcome>, groups: seq<seq<Outcome>>, pooled: seq<real>,
                                              i: nat, a: nat)
    requires ScoreSorted(ordered) && IsGrouping(groups, ordered) && |pooled| == |groups|
    requires InnerEndsBelowLast(groups)
    requires i < |groups| && a < |groups[i]|
    ensures Apply(DropDuplicates(RawBins(groups, pooled)), groups[i][a].score) == pooled[i]
  {
    var bins := RawBins(groups, pooled);
    FittedBinsRise(ordered, groups, pooled);
    RisingIsKept(bins);
    forall j | 0 <= j < i
      ensures bins[j].upper < groups[i][a].score
    {
      GroupsRise(groups, ordered, j, |groups[j]| - 1, i, a);
    }
    GroupIsSorted(groups, ordered, i, a, |groups[i]| - 1);
    ApplyFinds(bins, groups[i][a].score, i);
  }

  lemma {:induction false} ErrorIsPoolingCost(ordered: seq<Outcome>, groups: seq<seq<Outcome>>, pooled: seq<real>,
                                             confidenceOf: real -> real, total: nat, k: nat)
    requires ScoreSorted(ordered) && IsGrouping(groups, ordered) && |pooled| == |groups|
    requires InnerEndsBelowLast(groups)
    requires forall x :: confidenceOf(x) == Apply(DropDuplicates(RawBins(groups, pooled)), x)
    requires k <= |groups| && total > 0
    ensures ErrorSum(groups, confidenceOf, total, k) == PoolingCost(groups, pooled, total, k)
  {
    hide ScoreSorted, Apply, DropDuplicates, Accuracy, ClaimSum, Abs;
    if k > 0 {
      ErrorIsPoolingCost(ordered, groups, pooled, confidenceOf, total, k - 1);
      var g := groups[k-1];
      forall a | 0 <= a < |g|
        ensures confidenceOf(g[a].score) == pooled[k-1]
      {
        SamplesMeetTheirBin(ordered, groups, pooled, k - 1, a);
      }
      ConstantClaims(g, confidenceOf, pooled[k-1]);
    }
  }

  lemma {:induction false} CostTerm(n: nat, total: nat, gap: real)
    requires 0 < n && 0 < total
    ensures n as real / total as real * Abs(gap) >= 0.0
    ensures n as real / total as real * Abs(gap) == 0.0 <==> gap == 0.0
  {
    var share := n as real / total as real;
    assert share * total as real == n as real;
    Isotonic.SignOfProduct(share, total as real);
    Isotonic.SignOfProduct(Abs(gap), share);
    assert share * Abs(gap) == Abs(gap) * share;
  }

  lemma {:induction false} CostZeroIff(groups: seq<seq<Outcome>>, pooled: seq<real>, total: nat, k: nat)
    requires |pooled| == |groups| && k <= |groups| && total > 0 && forall i | 0 <= i < |groups| :: groups[i] != []
    ensures PoolingCost(groups, pooled, total, k) >= 0.0
    ensures PoolingCost(groups, pooled, total, k) == 0.0 <==>
            forall i | 0 <= i < k :: pooled[i] == Accuracy(groups[i])
  {
    hide PoolingCost, Accuracy;
    if k == 0 {
      NoCost(groups, pooled, total);
    } else {
      CostZeroIff(groups, pooled, total, k - 1);
      var t := CostStep(groups, pooled, total, k);
    }
  }

  lemma {:induction false} NoCost(groups: seq<seq<Outcome>>, pooled: seq<real>, total: nat)
    requires |pooled| == |groups| && total > 0
    ensures PoolingCost(groups, pooled, total, 0) == 0.0
  {
  }

  lemma {:induction false} CostStep(groups: seq<seq<Outcome>>, pooled: seq<real>, total: nat, k: nat) returns (t: real)
    requires |pooled| == |groups| && 0 < k <= |groups| && total > 0 && groups[k-1] != []
    ensures PoolingCost(groups, pooled, total, k) == PoolingCost(groups, pooled, total, k - 1) + t
    ensures t >= 0.0 && (t == 0.0 <==> pooled[k-1] == Accuracy(groups[k-1]))
  {
    hide Accuracy, Abs;
    var gap := pooled[k-1] - Accuracy(groups[k-1]);
    t := |groups[k-1]| as real / total as real * Abs(gap);
    CostTerm(|groups[k-1]|, total, gap);
  }

  lemma {:induction false} AllWeighted(groups: seq<seq<Outcome>>)
    requires forall i | 0 <= i < |groups| :: groups[i] != []
    ensures Isotonic.Positive(Points(groups))
  {
  }

  /** The error reported after the fit is exactly what pooling cost, and it is zero exactly when
      the observed accuracies were already monotone. */
  lemma {:induction false} FittedErrorIsPoolingCost(outcomes: seq<Outcome>, binCount: int, pooled: seq<real>,
                                                   confidenceOf: real -> real)
    requires outcomes != [] && binCount >= 1
    requires var groups := Groups(Ordered(outcomes), binCount);
      && InnerEndsBelowLast(groups)
      && Isotonic.IsProjection(Points(groups), pooled)
      && (forall i | 0 <= i < |groups| :: groups[i] != [])
      && forall x :: confidenceOf(x) == Apply(DropDuplicates(RawBins(groups, pooled)), x)
    ensures var groups := Groups(Ordered(outcomes), binCount);
      && Ece(Ordered(outcomes), confidenceOf, binCount) == PoolingCost(groups, pooled, |outcomes|, |groups|)
      && (Ece(Ordered(outcomes), confidenceOf, binCount) == 0.0 <==>
          Isotonic.NonDecreasing(Isotonic.Values(Points(groups))))
  {
    hide Ordered, IsGrouping, Apply, RawBins, DropDuplicates, PoolingCost, ErrorSum;
    var ordered := Ordered(outcomes);
    var groups := Groups(ordered, binCount);
    OrderedIsSorted(outcomes);
    OrderedIsFixed(ordered);
    GroupsPartition(ordered, binCount);
    ErrorIsPoolingCost(ordered, groups, pooled, confidenceOf, |outcomes|, |groups|);
    CostZeroIff(groups, pooled, |outcomes|, |groups|);
    var points := Points(groups);
    AllWeighted(groups);
    Isotonic.UnchangedIffMonotone(points, pooled);
    assert pooled == Isotonic.Values(points) <==> forall i | 0 <= i < |groups| :: pooled[i] == Accuracy(groups[i]);
  }

  // ----- the fit -----

  datatype Fit = Fit(bins: seq<Bin>, error: real, rawError: real, sampleCount: nat,
                     positiveCount: nat, binCounts: seq<nat>)

  datatype FitResult = BadBinCount | NoSamples | Fitted(fit: Fit)

  /** A raw cosine read as if it were a probability. */
  function Clamp(score: real): real {
    if score < 0.0 then 0.0 else if score > 1.0 then 1.0 else score
  }

  /** The nearest probability: what is one already stays, anything else goes to the nearer end. */
  lemma {:induction false} ClampIsNearest(score: real, p: real)
    requires 0.0 <= p <= 1.0
    ensures 0.0 <= Clamp(score) <= 1.0 && Abs(Clamp(score) - score) <= Abs(p - score)
  {
  }

  lemma {:induction false} ErrorsInUnit(ordered: seq<Outcome>, binCount: int, bins: seq<Bin>)
    requires ValidBins(bins)
    ensures 0.0 <= Ece(ordered, x => Apply(bins, x), binCount) <= 1.0
    ensures 0.0 <= Ece(ordered, x => Clamp(x), binCount) <= 1.0
  {
    forall x
      ensures 0.0 <= Apply(bins, x) <= 1.0
    {
      ApplyIsMonotone(bins, x, x);
    }
    EceInUnit(ordered, x => Apply(bins, x), binCount);
    EceInUnit(ordered, x => Clamp(x), binCount);
  }

  lemma {:induction false} OrderedIs(outcomes: seq<Outcome>)
    ensures Ordered(outcomes) == Sort(outcomes, BY_SCORE)
  {
  }

  method FitCalibration(outcomes: seq<Outcome>, binCount: int)
    returns (r: FitResult, ghost pooled: seq<real>)
    ensures r.BadBinCount? <==> binCount < 1
    ensures r.NoSamples? <==> binCount >= 1 && outcomes == []
    ensures r.Fitted? ==>
              var groups := Groups(Ordered(outcomes), binCount);
              && (forall i | 0 <= i < |groups| :: groups[i] != [])
              && Isotonic.IsProjection(Points(groups), pooled)
              && r.fit.bins == DropDuplicates(RawBins(groups, pooled))
              && r.fit.error == Ece(Ordered(outcomes), x => Apply(r.fit.bins, x), binCount)
              && r.fit.rawError == Ece(Ordered(outcomes), x => Clamp(x), binCount)
              && r.fit.sampleCount == |outcomes|
              && r.fit.positiveCount == |set i: nat | i < |outcomes| && outcomes[i].correct|
              && r.fit.binCounts == seq(|groups|, i requires 0 <= i < |groups| => |groups[i]|)
    ensures r.Fitted? && (forall o: Outcome | o in outcomes :: -1.0 <= o.score <= 1.0) ==>
              && ValidBins(r.fit.bins)
              && 0.0 <= r.fit.error <= 1.0 && 0.0 <= r.fit.rawError <= 1.0
  {
    hide Ordered, Groups, Ece, ValidBins, DropDuplicates, CorrectCount, Isotonic.IsProjection, Apply;
    pooled := [];
    if binCount < 1 {
      return BadBinCount, [];
    }
    if outcomes == [] {
      return NoSamples, [];
    }
    var ordered := Ordered(outcomes);
    NoEmptyGroup(outcomes, binCount);
    OrderedIsSorted(outcomes);
    var groups := EqualFrequencyGroups(ordered, binCount);
    var points := Points(groups);
    AllWeighted(groups);
    var values, pops := Isotonic.PoolAdjacentViolators(points);
    pooled := values;
    var bins := DropDuplicateUppers(RawBins(groups, values));
    var error := ExpectedCalibrationError(ordered, x => Apply(bins, x), binCount);
    var rawError := ExpectedCalibrationError(ordered, x => Clamp(x), binCount);
    var counts := seq(|groups|, i requires 0 <= i < |groups| => |groups[i]|);
    CountSort(outcomes, BY_SCORE);
    OrderedIs(outcomes);
    CountIsCardinality(outcomes);
    r := Fitted(Fit(bins, error, rawError, |ordered|, CorrectCount(ordered), counts));
    if forall o: Outcome | o in outcomes :: -1.0 <= o.score <= 1.0 {
      CosinesFitValid(outcomes, binCount, pooled);
      ErrorsInUnit(ordered, binCount, bins);
    }
  }

  // ----- writing the map down -----

  /** Round to four decimals, ties to even. */
  function Round4(x: real): real {
    var scaled := x * 10000.0;
    var below := scaled.Floor;
    var rest := scaled - below as real;
    var whole := if rest < 0.5 then below else if rest > 0.5 then below + 1
                 else if below % 2 == 0 then below else below + 1;
    whole as real / 10000.0
  }

  /** A whole number of ten-thousandths, at most half of one away; at exactly half, the even one. */
  lemma {:induction false} Round4IsNearest(x: real) returns (k: int)
    ensures Round4(x) == k as real / 10000.0
    ensures -0.00005 <= Round4(x) - x <= 0.00005
    ensures Round4(x) - x in {-0.00005, 0.00005} ==> k % 2 == 0
  {
    var scaled := x * 10000.0;
    var below := scaled.Floor;
    var rest := scaled - below as real;
    k := if rest < 0.5 then below else if rest > 0.5 then below + 1 else if below % 2 == 0 then below else below + 1;
    assert Round4(x) == k as real / 10000.0;
    assert k as real - scaled == (Round4(x) - x) * 10000.0;
  }

  lemma {:induction false} Round4Monotone(x: real, y: real)
    requires x <= y
    ensures Round4(x) <= Round4(y)
  {
    var a, b := (x * 10000.0).Floor, (y * 10000.0).Floor;
    assert x * 10000.0 <= y * 10000.0;
    assert a <= b;
  }

  lemma {:induction false} Round4Fixed(k: int)
    ensures Round4(k as real / 10000.0) == k as real / 10000.0
  {
    assert k as real / 10000.0 * 10000.0 == k as real;
    assert (k as real).Floor == k;
  }

  /** A number already written with four decimals is written the same way again. */
  lemma {:induction false} Round4Idempotent(x: real)
    ensures Round4(Round4(x)) == Round4(x)
  {
    var scaled := x * 10000.0;
    var below := scaled.Floor;
    Round4Fixed(below);
    Round4Fixed(below + 1);
  }

  lemma {:induction false} Round4Ends()
    ensures Round4(-1.0) == -1.0 && Round4(0.0) == 0.0 && Round4(1.0) == 1.0
  {
    Round4Fixed(-10000);
    Round4Fixed(0);
    Round4Fixed(10000);
  }

  function Rounded(bins: seq<Bin>): (r: seq<Bin>)
    ensures |r| == |bins|
    ensures forall i | 0 <= i < |r| :: r[i] == Bin(Round4(bins[i].upper), Round4(bins[i].confidence))
  {
    seq(|bins|, i requires 0 <= i < |bins| => Bin(Round4(bins[i].upper), Round4(bins[i].confidence)))
  }

  /** The `calibration:` block, without its provenance strings. */
  datatype Block = Block(error: real, bins: seq<Bin>)

  function AsBlock(fit: Fit): Block {
    Block(Round4(fit.error), DropDuplicates(Rounded(fit.bins)))
  }

  /** The block says what the fit says, to four decimals: the error, and for every bin of the fit a bin
      with its rounded bound whose confidence is one of the fit's for that bound. */
  lemma {:induction false} BlockIsClose(fit: Fit)
    ensures -0.00005 <= AsBlock(fit).error - fit.error <= 0.00005
    ensures forall i | 0 <= i < |fit.bins| :: HasUpper(AsBlock(fit).bins, Round4(fit.bins[i].upper))
    ensures forall b | b in AsBlock(fit).bins ::
              exists i | 0 <= i < |fit.bins| :: b == Bin(Round4(fit.bins[i].upper), Round4(fit.bins[i].confidence))
  {
    hide Round4, DropDuplicates;
    var k := Round4IsNearest(fit.error);
    var r := Rounded(fit.bins);
    DropDuplicatesSpec(r);
    forall i | 0 <= i < |fit.bins|
      ensures HasUpper(AsBlock(fit).bins, Round4(fit.bins[i].upper))
    {
      assert r[i].upper == Round4(fit.bins[i].upper);
      assert HasUpper(r, r[i].upper);
    }
    forall b | b in AsBlock(fit).bins
      ensures exists i | 0 <= i < |fit.bins| :: b == Bin(Round4(fit.bins[i].upper), Round4(fit.bins[i].confidence))
    {
      var i := Survivor(r, b);
      assert b == r[i];
    }
  }

  lemma {:induction false} RoundedInRange(b: Bin)
    requires -1.0 <= b.upper <= 1.0 && 0.0 <= b.confidence <= 1.0
    ensures -1.0 <= Round4(b.upper) <= 1.0 && 0.0 <= Round4(b.confidence) <= 1.0
  {
    Round4Ends();
    Round4Monotone(-1.0, b.upper);
    Round4Monotone(b.upper, 1.0);
    Round4Monotone(0.0, b.confidence);
    Round4Monotone(b.confidence, 1.0);
  }

  /** Whatever the loader accepts in full precision it also accepts written down, even when
      several bounds round to one, or an inner bound rounds up to 1.0. */
  lemma {:induction false} BlockStaysValid(fit: Fit)
    requires ValidBins(fit.bins) && 0.0 <= fit.error <= 1.0
    ensures ValidBins(AsBlock(fit).bins) && 0.0 <= AsBlock(fit).error <= 1.0
  {
    hide Round4;
    var r := Rounded(fit.bins);
    Round4Ends();
    Round4Monotone(0.0, fit.error);
    Round4Monotone(fit.error, 1.0);
    forall i, j | 0 <= i < j < |r|
      ensures r[i].upper <= r[j].upper && r[i].confidence <= r[j].confidence
    {
      Round4Monotone(fit.bins[i].upper, fit.bins[j].upper);
      Round4Monotone(fit.bins[i].confidence, fit.bins[j].confidence);
    }
    forall b | b in r
      ensures -1.0 <= b.upper <= 1.0 && 0.0 <= b.confidence <= 1.0
    {
      var i :| 0 <= i < |r| && r[i] == b;
      assert fit.bins[i] in fit.bins;
      RoundedInRange(fit.bins[i]);
    }
    assert fit.bins[|r|-1] in fit.bins;
    assert r[|r|-1].upper == 1.0;
    DropMakesValid(r);
  }

  /** Pasting a block back and writing it out again changes nothing. */
  lemma {:induction false} BlockIsStable(fit: Fit)
    ensures var b := AsBlock(fit);
      AsBlock(fit.(error := b.error, bins := b.bins)) == b
  {
    hide Round4;
    var r := Rounded(fit.bins);
    var d := DropDuplicates(r);
    Round4Idempotent(fit.error);
    DropDuplicatesSpec(r);
    forall k | 0 <= k < |d|
      ensures Rounded(d)[k] == d[k]
    {
      assert d[k] in d;
      var i := Survivor(r, d[k]);
      Round4Idempotent(fit.bins[i].upper);
      Round4Idempotent(fit.bins[i].confidence);
    }
    assert Rounded(d) == d;
    RisingIsKept(d);
  }
}
