/** Equal-frequency groups of scored samples that never split a tie (eval/calibration.py). */
module Grouping {
  import opened Sorting

  /** One fit sample: what the classifier scored, and whether it was right. */
  datatype Outcome = Outcome(score: real, correct: bool)

  const BY_SCORE: (Outcome, Outcome) -> bool := (a: Outcome, b: Outcome) => a.score <= b.score

  function Ordered(outcomes: seq<Outcome>): seq<Outcome> {
    Sort(outcomes, BY_SCORE)
  }

  ghost predicate ScoreSorted(s: seq<Outcome>) {
    forall i, j | 0 <= i < j < |s| :: s[i].score <= s[j].score
  }

  lemma {:induction false} OrderedIsSorted(outcomes: seq<Outcome>)
    ensures ScoreSorted(Ordered(outcomes))
    ensures multiset(Ordered(outcomes)) == multiset(outcomes)
    ensures |Ordered(outcomes)| == |outcomes|
    ensures forall y :: Ties(Ordered(outcomes), y, BY_SCORE) == Ties(outcomes, y, BY_SCORE)
  {
    assert TotalPreorder(BY_SCORE);
    SortSorted(outcomes, BY_SCORE);
    SortPermutes(outcomes, BY_SCORE);
    forall i, j | 0 <= i < j < |Ordered(outcomes)|
      ensures Ordered(outcomes)[i].score <= Ordered(outcomes)[j].score
    {
      assert BY_SCORE(Ordered(outcomes)[i], Ordered(outcomes)[j]);
    }
    forall y
      ensures Ties(Ordered(outcomes), y, BY_SCORE) == Ties(outcomes, y, BY_SCORE)
    {
      SortStable(outcomes, y, BY_SCORE);
    }
  }

  lemma {:induction false} OrderedIsFixed(s: seq<Outcome>)
    requires ScoreSorted(s)
    ensures Ordered(s) == s
  {
    assert Sorted(s, BY_SCORE);
    SortedIsFixed(s, BY_SCORE);
  }

  // ----- slicing by integer division -----

  function Cut(n: nat, count: nat, index: nat): nat
    requires count > 0
  {
    index * n / count
  }

  lemma {:induction false} DivUnique(a: int, c: int, q: int, r: int)
    requires 0 <= r < c && a == c * q + r
    ensures a / c == q
  {
    var d := a / c;
    QuotientIdentity(a, c);
    assert c * (d - q) == c * d - c * q;
    ProductSize(c, d - q);
  }

  lemma {:induction false} QuotientIdentity(a: int, c: int)
    requires c > 0
    ensures a == c * (a / c) + a % c && 0 <= a % c < c
  {
  }

  lemma {:induction false} ProductSize(c: int, d: int)
    requires c > 0
    ensures d >= 1 ==> c * d >= c
    ensures d <= -1 ==> c * d <= -c
    ensures d <= 0 ==> c * d <= 0
  {
  }

  /** Slice sizes differ by at most one. */
  lemma {:induction false} CutStep(n: nat, count: nat, index: nat)
    requires count > 0
    ensures Cut(n, count, index) + n / count <= Cut(n, count, index + 1) <= Cut(n, count, index) + n / count + 1
  {
    var q, r := index * n / count, index * n % count;
    var q', r' := n / count, n % count;
    assert (index + 1) * n == index * n + n;
    QuotientIdentity(index * n, count);
    QuotientIdentity(n, count);
    assert count * (q + q') == count * q + count * q';
    if r + r' < count {
      DivUnique((index + 1) * n, count, q + q', r + r');
    } else {
      assert count * (q + q' + 1) == count * q + count * q' + count;
      DivUnique((index + 1) * n, count, q + q' + 1, r + r' - count);
    }
  }

  /** The cut is the largest position that is not beyond `index` shares of the sample. */
  lemma {:induction false} CutIsFloor(n: nat, count: nat, index: nat)
    requires count > 0
    ensures Cut(n, count, index) * count <= index * n < (Cut(n, count, index) + 1) * count
  {
    QuotientIdentity(index * n, count);
  }

  lemma {:induction false} CutEnds(n: nat, count: nat)
    requires count > 0
    ensures Cut(n, count, 0) == 0 && Cut(n, count, count) == n
  {
    DivUnique(0 * n, count, 0, 0);
    DivUnique(count * n, count, n, 0);
  }

  lemma {:induction false} AtLeastOneEach(n: nat, count: nat)
    requires 0 < count
    ensures n >= count ==> n / count >= 1
  {
    QuotientIdentity(n, count);
    ProductSize(count, n / count);
  }

  lemma {:induction false} CutMonotone(n: nat, count: nat, i: nat, j: nat)
    requires count > 0 && i <= j
    ensures Cut(n, count, i) <= Cut(n, count, j)
    decreases j - i
  {
    hide Cut;
    if i < j {
      CutMonotone(n, count, i, j - 1);
      CutStep(n, count, j - 1);
    }
  }

  lemma {:induction false} CutRange(n: nat, count: nat, k: nat)
    requires 0 < count && k <= count
    ensures Cut(n, count, k) <= n
  {
    CutMonotone(n, count, k, count);
    CutEnds(n, count);
  }

  function Slice(ordered: seq<Outcome>, count: nat, index: nat): (g: seq<Outcome>)
    requires index < count
    ensures |ordered| >= count ==> |g| == Cut(|ordered|, count, index + 1) - Cut(|ordered|, count, index) > 0
  {
    CutMonotone(|ordered|, count, index, index + 1);
    CutRange(|ordered|, count, index + 1);
    CutStep(|ordered|, count, index);
    AtLeastOneEach(|ordered|, count);
    ordered[Cut(|ordered|, count, index)..Cut(|ordered|, count, index + 1)]
  }

  /** Before merging, no group is empty and no two sizes differ by more than one. */
  lemma {:induction false} SlicesNearlyEqual(ordered: seq<Outcome>, count: nat, i: nat, j: nat)
    requires i < count && j < count && count <= |ordered|
    ensures 1 <= |Slice(ordered, count, i)| <= |Slice(ordered, count, j)| + 1
  {
    CutStep(|ordered|, count, i);
    CutStep(|ordered|, count, j);
  }

  // ----- merging ties -----

  function Last<T>(s: seq<T>): T
    requires s != []
  {
    s[|s|-1]
  }

  function AddGroup(merged: seq<seq<Outcome>>, group: seq<Outcome>): seq<seq<Outcome>> {
    if merged != [] && group != [] && Last(merged) != [] && Last(Last(merged)).score == group[0].score then
      merged[..|merged|-1] + [Last(merged) + group]
    else if group != [] then merged + [group]
    else merged
  }

  function Merged(ordered: seq<Outcome>, count: nat, k: nat): seq<seq<Outcome>>
    requires k <= count
  {
    if k == 0 then [] else AddGroup(Merged(ordered, count, k - 1), Slice(ordered, count, k - 1))
  }

  function GroupCount(n: nat, binCount: int): nat {
    if binCount < 0 then 0 else if binCount < n then binCount else n
  }

  /** As many groups as asked for, but never more than there are samples. */
  lemma {:induction false} GroupCountIs(n: nat, binCount: nat)
    ensures GroupCount(n, binCount) <= n && GroupCount(n, binCount) <= binCount
    ensures GroupCount(n, binCount) in {n, binCount}
  {
  }

  /** The groups of a sorted sample. */
  function Groups(ordered: seq<Outcome>, binCount: int): seq<seq<Outcome>> {
    var count := GroupCount(|ordered|, binCount);
    Merged(ordered, count, count)
  }

  function Flatten<T>(m: seq<seq<T>>): seq<T> {
    if m == [] then [] else Flatten(m[..|m|-1]) + Last(m)
  }

  ghost predicate IsGrouping(m: seq<seq<Outcome>>, p: seq<Outcome>) {
    && Flatten(m) == p
    && (forall i | 0 <= i < |m| :: m[i] != [])
    && (forall i | 0 < i < |m| :: Last(m[i-1]).score != m[i][0].score)
  }

  /** Positions at which a new group starts, the first group aside. */
  ghost function Boundaries<T>(m: seq<seq<T>>): set<nat> {
    if |m| <= 1 then {} else Boundaries(m[..|m|-1]) + {|Flatten(m[..|m|-1])|}
  }

  /** Cut positions at which the score changes. */
  ghost function ChangingCuts(ordered: seq<Outcome>, count: nat, k: nat): set<nat>
    requires k <= count <= |ordered|
  {
    if k <= 1 then {}
    else
      var c := Cut(|ordered|, count, k - 1);
      CutInside(|ordered|, count, k - 1);
      ChangingCuts(ordered, count, k - 1)
      + if ordered[c-1].score != ordered[c].score then {c} else {}
  }

  lemma {:induction false} CutInside(n: nat, count: nat, k: nat)
    requires 0 < k < count <= n
    ensures 0 < Cut(n, count, k) < n
  {
    AtLeastOneEach(n, count);
    CutStep(n, count, 0);
    CutEnds(n, count);
    CutMonotone(n, count, 1, k);
    CutStep(n, count, k);
    CutRange(n, count, k + 1);
  }

  lemma {:induction false} AddGroupKeeps(m: seq<seq<Outcome>>, p: seq<Outcome>, g: seq<Outcome>)
    requires IsGrouping(m, p) && g != []
    ensures IsGrouping(AddGroup(m, g), p + g)
    ensures Boundaries(AddGroup(m, g)) ==
            Boundaries(m) + if m != [] && Last(p).score != g[0].score then {|p|} else {}
    ensures 0 < |AddGroup(m, g)| <= |m| + 1
    ensures m != [] ==> p != []
  {
    var r := AddGroup(m, g);
    if m == [] {
      assert r == [g] && r[..0] == [];
    } else {
      var front := m[..|m|-1];
      assert Last(p) == Last(Last(m));
      if Last(p).score == g[0].score {
        assert r[..|r|-1] == front;
        assert Flatten(r) == Flatten(front) + (Last(m) + g) == p + g;
      } else {
        assert r[..|r|-1] == m;
      }
    }
  }

  lemma {:induction false} MergedIsGrouping(ordered: seq<Outcome>, count: nat, k: nat)
    requires 0 < count <= |ordered| && k <= count
    ensures Cut(|ordered|, count, k) <= |ordered|
    ensures IsGrouping(Merged(ordered, count, k), ordered[..Cut(|ordered|, count, k)])
    ensures Boundaries(Merged(ordered, count, k)) == ChangingCuts(ordered, count, k)
    ensures |Merged(ordered, count, k)| <= k && (k > 0 ==> Merged(ordered, count, k) != [])
  {
    hide Cut, IsGrouping, AddGroup;
    var n := |ordered|;
    CutRange(n, count, k);
    CutEnds(n, count);
    if k == 0 {
      EmptyGrouping();
      assert ordered[..0] == [];
    } else {
      MergedIsGrouping(ordered, count, k - 1);
      var c, c' := Cut(n, count, k - 1), Cut(n, count, k);
      var g := Slice(ordered, count, k - 1);
      assert ordered[..c] + g == ordered[..c'];
      AddGroupKeeps(Merged(ordered, count, k - 1), ordered[..c], g);
      if k > 1 {
        CutInside(n, count, k - 1);
        assert Last(ordered[..c]) == ordered[c-1] && g[0] == ordered[c];
      }
    }
  }

  lemma {:induction false} EmptyGrouping()
    ensures IsGrouping([], [])
  {
  }

  /** Groups partition the sample in order, none is empty, no tie is split, and the boundaries
      are exactly the equal-frequency cuts at which the score changes. */
  lemma {:induction false} GroupsPartition(ordered: seq<Outcome>, binCount: int)
    requires binCount >= 1 && ordered != []
    ensures IsGrouping(Groups(ordered, binCount), ordered)
    ensures 1 <= |Groups(ordered, binCount)| <= binCount
    ensures |Groups(ordered, binCount)| <= |ordered|
    ensures var count := GroupCount(|ordered|, binCount);
      Boundaries(Groups(ordered, binCount)) == ChangingCuts(ordered, count, count)
  {
    var count := GroupCount(|ordered|, binCount);
    MergedIsGrouping(ordered, count, count);
    CutEnds(|ordered|, count);
    assert ordered[..|ordered|] == ordered;
  }

  // ----- consequences for a sorted sample -----

  ghost function Start<T>(m: seq<seq<T>>, i: nat): nat
    requires i <= |m|
  {
    |Flatten(m[..i])|
  }

  lemma {:induction false} StartStep<T>(m: seq<seq<T>>, i: nat)
    requires i < |m|
    ensures Start(m, i + 1) == Start(m, i) + |m[i]|
  {
    assert m[..i+1][..i] == m[..i];
  }

  lemma {:induction false} StartMonotone<T>(m: seq<seq<T>>, i: nat, j: nat)
    requires i <= j <= |m|
    ensures Start(m, i) <= Start(m, j)
    decreases j - i
  {
    if i < j {
      StartMonotone(m, i, j - 1);
      StartStep(m, j - 1);
    }
  }

  lemma {:induction false} FlattenAt<T>(m: seq<seq<T>>, i: nat, a: nat)
    requires i < |m| && a < |m[i]|
    ensures Start(m, i) + a < |Flatten(m)|
    ensures Flatten(m)[Start(m, i) + a] == m[i][a]
  {
    if i == |m| - 1 {
    } else {
      var front := m[..|m|-1];
      FlattenAt(front, i, a);
      assert front[..i] == m[..i];
    }
  }

  lemma {:induction false} FlattenFind<T>(m: seq<seq<T>>, k: nat) returns (i: nat, a: nat)
    requires k < |Flatten(m)|
    ensures i < |m| && a < |m[i]| && Flatten(m)[k] == m[i][a]
  {
    var front := m[..|m|-1];
    if k < |Flatten(front)| {
      i, a := FlattenFind(front, k);
    } else {
      i, a := |m| - 1, k - |Flatten(front)|;
    }
  }

  /** Every score of an earlier group is strictly below every score of a later one. */
  lemma {:induction false} GroupsRise(m: seq<seq<Outcome>>, p: seq<Outcome>, i: nat, a: nat, j: nat, b: nat)
    requires IsGrouping(m, p) && ScoreSorted(p)
    requires i < j < |m| && a < |m[i]| && b < |m[j]|
    ensures m[i][a].score < m[j][b].score
  {
    var last := |m[i]| - 1;
    FlattenAt(m, i, a);
    FlattenAt(m, i, last);
    FlattenAt(m, i + 1, 0);
    FlattenAt(m, j, b);
    StartStep(m, i);
    StartMonotone(m, i + 1, j);
    assert m[i][a].score <= m[i][last].score;
    assert m[i][last].score < m[i+1][0].score;
  }

  lemma {:induction false} GroupIsSorted(m: seq<seq<Outcome>>, p: seq<Outcome>, i: nat, a: nat, b: nat)
    requires IsGrouping(m, p) && ScoreSorted(p)
    requires i < |m| && a <= b < |m[i]|
    ensures m[i][a].score <= m[i][b].score
  {
    FlattenAt(m, i, a);
    FlattenAt(m, i, b);
  }

  // ----- the algorithm -----

  method EqualFrequencyGroups(ordered: seq<Outcome>, binCount: int) returns (merged: seq<seq<Outcome>>)
    ensures merged == Groups(ordered, binCount)
  {
    var count := GroupCount(|ordered|, binCount);
    var groups: seq<seq<Outcome>> := [];
    for index := 0 to count
      invariant |groups| == index
      invariant forall i | 0 <= i < index :: groups[i] == Slice(ordered, count, i)
    {
      var start := index * |ordered| / count;
      var end := (index + 1) * |ordered| / count;
      CutMonotone(|ordered|, count, index, index + 1);
      CutRange(|ordered|, count, index + 1);
      groups := groups + [ordered[start..end]];
    }
    merged := [];
    for k := 0 to |groups|
      invariant merged == Merged(ordered, count, k)
    {
      var group := groups[k];
      if merged != [] && group != [] && Last(merged) != [] && Last(Last(merged)).score == group[0].score {
        merged := merged[|merged| - 1 := Last(merged) + group];
      } else if group != [] {
        merged := merged + [group];
      }
    }
  }
}
