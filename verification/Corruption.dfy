/** Seeded scanner mistakes in a rendered letter (corpus/generator/letter.py): where they may
    land, how many there are, and what they leave alone. */
module Corruption {
  import opened Sorting
  import opened Predicates
  import opened Letter
  import opened Sequences
  import opened Wrappers

  /** A half-open range of characters. */
  datatype Range = Range(start: nat, end: nat)

  datatype Edit = Edit(start: nat, end: nat, replacement: string)

  const MIN_CORRUPTIBLE := 12
  const MAX_CORRUPTIONS := 3

  datatype Misreading = Misreading(pattern: string, replacement: string)

  const SUBSTITUTIONS: seq<Misreading> := [
    Misreading("rn", "m"), Misreading("m", "rn"), Misreading("ei", "ci"),
    Misreading("ll", "II"), Misreading("lt", "It")]

  // ----- applying disjoint edits -----

  /** In text order, one after the other, none reaching into the next. */
  ghost predicate Disjoint(text: string, edits: seq<Edit>) {
    && (forall i | 0 <= i < |edits| :: edits[i].start <= edits[i].end <= |text|)
    && (forall i, j | 0 <= i < j < |edits| :: edits[i].end <= edits[j].start)
  }

  /** The text from `from` on with the edits from `i` on carried out at once. */
  ghost function Substitute(text: string, edits: seq<Edit>, from: nat, i: nat): string
    requires Disjoint(text, edits) && i <= |edits| && from <= |text|
    requires i < |edits| ==> from <= edits[i].start
    decreases |edits| - i
  {
    if i == |edits| then text[from..]
    else text[from..edits[i].start] + edits[i].replacement + Substitute(text, edits, edits[i].end, i + 1)
  }

  function Splice(text: string, edit: Edit): string
    requires edit.start <= edit.end <= |text|
  {
    text[..edit.start] + edit.replacement + text[edit.end..]
  }

  /** One more edit to the left of those already made, at its old offsets. */
  lemma {:induction false} SpliceStep(text: string, edits: seq<Edit>, k: nat)
    requires Disjoint(text, edits) && k < |edits|
    ensures edits[k].end <= |text| && (k + 1 < |edits| ==> edits[k].end <= edits[k+1].start)
    ensures edits[k].end <= |text[..edits[k].end] + Substitute(text, edits, edits[k].end, k + 1)|
    ensures Splice(text[..edits[k].end] + Substitute(text, edits, edits[k].end, k + 1), edits[k])
            == text[..edits[k].start] + Substitute(text, edits, edits[k].start, k)
  {
    hide Splice;
    var e := edits[k];
    var tail := Substitute(text, edits, e.end, k + 1);
    SpliceOne(text, e, tail);
    assert text[e.start..e.start] == [];
    assert Substitute(text, edits, e.start, k) == [] + e.replacement + tail;
  }

  lemma {:induction false} SpliceOne(text: string, e: Edit, tail: string)
    requires e.start <= e.end <= |text|
    ensures Splice(text[..e.end] + tail, e) == text[..e.start] + ([] + e.replacement + tail)
  {
    var done := text[..e.end] + tail;
    assert done[..e.start] == text[..e.start];
    assert done[e.end..] == tail;
  }

  lemma {:induction false} JoinSlices(text: string, from: nat, to: nat, middle: string, tail: string)
    requires from <= to <= |text|
    ensures text[..from] + (text[from..to] + middle + tail) == text[0..to] + middle + tail
  {
    assert text[..from] + text[from..to] == text[0..to];
  }

  lemma {:induction false} SubstituteFromLeft(text: string, edits: seq<Edit>, from: nat, k: nat)
    requires Disjoint(text, edits) && k <= |edits|
    requires from <= |text| && (k < |edits| ==> from <= edits[k].start)
    ensures text[..from] + Substitute(text, edits, from, k) == Substitute(text, edits, 0, k)
  {
    if k == |edits| {
      assert text[..from] + text[from..] == text == text[0..];
    } else {
      JoinSlices(text, from, edits[k].start, edits[k].replacement, Substitute(text, edits, edits[k].end, k + 1));
    }
  }

  // ----- where things end up -----

  function Growth(e: Edit): int {
    |e.replacement| - (e.end - e.start)
  }

  /** What the edits that end at or before `x` add or remove, from edit `i` on. */
  function Shift(edits: seq<Edit>, x: nat, i: nat): int
    requires i <= |edits|
    decreases |edits| - i
  {
    if i == |edits| then 0
    else (if edits[i].end <= x then Growth(edits[i]) else 0) + Shift(edits, x, i + 1)
  }

  function TotalGrowth(edits: seq<Edit>, i: nat): int
    requires i <= |edits|
    decreases |edits| - i
  {
    if i == |edits| then 0 else Growth(edits[i]) + TotalGrowth(edits, i + 1)
  }

  /** No edit touches the inside of the range. */
  ghost predicate Untouched(edits: seq<Edit>, r: Range) {
    forall i | 0 <= i < |edits| :: edits[i].end <= r.start || r.end <= edits[i].start
  }

  lemma {:induction false} NoShiftBeyond(edits: seq<Edit>, text: string, x: nat, i: nat)
    requires Disjoint(text, edits) && i <= |edits|
    requires forall j | i <= j < |edits| :: edits[j].end > x
    ensures Shift(edits, x, i) == 0
    decreases |edits| - i
  {
    if i < |edits| {
      NoShiftBeyond(edits, text, x, i + 1);
    }
  }

  /** `part` stands in `text` at offset `at`. */
  ghost predicate ReadsAt(text: string, at: int, part: string) {
    0 <= at && at + |part| <= |text| && text[at..at + |part|] == part
  }

  /** An untouched range reads the same at its shifted place. */
  lemma {:induction false} RangeSurvives(text: string, edits: seq<Edit>, from: nat, i: nat, r: Range)
    requires Disjoint(text, edits) && i <= |edits| && from <= r.start <= r.end <= |text|
    requires i < |edits| ==> from <= edits[i].start
    requires Untouched(edits, r)
    ensures ReadsAt(Substitute(text, edits, from, i), r.start - from + Shift(edits, r.start, i), text[r.start..r.end])
    decreases |edits| - i
  {
    hide Disjoint, Untouched, ReadsAt;
    var part := text[r.start..r.end];
    if i == |edits| {
      ReadsSlice(text, from, |text|, r.start, r.end);
      assert text[from..|text|] == text[from..];
    } else {
      EditFacts(text, edits, r, i);
      var e := edits[i];
      var tail := Substitute(text, edits, e.end, i + 1);
      if e.end <= r.start {
        RangeSurvives(text, edits, e.end, i + 1, r);
        ReadsConcat(text[from..e.start] + e.replacement, tail, r.start - e.end + Shift(edits, r.start, i + 1), part);
      } else {
        NoneEndsBefore(text, edits, r, i);
        NoShiftBeyond(edits, text, r.start, i);
        ReadsSlice(text, from, e.start, r.start, r.end);
        ReadsPrefix(text[from..e.start], e.replacement, r.start - from, part);
        ReadsPrefix(text[from..e.start] + e.replacement, tail, r.start - from, part);
      }
    }
  }

  lemma {:induction false} ReadsConcat(head: string, tail: string, at: int, part: string)
    requires ReadsAt(tail, at, part)
    ensures ReadsAt(head + tail, |head| + at, part)
  {
    assert (head + tail)[|head| + at..|head| + at + |part|] == tail[at..at + |part|];
  }

  lemma {:induction false} ReadsPrefix(head: string, tail: string, at: int, part: string)
    requires ReadsAt(head, at, part)
    ensures ReadsAt(head + tail, at, part)
  {
    assert (head + tail)[at..at + |part|] == head[at..at + |part|];
  }

  lemma {:induction false} ReadsSlice(text: string, from: nat, to: nat, a: nat, b: nat)
    requires from <= a <= b <= to <= |text|
    ensures ReadsAt(text[from..to], a - from, text[a..b])
  {
    SliceOfSlice(text, from, to, a - from, b - from);
  }

  lemma {:induction false} NoneEndsBefore(text: string, edits: seq<Edit>, r: Range, i: nat)
    requires Disjoint(text, edits) && i < |edits| && Untouched(edits, r) && r.start <= r.end
    requires edits[i].end > r.start
    ensures r.end <= edits[i].start && forall j | i <= j < |edits| :: edits[j].end > r.start
  {
    forall j | i < j < |edits|
      ensures edits[j].end > r.start
    {
      assert edits[i].end <= edits[j].start;
    }
  }

  lemma {:induction false} EditFacts(text: string, edits: seq<Edit>, r: Range, i: nat)
    requires Disjoint(text, edits) && Untouched(edits, r) && i < |edits|
    ensures edits[i].start <= edits[i].end <= |text|
    ensures i + 1 < |edits| ==> edits[i].end <= edits[i+1].start
    ensures edits[i].end <= r.start || r.end <= edits[i].start
  {
  }

  lemma {:induction false} LengthChanges(text: string, edits: seq<Edit>, from: nat, i: nat)
    requires Disjoint(text, edits) && i <= |edits| && from <= |text|
    requires i < |edits| ==> from <= edits[i].start
    ensures |Substitute(text, edits, from, i)| == |text| - from + TotalGrowth(edits, i)
    decreases |edits| - i
  {
    if i < |edits| {
      LengthChanges(text, edits, edits[i].end, i + 1);
    }
  }

  // ----- candidates -----

  predicate Overlaps(start: int, end: int, ranges: seq<Range>) {
    exists i | 0 <= i < |ranges| :: ranges[i].start < end && start < ranges[i].end
  }

  /** Clear of every range: each ends at or before the stretch, or begins at or after its end. */
  lemma {:induction false} ClearIff(start: int, end: int, ranges: seq<Range>)
    ensures !Overlaps(start, end, ranges) <==> forall r | r in ranges :: r.end <= start || end <= r.start
  {
    if !Overlaps(start, end, ranges) {
      forall r | r in ranges
        ensures r.end <= start || end <= r.start
      {
        var i :| 0 <= i < |ranges| && ranges[i] == r;
      }
    }
  }

  /** Leftmost non-overlapping occurrences of a literal pattern. */
  function FindLiteral(text: string, pattern: string, from: nat): (r: seq<nat>)
    requires pattern != []
    ensures forall i | 0 <= i < |r| :: from <= r[i] && r[i] + |pattern| <= |text| && text[r[i]..r[i] + |pattern|] == pattern
    decreases |text| - from
  {
    if from + |pattern| > |text| then []
    else if text[from..from + |pattern|] == pattern then [from] + FindLiteral(text, pattern, from + |pattern|)
    else FindLiteral(text, pattern, from + 1)
  }

  /** No occurrence is missed: each one found is literal text, and every other one runs into one
      that was found no later. */
  lemma {:induction false} FindLiteralMissesNothing(text: string, pattern: string, from: nat, p: nat) returns (q: nat)
    requires pattern != [] && from <= p && p + |pattern| <= |text| && text[p..p + |pattern|] == pattern
    ensures q in FindLiteral(text, pattern, from) && q <= p < q + |pattern|
    decreases |text| - from
  {
    if text[from..from + |pattern|] != pattern {
      q := FindLiteralMissesNothing(text, pattern, from + 1, p);
    } else if p < from + |pattern| {
      q := from;
    } else {
      q := FindLiteralMissesNothing(text, pattern, from + |pattern|, p);
    }
  }

  predicate Lower(c: char) { 'a' <= c <= 'z' }

  function RunEnd(text: string, from: nat): (e: nat)
    requires from <= |text|
    ensures from <= e <= |text|
    decreases |text| - from
  {
    if from < |text| && Lower(text[from]) then RunEnd(text, from + 1) else from
  }

  predicate IsHyphenPoint(text: string, p: nat) {
    4 <= p && p + 4 <= |text| && forall k | p - 4 <= k < p + 4 :: Lower(text[k])
  }

  /** Where a long word may be split: four letters into a run of at least eight. */
  function FindHyphens(text: string, from: nat): (r: seq<nat>)
    ensures forall i | 0 <= i < |r| :: IsHyphenPoint(text, r[i])
    decreases |text| - from
  {
    if from + 8 > |text| then []
    else if forall k | from <= k < from + 8 :: Lower(text[k]) then [from + 4] + FindHyphens(text, RunEnd(text, from + 8))
    else FindHyphens(text, from + 1)
  }

  /** A legal substitution: an occurrence of a misread pattern clear of every forbidden range. */
  predicate IsSubstitution(text: string, forbidden: seq<Range>, e: Edit) {
    && e.start < e.end <= |text|
    && (exists m | m in SUBSTITUTIONS :: text[e.start..e.end] == m.pattern && e.replacement == m.replacement)
    && !Overlaps(e.start, e.end, forbidden)
  }

  /** A legal hyphenation: inside a word and not even at the edge of a forbidden range. */
  predicate IsHyphenation(text: string, forbidden: seq<Range>, e: Edit) {
    && e.start == e.end && IsHyphenPoint(text, e.start)
    && e.replacement == "-\n"
    && !Overlaps(e.start - 1, e.start + 1, forbidden)
  }

  function Replacing(at: seq<nat>, m: Misreading): (r: seq<Edit>)
    ensures |r| == |at| && forall i | 0 <= i < |r| :: r[i] == Edit(at[i], at[i] + |m.pattern|, m.replacement)
  {
    seq(|at|, i requires 0 <= i < |at| => Edit(at[i], at[i] + |m.pattern|, m.replacement))
  }

  function Clear(edits: seq<Edit>, margin: nat, forbidden: seq<Range>): (r: seq<Edit>)
    ensures forall e :: e in r <==> e in edits && !Overlaps(e.start - margin, e.end + margin, forbidden)
  {
    if edits == [] then []
    else
      (if Overlaps(edits[0].start - margin, edits[0].end + margin, forbidden) then [] else [edits[0]])
      + Clear(edits[1..], margin, forbidden)
  }

  /** The legal substitutions for one misread pattern. */
  function SubstitutionsFor(text: string, forbidden: seq<Range>, m: Misreading): seq<Edit>
    requires m.pattern != []
  {
    Clear(Replacing(FindLiteral(text, m.pattern, 0), m), 0, forbidden)
  }

  function AllSubstitutions(text: string, forbidden: seq<Range>, k: nat): seq<Edit>
    requires k <= |SUBSTITUTIONS|
  {
    if k == 0 then []
    else
      PatternsAreNotEmpty(k - 1);
      AllSubstitutions(text, forbidden, k - 1) + SubstitutionsFor(text, forbidden, SUBSTITUTIONS[k-1])
  }

  function Inserting(at: seq<nat>): (r: seq<Edit>)
    ensures |r| == |at| && forall i | 0 <= i < |r| :: r[i] == Edit(at[i], at[i], "-\n")
  {
    seq(|at|, i requires 0 <= i < |at| => Edit(at[i], at[i], "-\n"))
  }

  function AllHyphenations(text: string, forbidden: seq<Range>): (r: seq<Edit>)
    ensures forall e | e in r :: IsHyphenation(text, forbidden, e)
  {
    Clear(Inserting(FindHyphens(text, 0)), 1, forbidden)
  }

  ghost predicate IsCandidate(text: string, forbidden: seq<Range>, e: Edit) {
    IsSubstitution(text, forbidden, e) || IsHyphenation(text, forbidden, e)
  }

  // ----- nothing is missed -----

  lemma {:induction false} RunEndIs(text: string, from: nat)
    requires from <= |text|
    ensures forall k | from <= k < RunEnd(text, from) :: Lower(text[k])
    ensures RunEnd(text, from) < |text| ==> !Lower(text[RunEnd(text, from)])
    decreases |text| - from
  {
    if from < |text| && Lower(text[from]) {
      RunEndIs(text, from + 1);
    }
  }

  /** Four letters into a run of at least eight, counted from where the run begins. */
  predicate SplitsRun(text: string, p: nat) {
    IsHyphenPoint(text, p) && (p == 4 || !Lower(text[p-5]))
  }

  /** The scan is not inside a run it could still split. */
  predicate BetweenRuns(text: string, from: nat) {
    from == 0 || from >= |text| || !Lower(text[from-1]) || RunEnd(text, from) < from + 8
  }

  /** Exactly the long words are split, each at one place. */
  lemma {:induction false} HyphensAreAll(text: string, from: nat, p: nat)
    requires BetweenRuns(text, from)
    ensures p in FindHyphens(text, from) <==> p >= from + 4 && SplitsRun(text, p)
    decreases |text| - from
  {
    if from + 8 <= |text| {
      RunEndIs(text, from);
      if forall k | from <= k < from + 8 :: Lower(text[k]) {
        var r := RunEnd(text, from + 8);
        RunEndIs(text, from + 8);
        RunEndIs(text, r);
        HyphensAreAll(text, r, p);
        if from + 4 < p < r + 4 {
          assert Lower(text[p-5]);
        }
      } else {
        RunEndIs(text, from + 1);
        HyphensAreAll(text, from + 1, p);
      }
    }
  }

  lemma {:induction false} HyphenationsAreAll(text: string, forbidden: seq<Range>, e: Edit)
    ensures e in AllHyphenations(text, forbidden) <==>
            && e == Edit(e.start, e.start, "-\n") && 4 <= e.start && e.start + 4 <= |text|
            && (forall k | e.start - 4 <= k < e.start + 4 :: 'a' <= text[k] <= 'z')
            && (e.start == 4 || !('a' <= text[e.start-5] <= 'z'))
            && forall r | r in forbidden :: r.end <= e.start - 1 || e.start + 1 <= r.start
  {
    ClearIff(e.start - 1, e.start + 1, forbidden);
    HyphensAreAll(text, 0, e.start);
    var at := FindHyphens(text, 0);
    var all := Inserting(at);
    if e in all {
      var i :| 0 <= i < |all| && all[i] == e;
      assert at[i] == e.start;
    }
    if e.start in at {
      var i :| 0 <= i < |at| && at[i] == e.start;
      assert all[i] == Edit(e.start, e.start, "-\n");
    }
  }

  /** The `j`-th misreading has an occurrence, as the scan counts them, at the edit's place. */
  predicate MisreadAs(text: string, e: Edit, j: nat)
    requires j < |SUBSTITUTIONS|
  {
    PatternsAreNotEmpty(j);
    var m := SUBSTITUTIONS[j];
    e.start in FindLiteral(text, m.pattern, 0) && e == Edit(e.start, e.start + |m.pattern|, m.replacement)
  }

  predicate Misread(text: string, e: Edit, k: nat)
    requires k <= |SUBSTITUTIONS|
  {
    exists j | 0 <= j < k :: MisreadAs(text, e, j)
  }

  lemma {:induction false} SubstitutionsForAll(text: string, forbidden: seq<Range>, m: Misreading, e: Edit)
    requires m.pattern != []
    ensures e in SubstitutionsFor(text, forbidden, m) <==>
            && e.start in FindLiteral(text, m.pattern, 0) && e == Edit(e.start, e.start + |m.pattern|, m.replacement)
            && !Overlaps(e.start, e.end, forbidden)
  {
    hide SUBSTITUTIONS;
    var at := FindLiteral(text, m.pattern, 0);
    var all := Replacing(at, m);
    if e in all {
      var i :| 0 <= i < |all| && all[i] == e;
      assert at[i] == e.start;
    }
    if e.start in at {
      var i :| 0 <= i < |at| && at[i] == e.start;
      assert all[i] == Edit(e.start, e.start + |m.pattern|, m.replacement);
    }
  }

  lemma {:induction false} PatternsAreNotEmpty(k: nat)
    requires k < |SUBSTITUTIONS|
    ensures SUBSTITUTIONS[k] in SUBSTITUTIONS && SUBSTITUTIONS[k].pattern != []
  {
  }

  /** The substitutions are exactly the clear occurrences, of every misreading. */
  lemma {:induction false} SubstitutionsAreAll(text: string, forbidden: seq<Range>, k: nat, e: Edit)
    requires k <= |SUBSTITUTIONS|
    ensures e in AllSubstitutions(text, forbidden, k) <==> Misread(text, e, k) && !Overlaps(e.start, e.end, forbidden)
  {
    hide SUBSTITUTIONS, SubstitutionsFor, FindLiteral, Overlaps, Misread;
    NothingMisread(text, e);
    if k > 0 {
      SubstitutionsAreAll(text, forbidden, k - 1, e);
      MisreadStep(text, e, k);
      SubstitutionsForAll(text, forbidden, SUBSTITUTIONS[k-1], e);
    }
  }

  lemma {:induction false} NothingMisread(text: string, e: Edit)
    ensures !Misread(text, e, 0)
  {
  }

  lemma {:induction false} MisreadStep(text: string, e: Edit, k: nat)
    requires 0 < k <= |SUBSTITUTIONS|
    ensures Misread(text, e, k) <==> Misread(text, e, k - 1) || MisreadAs(text, e, k - 1)
    ensures SUBSTITUTIONS[k-1].pattern != []
  {
    hide SUBSTITUTIONS, MisreadAs;
    PatternsAreNotEmpty(k - 1);
  }

  lemma {:induction false} SubstitutionsAreLegal(text: string, forbidden: seq<Range>, e: Edit)
    requires e in AllSubstitutions(text, forbidden, |SUBSTITUTIONS|)
    ensures IsSubstitution(text, forbidden, e)
  {
    hide SUBSTITUTIONS, FindLiteral, Overlaps, AllSubstitutions, MisreadAs, IsSubstitution;
    SubstitutionsAreAll(text, forbidden, |SUBSTITUTIONS|, e);
    var j: nat :| j < |SUBSTITUTIONS| && MisreadAs(text, e, j);
    MisreadIsLegal(text, forbidden, e, j);
  }

  lemma {:induction false} FoundReads(text: string, pattern: string, p: nat)
    requires pattern != [] && p in FindLiteral(text, pattern, 0)
    ensures p + |pattern| <= |text| && text[p..p + |pattern|] == pattern
  {
    hide FindLiteral;
    var at := FindLiteral(text, pattern, 0);
    var i :| 0 <= i < |at| && at[i] == p;
  }

  lemma {:induction false} MisreadIsLegal(text: string, forbidden: seq<Range>, e: Edit, j: nat)
    requires j < |SUBSTITUTIONS| && MisreadAs(text, e, j) && !Overlaps(e.start, e.end, forbidden)
    ensures IsSubstitution(text, forbidden, e)
  {
    hide SUBSTITUTIONS, FindLiteral, Overlaps;
    PatternsAreNotEmpty(j);
    FoundReads(text, SUBSTITUTIONS[j].pattern, e.start);
  }

  // ----- lines -----

  /** Line breaks before `at`: the number of the line it stands on. */
  function LineNumber(text: string, at: nat): nat
    requires at <= |text|
  {
    if at == 0 then 0 else LineNumber(text, at - 1) + if text[at-1] == '\n' then 1 else 0
  }

  lemma {:induction false} LineNumberCounts(text: string, at: nat)
    requires at <= |text|
    ensures LineNumber(text, at) == |set k: nat | k < at && text[k] == '\n'|
  {
    if at > 0 {
      var before, all := set k: nat | k < at - 1 && text[k] == '\n', set k: nat | k < at && text[k] == '\n';
      LineNumberCounts(text, at - 1);
      assert all == before + if text[at-1] == '\n' then {at - 1} else {};
    }
  }

  lemma {:induction false} LineNumberRises(text: string, a: nat, b: nat)
    requires a <= b <= |text|
    ensures LineNumber(text, a) <= LineNumber(text, b)
    ensures (forall k | a <= k < b :: text[k] != '\n') ==> LineNumber(text, a) == LineNumber(text, b)
    decreases b
  {
    if a < b {
      LineNumberRises(text, a, b - 1);
    }
  }

  lemma {:induction false} NoBreakInPatterns(m: Misreading)
    requires m in SUBSTITUTIONS
    ensures forall k | 0 <= k < |m.pattern| :: m.pattern[k] != '\n'
  {
  }

  lemma {:induction false} CandidateOnOneLine(text: string, forbidden: seq<Range>, e: Edit)
    requires IsCandidate(text, forbidden, e)
    ensures e.start <= e.end <= |text| && forall k | e.start <= k < e.end :: text[k] != '\n'
  {
    if IsSubstitution(text, forbidden, e) {
      var m :| m in SUBSTITUTIONS && text[e.start..e.end] == m.pattern;
      NoBreakInPatterns(m);
      forall k | e.start <= k < e.end
        ensures text[k] != '\n'
      {
        assert text[k] == text[e.start..e.end][k - e.start];
      }
    }
  }

  /** Candidates on different lines cannot reach into each other. */
  lemma {:induction false} DifferentLinesAreDisjoint(text: string, forbidden: seq<Range>, a: Edit, b: Edit)
    requires IsCandidate(text, forbidden, a) && IsCandidate(text, forbidden, b)
    requires a.start <= b.start <= |text| && a.start <= |text|
    requires LineNumber(text, a.start) != LineNumber(text, b.start)
    ensures a.end <= b.start
  {
    CandidateOnOneLine(text, forbidden, a);
    LineNumberRises(text, a.start, b.start);
  }

  /** A candidate leaves every non-empty forbidden range alone. */
  lemma {:induction false} CandidateAvoids(text: string, forbidden: seq<Range>, e: Edit, r: Range)
    requires IsCandidate(text, forbidden, e) && r in forbidden
    ensures e.end <= r.start || r.end <= e.start
    ensures e.start == e.end ==> e.end < r.start || r.end < e.start
  {
    var i :| 0 <= i < |forbidden| && forbidden[i] == r;
  }

  // ----- what may not be touched -----

  const BY_RANGE: (Range, Range) -> bool :=
    (a: Range, b: Range) => a.start < b.start || (a.start == b.start && a.end <= b.end)

  /** A line's label with the space after it, and its value when it is short. */
  function LineRanges(line: FactLine): seq<Range> {
    [Range(line.labelStart, line.valueStart)]
    + if |line.value| < MIN_CORRUPTIBLE then [Range(line.valueStart, line.ValueEnd())] else []
  }

  function AllLineRanges(lines: seq<FactLine>): seq<Range> {
    if lines == [] then [] else AllLineRanges(lines[..|lines|-1]) + LineRanges(lines[|lines|-1])
  }

  function Protected(lines: seq<FactLine>, detections: seq<Range>): seq<Range> {
    Sort(detections + AllLineRanges(lines), BY_RANGE)
  }

  lemma {:induction false} LineRangesIncluded(lines: seq<FactLine>, i: nat, r: Range)
    requires i < |lines| && r in LineRanges(lines[i])
    ensures r in AllLineRanges(lines)
  {
    if i < |lines| - 1 {
      LineRangesIncluded(lines[..|lines|-1], i, r);
    }
  }

  /** Every detection, every label and every short value is protected. */
  lemma {:induction false} ProtectedHas(lines: seq<FactLine>, detections: seq<Range>)
    ensures forall r | r in detections :: r in Protected(lines, detections)
    ensures forall i | 0 <= i < |lines| :: Range(lines[i].labelStart, lines[i].valueStart) in Protected(lines, detections)
    ensures forall i | 0 <= i < |lines| && |lines[i].value| < MIN_CORRUPTIBLE ::
              Range(lines[i].valueStart, lines[i].ValueEnd()) in Protected(lines, detections)
  {
    var all := detections + AllLineRanges(lines);
    SortPermutes(all, BY_RANGE);
    SameElements(Protected(lines, detections), all);
    forall i | 0 <= i < |lines|
      ensures forall r | r in LineRanges(lines[i]) :: r in all
    {
      forall r | r in LineRanges(lines[i])
        ensures r in all
      {
        LineRangesIncluded(lines, i, r);
      }
    }
    forall i | 0 <= i < |lines|
      ensures Range(lines[i].labelStart, lines[i].valueStart) in all
    {
      assert LineRanges(lines[i])[0] in LineRanges(lines[i]);
    }
    forall i | 0 <= i < |lines| && |lines[i].value| < MIN_CORRUPTIBLE
      ensures Range(lines[i].valueStart, lines[i].ValueEnd()) in all
    {
      assert LineRanges(lines[i])[1] in LineRanges(lines[i]);
    }
  }

  method ProtectedRanges(lines: seq<FactLine>, detections: seq<Range>) returns (ranges: seq<Range>)
    ensures ranges == Protected(lines, detections)
  {
    ranges := detections;
    for i := 0 to |lines|
      invariant ranges == detections + AllLineRanges(lines[..i])
    {
      var line := lines[i];
      assert lines[..i+1][..i] == lines[..i];
      ranges := ranges + [Range(line.labelStart, line.valueStart)];
      if |line.value| < MIN_CORRUPTIBLE {
        ranges := ranges + [Range(line.valueStart, line.ValueEnd())];
      }
    }
    assert lines[..|lines|] == lines;
    ranges := Sort(ranges, BY_RANGE);
  }

  // ----- choosing -----

  /** The four shuffles drawn from the item's random source, in the order they are drawn. */
  datatype Shuffles = Shuffles(first: seq<Edit> -> seq<Edit>, second: seq<Edit> -> seq<Edit>,
                               third: seq<Edit> -> seq<Edit>, fourth: seq<Edit> -> seq<Edit>)

  ghost predicate OnlyReorders(f: seq<Edit> -> seq<Edit>) {
    forall s :: multiset(f(s)) == multiset(s)
  }

  ghost predicate AreShuffles(rng: Shuffles) {
    OnlyReorders(rng.first) && OnlyReorders(rng.second) && OnlyReorders(rng.third) && OnlyReorders(rng.fourth)
  }

  /** The edit lies within a value long enough to survive it. */
  predicate Inside(e: Edit, corruptible: seq<Range>) {
    exists i | 0 <= i < |corruptible| ::
      && corruptible[i].start <= e.start
      && e.end <= corruptible[i].end && e.start + 1 <= corruptible[i].end
  }

  function Within(edits: seq<Edit>, corruptible: seq<Range>, inside: bool): (r: seq<Edit>)
    ensures forall e :: e in r <==> e in edits && Inside(e, corruptible) == inside
  {
    if edits == [] then []
    else (if Inside(edits[0], corruptible) == inside then [edits[0]] else []) + Within(edits[1..], corruptible, inside)
  }

  /** Substitutions inside values first, then one hyphenation inside a value, then the prose. */
  function CandidateOrder(text: string, forbidden: seq<Range>, corruptible: seq<Range>, rng: Shuffles): seq<Edit> {
    var substitutions := AllSubstitutions(text, forbidden, |SUBSTITUTIONS|);
    var hyphens := AllHyphenations(text, forbidden);
    var inner := rng.second(Within(hyphens, corruptible, true));
    rng.first(Within(substitutions, corruptible, true))
    + (if inner == [] then [] else inner[..1])
    + rng.third(Within(substitutions, corruptible, false))
    + rng.fourth(Within(hyphens, corruptible, false))
  }

  /** Inside a value: at least one character of it, and nothing else, is touched or split at. */
  lemma {:induction false} InsideIff(e: Edit, corruptible: seq<Range>)
    ensures Inside(e, corruptible) <==>
            exists r | r in corruptible :: r.start <= e.start && (if e.end > e.start then e.end else e.start + 1) <= r.end
  {
    if r :| r in corruptible && r.start <= e.start && (if e.end > e.start then e.end else e.start + 1) <= r.end {
      var i :| 0 <= i < |corruptible| && corruptible[i] == r;
    }
    if Inside(e, corruptible) {
      var i :| 0 <= i < |corruptible| && corruptible[i].start <= e.start && e.end <= corruptible[i].end
               && e.start + 1 <= corruptible[i].end;
      assert corruptible[i] in corruptible;
    }
  }

  /** The order: all substitutions inside a value, then one hyphenation inside a value if there is any, then
      all substitutions and last all hyphenations in the prose.  `inner` substitutions come first, the prose
      begins at `prose` and its hyphenations at `last`. */
  lemma {:induction false} CandidateOrderIs(text: string, forbidden: seq<Range>, corruptible: seq<Range>, rng: Shuffles)
    returns (inner: nat, prose: nat, last: nat)
    requires AreShuffles(rng)
    ensures var ordered := CandidateOrder(text, forbidden, corruptible, rng);
      var substitutions, hyphens := AllSubstitutions(text, forbidden, |SUBSTITUTIONS|), AllHyphenations(text, forbidden);
      && inner <= prose <= last <= |ordered|
      && (forall e :: e in ordered[..inner] <==> e in substitutions && Inside(e, corruptible))
      && (prose == inner || (prose == inner + 1 && ordered[inner] in hyphens && Inside(ordered[inner], corruptible)))
      && (prose == inner <==> forall e | e in hyphens :: !Inside(e, corruptible))
      && (forall e :: e in ordered[prose..last] <==> e in substitutions && !Inside(e, corruptible))
      && (forall e :: e in ordered[last..] <==> e in hyphens && !Inside(e, corruptible))
  {
    hide AllSubstitutions, AllHyphenations, Within, SUBSTITUTIONS, Inside, OnlyReorders;
    var substitutions, hyphens := AllSubstitutions(text, forbidden, |SUBSTITUTIONS|), AllHyphenations(text, forbidden);
    var a, b := rng.first(Within(substitutions, corruptible, true)), rng.second(Within(hyphens, corruptible, true));
    var c, d := rng.third(Within(substitutions, corruptible, false)), rng.fourth(Within(hyphens, corruptible, false));
    var one := if b == [] then [] else b[..1];
    var ordered := CandidateOrder(text, forbidden, corruptible, rng);
    inner, prose, last := |a|, |a + one|, |a + one + c|;
    assert ordered == a + one + c + d;
    FourParts(a, one, c, d);
    forall e
      ensures e in a <==> e in substitutions && Inside(e, corruptible)
      ensures e in b <==> e in hyphens && Inside(e, corruptible)
      ensures e in c <==> e in substitutions && !Inside(e, corruptible)
      ensures e in d <==> e in hyphens && !Inside(e, corruptible)
    {
      ReorderedMember(rng.first, Within(substitutions, corruptible, true), e);
      ReorderedMember(rng.second, Within(hyphens, corruptible, true), e);
      ReorderedMember(rng.third, Within(substitutions, corruptible, false), e);
      ReorderedMember(rng.fourth, Within(hyphens, corruptible, false), e);
    }
    if b != [] {
      assert b[0] in b && (a + one + c + d)[|a|] == b[0];
    }
    assert forall e | e in b :: b != [];
  }

  lemma {:induction false} FourParts(a: seq<Edit>, b: seq<Edit>, c: seq<Edit>, d: seq<Edit>)
    ensures var all := a + b + c + d;
      all[..|a|] == a && all[|a + b|..|a + b + c|] == c && all[|a + b + c|..] == d
  {
  }

  lemma {:induction false} ReorderedMember(f: seq<Edit> -> seq<Edit>, s: seq<Edit>, e: Edit)
    requires OnlyReorders(f)
    ensures e in f(s) <==> e in s
  {
    assert e in f(s) <==> e in multiset(f(s));
    assert e in s <==> e in multiset(s);
  }

  lemma {:induction false} OrderedAreCandidates(text: string, forbidden: seq<Range>, corruptible: seq<Range>, rng: Shuffles)
    requires AreShuffles(rng)
    ensures forall e | e in CandidateOrder(text, forbidden, corruptible, rng) :: IsCandidate(text, forbidden, e)
  {
    var substitutions := AllSubstitutions(text, forbidden, |SUBSTITUTIONS|);
    var hyphens := AllHyphenations(text, forbidden);
    hide IsSubstitution, IsHyphenation, AllSubstitutions, AllHyphenations, Within, OnlyReorders;
    forall e | e in CandidateOrder(text, forbidden, corruptible, rng)
      ensures IsCandidate(text, forbidden, e)
    {
      ReorderedMember(rng.first, Within(substitutions, corruptible, true), e);
      ReorderedMember(rng.second, Within(hyphens, corruptible, true), e);
      ReorderedMember(rng.third, Within(substitutions, corruptible, false), e);
      ReorderedMember(rng.fourth, Within(hyphens, corruptible, false), e);
      if e in substitutions {
        SubstitutionsAreLegal(text, forbidden, e);
      }
    }
  }

  ghost predicate OnDistinctLines(text: string, edits: seq<Edit>)
  {
    && (forall i | 0 <= i < |edits| :: edits[i].start <= |text|)
    && forall i, j | 0 <= i < j < |edits| :: LineNumber(text, edits[i].start) != LineNumber(text, edits[j].start)
  }

  /** Some edit starts on this line. */
  ghost predicate UsesLine(text: string, edits: seq<Edit>, line: nat) {
    exists i | 0 <= i < |edits| :: edits[i].start <= |text| && LineNumber(text, edits[i].start) == line
  }

  lemma {:induction false} UsesLineAppend(text: string, edits: seq<Edit>, e: Edit, line: nat)
    requires e.start <= |text|
    ensures UsesLine(text, edits + [e], line) <==> UsesLine(text, edits, line) || LineNumber(text, e.start) == line
  {
    var more := edits + [e];
    if UsesLine(text, edits, line) {
      var i :| 0 <= i < |edits| && edits[i].start <= |text| && LineNumber(text, edits[i].start) == line;
      assert more[i] == edits[i];
    }
    assert more[|edits|] == e;
  }

  lemma {:induction false} DistinctAppend(text: string, edits: seq<Edit>, e: Edit)
    requires OnDistinctLines(text, edits) && e.start <= |text| && !UsesLine(text, edits, LineNumber(text, e.start))
    ensures OnDistinctLines(text, edits + [e])
  {
  }

  /** The line is taken (or, for an edit beyond the text, there is none). */
  ghost predicate LineTaken(text: string, chosen: seq<Edit>, e: Edit) {
    e.start <= |text| ==> UsesLine(text, chosen, LineNumber(text, e.start))
  }

  /** First come, first served: one edit per line until three are chosen. */
  ghost function Greedy(text: string, ordered: seq<Edit>, k: nat): seq<Edit>
    requires k <= |ordered|
  {
    if k == 0 then []
    else
      var chosen := Greedy(text, ordered, k - 1);
      if |chosen| == MAX_CORRUPTIONS || LineTaken(text, chosen, ordered[k-1]) then chosen else chosen + [ordered[k-1]]
  }

  lemma {:induction false} GreedyStep(text: string, ordered: seq<Edit>, k: nat)
    requires k < |ordered| && ordered[k].start <= |text|
    ensures Greedy(text, ordered, 0) == []
    ensures var chosen := Greedy(text, ordered, k);
      Greedy(text, ordered, k + 1) ==
        if |chosen| == MAX_CORRUPTIONS || UsesLine(text, chosen, LineNumber(text, ordered[k].start)) then chosen
        else chosen + [ordered[k]]
  {
    hide UsesLine, LineNumber;
  }

  lemma {:induction false} GreedyFull(text: string, ordered: seq<Edit>, k: nat)
    requires k <= |ordered| && |Greedy(text, ordered, k)| == MAX_CORRUPTIONS
    ensures Greedy(text, ordered, |ordered|) == Greedy(text, ordered, k)
    decreases |ordered| - k
  {
    if k < |ordered| {
      GreedyFull(text, ordered, k + 1);
    }
  }

  /** At most three, never two on one line, the earliest of the order first; whatever is left
      out stands on a line already used, unless three are chosen. */
  method PickEdits(text: string, forbidden: seq<Range>, corruptible: seq<Range>, rng: Shuffles)
    returns (chosen: seq<Edit>)
    requires AreShuffles(rng)
    ensures |chosen| <= 3
    ensures forall e | e in chosen :: IsCandidate(text, forbidden, e)
    ensures OnDistinctLines(text, chosen)
    ensures var ordered := CandidateOrder(text, forbidden, corruptible, rng);
      && chosen == Greedy(text, ordered, |ordered|)
      && (ordered != [] ==> chosen != [] && chosen[0] == ordered[0])
      && (|chosen| < 3 ==>
          forall e | e in ordered :: e.start <= |text| && UsesLine(text, chosen, LineNumber(text, e.start)))
  {
    hide CandidateOrder, LineNumber, IsCandidate, OnDistinctLines, UsesLine, OnlyReorders, AreShuffles, SUBSTITUTIONS, Greedy;
    var ordered := CandidateOrder(text, forbidden, corruptible, rng);
    OrderedAreCandidates(text, forbidden, corruptible, rng);
    chosen := [];
    var usedLines: set<nat> := {};
    NoneChosen(text, ordered);
    for k := 0 to |ordered|
      invariant |chosen| < MAX_CORRUPTIONS && chosen == Greedy(text, ordered, k)
      invariant forall e | e in chosen :: IsCandidate(text, forbidden, e)
      invariant OnDistinctLines(text, chosen)
      invariant forall line :: line in usedLines <==> UsesLine(text, chosen, line)
      invariant forall i | 0 <= i < k :: ordered[i].start <= |text| && LineNumber(text, ordered[i].start) in usedLines
      invariant if k == 0 then usedLines == {} && chosen == [] else chosen != [] && chosen[0] == ordered[0]
    {
      var e := ordered[k];
      assert e in ordered;
      CandidateOnOneLine(text, forbidden, e);
      var lineNumber := LineNumber(text, e.start);
      GreedyStep(text, ordered, k);
      if lineNumber !in usedLines {
        forall line
          ensures UsesLine(text, chosen + [e], line) <==> UsesLine(text, chosen, line) || lineNumber == line
        {
          UsesLineAppend(text, chosen, e, line);
        }
        DistinctAppend(text, chosen, e);
        usedLines := usedLines + {lineNumber};
        chosen := chosen + [e];
        if |chosen| == MAX_CORRUPTIONS {
          GreedyFull(text, ordered, k + 1);
          return;
        }
      }
    }
  }

  lemma {:induction false} NoneChosen(text: string, ordered: seq<Edit>)
    ensures OnDistinctLines(text, []) && Greedy(text, ordered, 0) == [] && forall line :: !UsesLine(text, [], line)
  {
  }

  // ----- corrupting -----

  const BY_START: (Edit, Edit) -> bool := (a: Edit, b: Edit) => a.start <= b.start

  /** Candidates on distinct lines, put in text order, are disjoint. */
  lemma {:induction false} SortedAreDisjoint(text: string, forbidden: seq<Range>, chosen: seq<Edit>)
    requires OnDistinctLines(text, chosen) && forall e | e in chosen :: IsCandidate(text, forbidden, e)
    ensures Disjoint(text, Sort(chosen, BY_START))
    ensures forall e | e in Sort(chosen, BY_START) :: IsCandidate(text, forbidden, e)
    ensures |Sort(chosen, BY_START)| == |chosen|
  {
    var edits := Sort(chosen, BY_START);
    assert TotalPreorder(BY_START);
    SortSorted(chosen, BY_START);
    SortPermutes(chosen, BY_START);
    SameElements(edits, chosen);
    var apart := (a: Edit, b: Edit) =>
      a.start <= |text| && b.start <= |text| && LineNumber(text, a.start) != LineNumber(text, b.start);
    assert Pairwise(chosen, apart);
    SortPairwise(chosen, BY_START, apart);
    forall i | 0 <= i < |edits|
      ensures edits[i].start <= edits[i].end <= |text|
    {
      assert edits[i] in edits;
      CandidateOnOneLine(text, forbidden, edits[i]);
    }
    forall i, j | 0 <= i < j < |edits|
      ensures edits[i].end <= edits[j].start
    {
      assert edits[i] in edits && edits[j] in edits;
      assert BY_START(edits[i], edits[j]) && apart(edits[i], edits[j]);
      DifferentLinesAreDisjoint(text, forbidden, edits[i], edits[j]);
    }
  }

  lemma {:induction false} ProtectedIsUntouched(text: string, forbidden: seq<Range>, edits: seq<Edit>, r: Range)
    requires forall e | e in edits :: IsCandidate(text, forbidden, e)
    requires r in forbidden
    ensures Untouched(edits, r)
  {
    forall i | 0 <= i < |edits|
      ensures edits[i].end <= r.start || r.end <= edits[i].start
    {
      assert edits[i] in edits;
      CandidateAvoids(text, forbidden, edits[i], r);
    }
  }

  /** No edit ends within a label or right behind it, so label and value move together. */
  lemma {:induction false} LabelAndValueMoveTogether(text: string, forbidden: seq<Range>, edits: seq<Edit>, r: Range, i: nat)
    requires forall e | e in edits :: IsCandidate(text, forbidden, e)
    requires r in forbidden && r.start < r.end && i <= |edits|
    ensures Shift(edits, r.end, i) == Shift(edits, r.start, i)
    decreases |edits| - i
  {
    if i < |edits| {
      LabelAndValueMoveTogether(text, forbidden, edits, r, i + 1);
      assert edits[i] in edits;
      CandidateAvoids(text, forbidden, edits[i], r);
      CandidateOnOneLine(text, forbidden, edits[i]);
    }
  }

  /** A protected range reads the same after the corruption, moved by what came before it. */
  lemma {:induction false} ProtectedSurvives(text: string, forbidden: seq<Range>, edits: seq<Edit>, r: Range)
    requires Disjoint(text, edits) && forall e | e in edits :: IsCandidate(text, forbidden, e)
    requires r in forbidden && r.start <= r.end <= |text|
    ensures ReadsAt(Substitute(text, edits, 0, 0), r.start + Shift(edits, r.start, 0), text[r.start..r.end])
  {
    ProtectedIsUntouched(text, forbidden, edits, r);
    RangeSurvives(text, edits, 0, 0, r);
  }

  /** The letter stays long enough in front of the fact for its offsets to stay offsets. */
  predicate CanShift(line: FactLine, edits: seq<Edit>) {
    line.labelStart <= line.valueStart && line.labelStart + Shift(edits, line.labelStart, 0) >= 0
  }

  /** A fact with its offsets moved by the edits that end before its label. */
  function Shifted(line: FactLine, edits: seq<Edit>): FactLine
    requires CanShift(line, edits)
  {
    var delta := Shift(edits, line.labelStart, 0);
    line.(labelStart := line.labelStart + delta, valueStart := line.valueStart + delta)
  }

  /** What a corrupted letter still guarantees about one fact. */
  ghost predicate StillThere(text: string, line: FactLine) {
    && ReadsAt(text, line.labelStart, line.anchor + " ")
    && line.valueStart == line.labelStart + |line.anchor| + 1
    && (|line.value| < MIN_CORRUPTIBLE ==> ReadsAt(text, line.valueStart, line.value))
  }

  lemma {:induction false} FactSurvives(text: string, forbidden: seq<Range>, edits: seq<Edit>, line: FactLine)
    requires Disjoint(text, edits) && forall e | e in edits :: IsCandidate(text, forbidden, e)
    requires Placed(text, line) && Range(line.labelStart, line.valueStart) in forbidden
    requires |line.value| < MIN_CORRUPTIBLE ==> Range(line.valueStart, line.ValueEnd()) in forbidden
    ensures CanShift(line, edits)
    ensures StillThere(Substitute(text, edits, 0, 0), Shifted(line, edits))
  {
    var r := Range(line.labelStart, line.valueStart);
    ProtectedSurvives(text, forbidden, edits, r);
    LabelAndValueMoveTogether(text, forbidden, edits, r, 0);
    if |line.value| < MIN_CORRUPTIBLE {
      ProtectedSurvives(text, forbidden, edits, Range(line.valueStart, line.ValueEnd()));
    }
  }

  /** Right to left at the old offsets is the same as all at once. */
  method ApplyRightToLeft(text: string, edits: seq<Edit>) returns (r: string)
    requires Disjoint(text, edits)
    ensures r == Substitute(text, edits, 0, 0)
  {
    hide Disjoint;
    r := text;
    var k := |edits|;
    assert text == text[0..];
    while k > 0
      invariant 0 <= k <= |edits|
      invariant r == Substitute(text, edits, 0, k)
    {
      k := k - 1;
      EditsInside(text, edits, k);
      var e := edits[k];
      SubstituteFromLeft(text, edits, e.end, k + 1);
      SpliceStep(text, edits, k);
      SubstituteFromLeft(text, edits, e.start, k);
      r := r[..e.start] + e.replacement + r[e.end..];
    }
  }

  lemma {:induction false} EditsInside(text: string, edits: seq<Edit>, k: nat)
    requires Disjoint(text, edits) && k < |edits|
    ensures edits[k].start <= edits[k].end <= |text|
    ensures k + 1 < |edits| ==> edits[k].end <= edits[k+1].start
  {
  }

  /** The edits a letter's layout, detections and random source lead to, in text order. */
  ghost function ChosenEdits(text: string, lines: seq<FactLine>, detections: seq<Range>, rng: Shuffles): seq<Edit> {
    var ordered := CandidateOrder(text, Protected(lines, detections), LongValues(lines), rng);
    Sort(Greedy(text, ordered, |ordered|), BY_START)
  }

  /** Corrupts the letter: `edits`, in text order, are what was done to it. */
  method Corrupt(text: string, lines: seq<FactLine>, detections: seq<Range>, rng: Shuffles)
    returns (corrupted: string, shifted: seq<FactLine>, ghost edits: seq<Edit>)
    requires AreShuffles(rng)
    requires forall i | 0 <= i < |lines| :: Placed(text, lines[i])
    ensures edits == ChosenEdits(text, lines, detections, rng)
    ensures |edits| <= 3 && Disjoint(text, edits)
    ensures forall e | e in edits :: IsCandidate(text, Protected(lines, detections), e)
    ensures corrupted == Substitute(text, edits, 0, 0)
    ensures |corrupted| == |text| + TotalGrowth(edits, 0)
    ensures |shifted| == |lines|
    ensures forall i | 0 <= i < |lines| ::
              CanShift(lines[i], edits) && shifted[i] == Shifted(lines[i], edits) && StillThere(corrupted, shifted[i])
    ensures forall r | r in detections && r.start <= r.end <= |text| ::
              ReadsAt(corrupted, r.start + Shift(edits, r.start, 0), text[r.start..r.end])
  {
    hide Protected, IsCandidate, OnDistinctLines, CandidateOrder, AreShuffles, Disjoint, Shifted, CanShift, Placed;
    hide StillThere, ReadsAt, UsesLine, LongValues, SUBSTITUTIONS, Substitute, Shift, Greedy;
    var forbidden := ProtectedRanges(lines, detections);
    ProtectedHas(lines, detections);
    var corruptible := LongValues(lines);
    var chosen := PickEdits(text, forbidden, corruptible, rng);
    SortedAreDisjoint(text, forbidden, chosen);
    var ordered := Sort(chosen, BY_START);
    edits := ordered;
    corrupted := ApplyRightToLeft(text, ordered);
    LengthChanges(text, ordered, 0, 0);
    forall i | 0 <= i < |lines|
      ensures CanShift(lines[i], ordered) && StillThere(corrupted, Shifted(lines[i], ordered))
    {
      FactSurvives(text, forbidden, ordered, lines[i]);
    }
    forall r | r in detections && r.start <= r.end <= |text|
      ensures ReadsAt(corrupted, r.start + Shift(ordered, r.start, 0), text[r.start..r.end])
    {
      ProtectedSurvives(text, forbidden, ordered, r);
    }
    shifted := seq(|lines|, i requires 0 <= i < |lines| && CanShift(lines[i], ordered) => Shifted(lines[i], ordered));
  }

  function LongValues(lines: seq<FactLine>): seq<Range> {
    if lines == [] then []
    else
      var line := lines[|lines|-1];
      LongValues(lines[..|lines|-1])
      + if |line.value| >= MIN_CORRUPTIBLE then [Range(line.valueStart, line.ValueEnd())] else []
  }

  /** The values the corruption may work on are exactly the places of those of twelve characters or more. */
  lemma {:induction false} LongValuesAre(lines: seq<FactLine>, r: Range)
    ensures r in LongValues(lines) <==>
            exists i | 0 <= i < |lines| :: |lines[i].value| >= 12 && r == Range(lines[i].valueStart, lines[i].valueStart + |lines[i].value|)
  {
    if lines != [] {
      var n := |lines| - 1;
      LongValuesAre(lines[..n], r);
      if i :| 0 <= i < n && |lines[..n][i].value| >= 12
              && r == Range(lines[..n][i].valueStart, lines[..n][i].valueStart + |lines[..n][i].value|) {
        assert lines[i] == lines[..n][i];
      }
      if i :| 0 <= i < |lines| && |lines[i].value| >= 12 && r == Range(lines[i].valueStart, lines[i].valueStart + |lines[i].value|) {
        assert i < n ==> lines[..n][i] == lines[i];
      }
    }
  }

  // ----- the letter and its sidecar -----

  /** The sidecar entry: sealed away, or the clean value with its quote. */
  datatype Entry =
    | Sealed(field: string, anchor: string)
    | Literal(field: string, anchor: string, value: string, quote: string)

  predicate IsSealed(line: FactLine, detections: seq<Range>) {
    Overlaps(line.valueStart, line.ValueEnd(), detections)
  }

  function EntryFor(line: FactLine, detections: seq<Range>): Entry {
    if IsSealed(line, detections) then Sealed(line.field, line.anchor)
    else Literal(line.field, line.anchor, line.value, line.Quote())
  }

  /** A fact is stated in the sidecar, by its own value and quote, exactly when no detection touches its
      value; otherwise only its name and label are. */
  lemma {:induction false} EntryIs(line: FactLine, detections: seq<Range>)
    ensures var clear := forall r | r in detections :: r.end <= line.valueStart || line.valueStart + |line.value| <= r.start;
      EntryFor(line, detections) ==
        if clear then Literal(line.field, line.anchor, line.value, line.anchor + " " + line.value)
        else Sealed(line.field, line.anchor)
  {
    ClearIff(line.valueStart, line.ValueEnd(), detections);
  }

  lemma {:induction false} PlacedIsStillThere(text: string, line: FactLine)
    requires Placed(text, line)
    ensures StillThere(text, line) && ReadsAt(text, line.labelStart, line.Quote())
  {
    QuoteAtLabel(text, line);
  }

  /** Renders a letter with its sidecar.  `composed` are the facts' places in the clean letter, `edits`
      what was done to it and `lines` the places in the text that is delivered: text, fixture and
      places always agree. */
  method RenderLetter(subject: string, opening: string, closing: string, facts: seq<Fact>, labels: map<string, string>,
                      sender: Sender, withSender: bool, ocrNoise: bool, detect: string -> seq<Range>, rng: Shuffles)
    returns (r: Result<(string, seq<Entry>), MissingLabel>, ghost composed: seq<FactLine>, ghost edits: seq<Edit>,
             ghost lines: seq<FactLine>)
    requires AreShuffles(rng)
    ensures r.Ok? <==> Labelled(facts, labels)
    ensures r.Ok? ==>
              var (text, fixture) := r.value;
              var clean := Joined(Opening(subject, opening, sender, withSender) + FactPieces(facts, labels)
                                  + Closing(closing, sender));
              && Recorded(composed, facts, labels, clean)
              && edits == (if ocrNoise then ChosenEdits(clean, composed, detect(clean), rng) else [])
              && Disjoint(clean, edits) && text == Substitute(clean, edits, 0, 0)
              && |fixture| == |lines| == |facts|
              && (forall i | 0 <= i < |lines| ::
                    && CanShift(composed[i], edits) && lines[i] == Shifted(composed[i], edits)
                    && StillThere(text, lines[i])
                    && fixture[i] == EntryFor(lines[i], detect(text))
                    && fixture[i].field == facts[i].field && fixture[i].anchor == lines[i].anchor
                    && (fixture[i].Literal? <==> forall r | r in detect(text) :: r.end <= lines[i].valueStart || lines[i].ValueEnd() <= r.start)
                    && (fixture[i].Literal? ==>
                          fixture[i].value == facts[i].value && fixture[i].quote == lines[i].anchor + " " + facts[i].value))
              && (!ocrNoise ==> forall i | 0 <= i < |lines| :: ReadsAt(text, lines[i].labelStart, lines[i].Quote()))
  {
    hide IsCandidate, SUBSTITUTIONS, Disjoint, Substitute, Shift, StillThere, ReadsAt, AreShuffles, EntryFor, Labelled;
    hide Opening, Closing, FactPieces, Joined, Protected, Placed, ChosenEdits, Shifted, CanShift;
    composed, edits, lines := [], [], [];
    var letter := Compose(subject, opening, closing, facts, labels, sender, withSender);
    if letter.Err? {
      r := Err(letter.error);
      return;
    }
    var text, placed := letter.value.0, letter.value.1;
    composed := placed;
    if ocrNoise {
      text, placed, edits := Corrupt(text, placed, detect(text), rng);
    } else {
      Uncorrupted(text, placed);
    }
    lines := placed;
    var detections := detect(text);
    var fixture := seq(|placed|, i requires 0 <= i < |placed| => EntryFor(placed[i], detections));
    forall i | 0 <= i < |placed|
      ensures fixture[i] == EntryFor(placed[i], detections)
      ensures fixture[i].field == facts[i].field && fixture[i].anchor == placed[i].anchor
      ensures fixture[i].Literal? <==> forall r | r in detections :: r.end <= placed[i].valueStart || placed[i].ValueEnd() <= r.start
      ensures fixture[i].Literal? ==>
                fixture[i].value == facts[i].value && fixture[i].quote == placed[i].anchor + " " + facts[i].value
    {
      EntryIs(placed[i], detections);
      ShiftedKeeps(composed[i], placed[i], edits);
    }
    r := Ok((text, fixture));
  }

  lemma {:induction false} ShiftedKeeps(line: FactLine, shifted: FactLine, edits: seq<Edit>)
    requires CanShift(line, edits) && shifted == Shifted(line, edits)
    ensures shifted.field == line.field && shifted.anchor == line.anchor && shifted.value == line.value
  {
  }

  /** Without edits every line stays where it was written, and reads in full. */
  lemma {:induction false} Uncorrupted(text: string, lines: seq<FactLine>)
    requires forall i | 0 <= i < |lines| :: Placed(text, lines[i])
    ensures Disjoint(text, []) && Substitute(text, [], 0, 0) == text
    ensures forall i | 0 <= i < |lines| ::
              && CanShift(lines[i], []) && Shifted(lines[i], []) == lines[i] && StillThere(text, lines[i])
              && ReadsAt(text, lines[i].labelStart, lines[i].Quote())
  {
    hide StillThere, ReadsAt;
    forall i | 0 <= i < |lines|
      ensures StillThere(text, lines[i]) && ReadsAt(text, lines[i].labelStart, lines[i].Quote())
    {
      PlacedIsStillThere(text, lines[i]);
    }
  }
}
