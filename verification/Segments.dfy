/** Cutting a working copy into the runs a page paints separately (api/demo.py), around the
    placeholders of engine/redact/placeholders.py. */
module Segments {
  import opened Payload
  import opened Sequences
  import opened Wrappers

  // ----- placeholders -----

  const ALPHABET := "BCDFGHJKMNPQRSTVWXZ23456789"
  const TOKEN_LENGTH := 12
  const OPENING := "[[PII|"
  const CLOSING := "]]"

  predicate IsKind(kind: string) {
    kind != [] && forall i | 0 <= i < |kind| :: 'A' <= kind[i] <= 'Z'
  }

  predicate IsToken(token: string) {
    |token| == TOKEN_LENGTH && forall i | 0 <= i < |token| :: token[i] in ALPHABET
  }

  function Spelled(kind: string, token: string): string {
    OPENING + kind + "|" + token + CLOSING
  }

  /** The syntax, independent of how it is searched for. */
  ghost predicate IsPlaceholder(s: string, kind: string) {
    IsKind(kind) && exists token :: IsToken(token) && s == Spelled(kind, token)
  }

  /** The end of the run of capitals from `i` on. */
  function KindEnd(text: string, i: nat): (k: nat)
    requires i <= |text|
    ensures i <= k <= |text|
    ensures forall j | i <= j < k :: 'A' <= text[j] <= 'Z'
    ensures k < |text| ==> !('A' <= text[k] <= 'Z')
    decreases |text| - i
  {
    if i < |text| && 'A' <= text[i] <= 'Z' then KindEnd(text, i + 1) else i
  }

  predicate OpensAt(text: string, i: nat) {
    i + |OPENING| <= |text| && text[i..i+|OPENING|] == OPENING
  }

  predicate ClosesAt(text: string, k: nat) {
    && k + TOKEN_LENGTH + 3 <= |text|
    && text[k] == '|'
    && IsToken(text[k+1..k+1+TOKEN_LENGTH])
    && text[k+1+TOKEN_LENGTH..k+3+TOKEN_LENGTH] == CLOSING
  }

  datatype Match = Match(start: nat, end: nat, kind: string)

  /** The match that starts at `i`, read left to right. */
  function MatchAt(text: string, i: nat): Option<Match> {
    if !OpensAt(text, i) then None
    else
      var from := i + |OPENING|;
      var k := KindEnd(text, from);
      if k > from && ClosesAt(text, k) then Some(Match(i, k + TOKEN_LENGTH + 3, text[from..k])) else None
  }

  lemma {:induction false} KindEndIs(text: string, i: nat, k: nat)
    requires i <= k < |text| && (forall j | i <= j < k :: 'A' <= text[j] <= 'Z') && !('A' <= text[k] <= 'Z')
    ensures KindEnd(text, i) == k
    decreases k - i
  {
    if i < k {
      KindEndIs(text, i + 1, k);
    }
  }

  /** The pieces of a spelled placeholder, by position. */
  predicate HasPieces(s: string, kind: string, token: string) {
    && |s| == 9 + |kind| + |token|
    && s[..6] == OPENING && s[6..6+|kind|] == kind && s[6+|kind|] == '|'
    && s[7+|kind|..7+|kind|+|token|] == token && s[7+|kind|+|token|..] == CLOSING
  }

  lemma {:induction false} SpelledPieces(kind: string, token: string)
    ensures HasPieces(Spelled(kind, token), kind, token)
  {
    ConcatPieces(OPENING, kind, "|", token, CLOSING);
  }

  lemma {:induction false} PiecesSpell(s: string, kind: string, token: string)
    requires HasPieces(s, kind, token)
    ensures s == Spelled(kind, token)
  {
    var n, t := |kind|, |token|;
    assert s == s[..6] + s[6..6+n] + [s[6+n]] + s[7+n..7+n+t] + s[7+n+t..];
    assert [s[6+n]] == "|";
  }

  lemma {:induction false} ConcatPieces(a: string, b: string, c: string, d: string, f: string)
    requires |c| == 1
    ensures var s := a + b + c + d + f;
      && |s| == |a| + |b| + 1 + |d| + |f|
      && s[..|a|] == a && s[|a|..|a|+|b|] == b && s[|a|+|b|] == c[0]
      && s[|a|+|b|+1..|a|+|b|+1+|d|] == d && s[|a|+|b|+1+|d|..] == f
  {
  }

  lemma {:induction false} MatchIsPlaceholder(text: string, i: nat)
    requires MatchAt(text, i).Some?
    ensures var m := MatchAt(text, i).value;
      m.start == i && i + |OPENING| < m.end <= |text| && IsPlaceholder(text[i..m.end], m.kind)
  {
    hide Spelled, IsToken, ALPHABET;
    var m, from := MatchAt(text, i).value, i + |OPENING|;
    var k := KindEnd(text, from);
    var token, s, n := text[k+1..k+1+TOKEN_LENGTH], text[i..m.end], |m.kind|;
    TokenLength(token);
    SliceOfSlice(text, i, m.end, 0, 6);
    SliceOfSlice(text, i, m.end, 6, 6 + n);
    SliceOfSlice(text, i, m.end, 7 + n, 7 + n + TOKEN_LENGTH);
    SliceOfSlice(text, i, m.end, 7 + n + TOKEN_LENGTH, |s|);
    PiecesSpell(s, m.kind, token);
  }

  lemma {:induction false} TokenLength(token: string)
    requires IsToken(token)
    ensures |token| == TOKEN_LENGTH
  {
  }

  /** Each piece of a spelled placeholder, seen in the text around it. */
  lemma {:induction false} PiecesInText(text: string, i: nat, e: nat, kind: string, token: string)
    requires i <= e <= |text| && HasPieces(text[i..e], kind, token) && |token| == TOKEN_LENGTH
    ensures var k := i + 6 + |kind|;
      && k + TOKEN_LENGTH + 3 == e
      && text[i..i+6] == OPENING && text[i+6..k] == kind && text[k] == '|'
      && text[k+1..k+1+TOKEN_LENGTH] == token && text[k+1+TOKEN_LENGTH..e] == CLOSING
  {
    var s, n := text[i..e], |kind|;
    SliceOfSlice(text, i, e, 0, 6);
    SliceOfSlice(text, i, e, 6, 6 + n);
    SliceOfSlice(text, i, e, 7 + n, 7 + n + TOKEN_LENGTH);
    SliceOfSlice(text, i, e, 7 + n + TOKEN_LENGTH, |s|);
    assert s[0..6] == s[..6];
    assert text[i + 6 + n] == s[6 + n];
  }

  lemma {:induction false} PlaceholderMatches(text: string, i: nat, e: nat, kind: string)
    requires i <= e <= |text| && IsPlaceholder(text[i..e], kind)
    ensures MatchAt(text, i) == Some(Match(i, e, kind))
  {
    hide Spelled, IsToken, ALPHABET, KindEnd, HasPieces;
    var token :| IsToken(token) && text[i..e] == Spelled(kind, token);
    TokenLength(token);
    SpelledPieces(kind, token);
    PiecesInText(text, i, e, kind, token);
    var from, k := i + |OPENING|, i + 6 + |kind|;
    assert forall j | from <= j < k :: text[j] == text[from..k][j-from];
    KindEndIs(text, from, k);
  }

  /** A placeholder is matched where it stands, in any stretch of text around it. */
  lemma {:induction false} MatchIsLocal(text: string, i: nat, a: nat, b: nat)
    requires a <= i && b <= |text| && MatchAt(text, i).Some? && MatchAt(text, i).value.end <= b
    ensures var m := MatchAt(text, i).value;
      a <= b && i < m.end && MatchAt(text[a..b], i - a) == Some(Match(i - a, m.end - a, m.kind))
  {
    hide MatchAt, IsPlaceholder;
    MatchIsPlaceholder(text, i);
    var m := MatchAt(text, i).value;
    SliceOfSlice(text, a, b, i - a, m.end - a);
    PlaceholderMatches(text[a..b], i - a, m.end - a, m.kind);
  }

  predicate Inner(c: char) {
    c != '[' && c != '\n' && c != ' ' && c != '='
  }

  lemma {:induction false} InnerChars(kind: string, token: string)
    requires IsKind(kind) && IsToken(token)
    ensures forall k | 0 <= k < |kind| :: Inner(kind[k])
    ensures forall k | 0 <= k < |token| :: Inner(token[k])
  {
    assert forall c | c in ALPHABET :: Inner(c);
  }

  lemma {:induction false} PlaceholderChars(s: string, kind: string)
    requires IsPlaceholder(s, kind)
    ensures |s| > 6 && s[..2] == "[[" && s[2] == 'P'
    ensures forall k | 2 <= k < |s| :: Inner(s[k])
  {
    hide Inner, IsKind, IsToken, ALPHABET;
    var token :| IsToken(token) && s == Spelled(kind, token);
    InnerChars(kind, token);
    TokenLength(token);
    FixedCharsAreInner();
    assert s == OPENING + (kind + ("|" + (token + CLOSING)));
  }

  lemma {:induction false} FixedCharsAreInner()
    ensures Inner('P') && Inner('I') && Inner('|') && Inner(']')
  {
  }

  /** Placeholders do not overlap. */
  lemma {:induction false} NoInnerMatch(text: string, i: nat, j: nat)
    requires MatchAt(text, i).Some? && i < j < MatchAt(text, i).value.end
    ensures MatchAt(text, j).None?
  {
    hide MatchAt, IsPlaceholder;
    MatchIsPlaceholder(text, i);
    var m := MatchAt(text, i).value;
    PlaceholderChars(text[i..m.end], m.kind);
    if MatchAt(text, j).Some? {
      MatchIsPlaceholder(text, j);
      var m' := MatchAt(text, j).value;
      PlaceholderChars(text[j..m'.end], m'.kind);
      OpeningAt(text, i, m.end, j, m'.end);
    }
  }

  lemma {:induction false} OpeningAt(text: string, i: nat, e: nat, j: nat, e': nat)
    requires i < j < e <= |text| && j + 1 < e' <= |text| && i + 6 < e
    requires text[i..e][2] == 'P' && (forall k | 2 <= k < e - i :: text[i..e][k] != '[')
    ensures text[j..e'][..2] != "[["
  {
    var s := text[j..e'][..2];
    assert s[0] == text[j] && s[1] == text[j+1];
    assert text[i..e][j-i] == text[j];
    assert text[i..e][2] == text[i+2];
  }

  // ----- plain runs -----

  /** One run of text; `kind` is set when it is a placeholder, `role` says how it is painted. */
  datatype Segment = Segment(text: string, kind: string, role: string)

  /** Every match at or after `from`, left to right. */
  function FindAll(text: string, from: nat): seq<Match>
    requires from <= |text|
    decreases |text| - from
  {
    if from == |text| then []
    else
      match MatchAt(text, from)
      case None => FindAll(text, from + 1)
      case Some(m) => [m] + FindAll(text, (MatchIsPlaceholder(text, from); m.end))
  }

  /** Matches that follow one another between `from` and the end. */
  ghost predicate Chain(matches: seq<Match>, text: string, from: nat) {
    if matches == [] then from <= |text|
    else
      && from <= matches[0].start < matches[0].end <= |text|
      && matches[0].kind != []
      && Chain(matches[1..], text, matches[0].end)
  }

  lemma {:induction false} ChainStartsEarlier(matches: seq<Match>, text: string, from: nat, earlier: nat)
    requires Chain(matches, text, from) && earlier <= from
    ensures Chain(matches, text, earlier)
  {
  }

  lemma {:induction false} FindAllChains(text: string, from: nat)
    requires from <= |text|
    ensures Chain(FindAll(text, from), text, from)
    decreases |text| - from
  {
    hide IsPlaceholder, OpensAt, ClosesAt;
    if from < |text| {
      if MatchAt(text, from).Some? {
        MatchIsPlaceholder(text, from);
        FindAllChains(text, MatchAt(text, from).value.end);
      } else {
        FindAllChains(text, from + 1);
        ChainStartsEarlier(FindAll(text, from + 1), text, from + 1, from);
      }
    }
  }

  /** The scan finds every placeholder, and nothing else. */
  lemma {:induction false} FindAllFinds(text: string, from: nat, m: Match)
    requires from <= |text|
    ensures m in FindAll(text, from) <==> m.start >= from && MatchAt(text, m.start) == Some(m)
    decreases |text| - from
  {
    hide IsPlaceholder, MatchAt;
    if MatchAt(text, m.start) == Some(m) {
      MatchIsPlaceholder(text, m.start);
    }
    if from < |text| {
      if MatchAt(text, from).Some? {
        var first := MatchAt(text, from).value;
        MatchIsPlaceholder(text, from);
        FindAllFinds(text, first.end, m);
        if from < m.start < first.end {
          NoInnerMatch(text, from, m.start);
        }
      } else {
        FindAllFinds(text, from + 1, m);
      }
    }
  }

  function Plain(text: string, role: string): seq<Segment> {
    if text == [] then [] else [Segment(text, "", role)]
  }

  /** The text from `position` on: what lies between the matches, and the matches. */
  ghost function Cut(text: string, role: string, matches: seq<Match>, position: nat): seq<Segment>
    requires Chain(matches, text, position)
    decreases |matches|
  {
    if matches == [] then Plain(text[position..], role)
    else
      var m := matches[0];
      Plain(text[position..m.start], role) + [Segment(text[m.start..m.end], m.kind, "")] + Cut(text, role, matches[1..], m.end)
  }

  ghost function Runs(text: string, role: string): seq<Segment> {
    FindAllChains(text, 0);
    Cut(text, role, FindAll(text, 0), 0)
  }

  method PlainRuns(text: string, role: string) returns (r: seq<Segment>)
    ensures r == Runs(text, role)
  {
    hide FindAll, Plain, Cut, Chain;
    FindAllChains(text, 0);
    var matches := FindAll(text, 0);
    var position: nat := 0;
    r := [];
    assert matches[0..] == matches;
    for k := 0 to |matches|
      invariant Chain(matches[k..], text, position)
      invariant r + Cut(text, role, matches[k..], position) == Runs(text, role)
    {
      var m := matches[k];
      CutStep(text, role, matches[k..], position);
      assert matches[k..][0] == m && matches[k..][1..] == matches[k+1..];
      if m.start > position {
        r := r + [Segment(text[position..m.start], "", role)];
      }
      r := r + [Segment(text[m.start..m.end], m.kind, "")];
      position := m.end;
    }
    CutEnd(text, role, matches[|matches|..], position);
    if position < |text| {
      r := r + [Segment(text[position..], "", role)];
    }
  }

  lemma {:induction false} CutStep(text: string, role: string, matches: seq<Match>, position: nat)
    requires matches != [] && Chain(matches, text, position)
    ensures var m := matches[0];
      && position <= m.start < m.end <= |text|
      && Chain(matches[1..], text, m.end)
      && Cut(text, role, matches, position) ==
           (if m.start > position then [Segment(text[position..m.start], "", role)] else [])
           + [Segment(text[m.start..m.end], m.kind, "")] + Cut(text, role, matches[1..], m.end)
  {
  }

  lemma {:induction false} CutEnd(text: string, role: string, matches: seq<Match>, position: nat)
    requires matches == [] && Chain(matches, text, position)
    ensures position <= |text|
    ensures Cut(text, role, matches, position) == if position < |text| then [Segment(text[position..], "", role)] else []
  {
  }

  // ----- what the segments say -----

  /** The text the segments show. */
  function Flat(segments: seq<Segment>): string {
    if segments == [] then [] else segments[0].text + Flat(segments[1..])
  }

  /** A segment starts at `at` of the shown text. */
  predicate Stands(segments: seq<Segment>, at: nat, s: Segment)
    decreases |segments|
  {
    segments != [] &&
    (|| (at == 0 && segments[0] == s)
     || (at >= |segments[0].text| && Stands(segments[1..], at - |segments[0].text|, s)))
  }

  lemma {:induction false} FlatConcat(a: seq<Segment>, b: seq<Segment>)
    ensures Flat(a + b) == Flat(a) + Flat(b)
  {
    if a == [] {
      assert a + b == b;
    } else {
      assert (a + b)[1..] == a[1..] + b;
      FlatConcat(a[1..], b);
    }
  }

  lemma {:induction false} StandsConcat(a: seq<Segment>, b: seq<Segment>, at: nat, s: Segment)
    ensures Stands(a + b, at, s) <==> Stands(a, at, s) || (at >= |Flat(a)| && Stands(b, at - |Flat(a)|, s))
  {
    if a == [] {
      assert a + b == b;
    } else {
      assert (a + b)[1..] == a[1..] + b;
      if at >= |a[0].text| {
        StandsConcat(a[1..], b, at - |a[0].text|, s);
      }
    }
  }

  lemma {:induction false} OneSegment(s: Segment)
    ensures Flat([s]) == s.text
    ensures forall at, t :: Stands([s], at, t) <==> at == 0 && t == s
  {
    assert [s][1..] == [];
    assert Flat([]) == [];
  }

  lemma {:induction false} PlainSays(text: string, role: string)
    ensures Flat(Plain(text, role)) == text
    ensures forall at, t :: Stands(Plain(text, role), at, t) ==> t.kind == []
  {
    if text != [] {
      OneSegment(Segment(text, "", role));
    }
  }

  lemma {:induction false} CutFlat(text: string, role: string, matches: seq<Match>, position: nat)
    requires Chain(matches, text, position)
    ensures Flat(Cut(text, role, matches, position)) == text[position..]
    decreases |matches|
  {
    hide Plain, Flat;
    if matches == [] {
      PlainSays(text[position..], role);
    } else {
      var m := matches[0];
      var before, marked, after :=
        Plain(text[position..m.start], role), [Segment(text[m.start..m.end], m.kind, "")], Cut(text, role, matches[1..], m.end);
      CutFlat(text, role, matches[1..], m.end);
      PlainSays(text[position..m.start], role);
      OneSegment(marked[0]);
      FlatConcat(before + marked, after);
      FlatConcat(before, marked);
      assert text[position..] == text[position..m.start] + text[m.start..m.end] + text[m.end..];
    }
  }

  /** Exactly the matches come out as segments of their own. */
  lemma {:induction false} CutMarks(text: string, role: string, matches: seq<Match>, position: nat, m: Match)
    requires Chain(matches, text, position) && position <= m.start < m.end <= |text| && m.kind != []
    ensures Stands(Cut(text, role, matches, position), m.start - position, Segment(text[m.start..m.end], m.kind, ""))
            <==> m in matches
    decreases |matches|
  {
    hide Plain, Flat, Stands;
    var s, at := Segment(text[m.start..m.end], m.kind, ""), m.start - position;
    if matches == [] {
      PlainSays(text[position..], role);
    } else {
      var first := matches[0];
      var before, marked, after := Plain(text[position..first.start], role),
        [Segment(text[first.start..first.end], first.kind, "")], Cut(text, role, matches[1..], first.end);
      PlainSays(text[position..first.start], role);
      OneSegment(marked[0]);
      FlatConcat(before, marked);
      StandsConcat(before + marked, after, at, s);
      StandsConcat(before, marked, at, s);
      SameMatch(text, first, m);
      if m.start >= first.end {
        CutMarks(text, role, matches[1..], first.end, m);
      } else {
        LaterMatches(matches[1..], text, first.end, m);
      }
      assert m in matches <==> m == first || m in matches[1..];
    }
  }

  lemma {:induction false} SameMatch(text: string, a: Match, b: Match)
    requires a.start <= a.end <= |text| && b.start <= b.end <= |text|
    ensures a.start == b.start && text[a.start..a.end] == text[b.start..b.end] && a.kind == b.kind ==> a == b
  {
    assert |text[a.start..a.end]| == a.end - a.start && |text[b.start..b.end]| == b.end - b.start;
  }

  lemma {:induction false} LaterMatches(matches: seq<Match>, text: string, from: nat, m: Match)
    requires Chain(matches, text, from) && m.start < from
    ensures m !in matches
  {
    if matches != [] {
      LaterMatches(matches[1..], text, matches[0].end, m);
    }
  }

  /** The placeholders, and nothing else, come out marked, verbatim, where they stand. */
  lemma {:induction false} PlaceholdersStandAlone(text: string, role: string, i: nat, e: nat, kind: string)
    requires i < e <= |text| && kind != []
    ensures Stands(Runs(text, role), i, Segment(text[i..e], kind, "")) <==> IsPlaceholder(text[i..e], kind)
  {
    hide IsPlaceholder, MatchAt, FindAll, Stands, Cut;
    var m := Match(i, e, kind);
    FindAllChains(text, 0);
    CutMarks(text, role, FindAll(text, 0), 0, m);
    FindAllFinds(text, 0, m);
    if IsPlaceholder(text[i..e], kind) {
      PlaceholderMatches(text, i, e, kind);
    }
    if MatchAt(text, i) == Some(m) {
      MatchIsPlaceholder(text, i);
    }
  }

  // ----- structured parts -----

  const SHAPE_STRUCTURED := "structured"
  const SEPARATOR := " = "

  /** The end of the run of characters that can stand in a key. */
  function KeyEnd(line: string, i: nat): (k: nat)
    requires i <= |line|
    ensures i <= k <= |line|
    ensures forall j | i <= j < k :: !IsSpace(line[j]) && line[j] != '='
    ensures k < |line| ==> IsSpace(line[k]) || line[k] == '='
    decreases |line| - i
  {
    if i < |line| && !IsSpace(line[i]) && line[i] != '=' then KeyEnd(line, i + 1) else i
  }

  /** The line is a key, the separator and a value. */
  predicate IsStructured(line: string) {
    var k := KeyEnd(line, 0);
    k > 0 && k + |SEPARATOR| <= |line| && line[k..k+|SEPARATOR|] == SEPARATOR
  }

  predicate IsKey(key: string) {
    key != [] && forall i | 0 <= i < |key| :: !IsSpace(key[i]) && key[i] != '='
  }

  lemma {:induction false} KeyEndIs(line: string, i: nat, k: nat)
    requires i <= k < |line| && (forall j | i <= j < k :: !IsSpace(line[j]) && line[j] != '=')
    requires IsSpace(line[k]) || line[k] == '='
    ensures KeyEnd(line, i) == k
    decreases k - i
  {
    hide IsSpace;
    if i < k {
      KeyEndIs(line, i + 1, k);
    }
  }

  /** A line is structured exactly when it reads as a key, the separator and anything; the key is
      then the leading one, so an equals sign in the value cannot move the cut. */
  lemma {:induction false} StructuredLineIff(line: string)
    ensures IsStructured(line) <==> exists key, value :: IsKey(key) && line == key + SEPARATOR + value
    ensures forall key, value | IsKey(key) && line == key + SEPARATOR + value :: KeyEnd(line, 0) == |key|
  {
    hide IsSpace;
    if IsStructured(line) {
      var k := KeyEnd(line, 0);
      assert IsKey(line[..k]) && line == line[..k] + SEPARATOR + line[k+|SEPARATOR|..];
    }
    forall key, value | IsKey(key) && line == key + SEPARATOR + value
      ensures KeyEnd(line, 0) == |key| && IsStructured(line)
    {
      SeparatorEndsKey();
      assert line[|key|] == SEPARATOR[0];
      assert forall j | 0 <= j < |key| :: line[j] == key[j];
      KeyEndIs(line, 0, |key|);
      assert line[|key|..|key|+|SEPARATOR|] == SEPARATOR;
    }
  }

  lemma {:induction false} SeparatorEndsKey()
    ensures IsSpace(SEPARATOR[0])
  {
  }

  ghost function LineSegments(line: string): seq<Segment> {
    if IsStructured(line) then
      var k := KeyEnd(line, 0);
      [Segment(line[..k], "", "key"), Segment(SEPARATOR, "", "punct")] + Runs(line[k+|SEPARATOR|..], "value")
    else Runs(line, "")
  }

  function FirstBreak(text: string): (n: nat)
    ensures n <= |text| && (forall i | 0 <= i < n :: text[i] != '\n') && (n < |text| ==> text[n] == '\n')
  {
    if text == [] || text[0] == '\n' then 0 else 1 + FirstBreak(text[1..])
  }

  /** Python's split at line breaks. */
  function Lines(text: string): (r: seq<string>)
    ensures r != []
  {
    var n := FirstBreak(text);
    if n == |text| then [text] else [text[..n]] + Lines(text[n+1..])
  }

  function WithBreaks(lines: seq<string>): string {
    if lines == [] then [] else "\n" + lines[0] + WithBreaks(lines[1..])
  }

  /** No line holds a break, and the lines with a break between each two are the text. */
  lemma {:induction false} LinesAre(text: string)
    ensures forall line | line in Lines(text) :: '\n' !in line
    ensures text == Lines(text)[0] + WithBreaks(Lines(text)[1..])
  {
    hide FirstBreak;
    var n := FirstBreak(text);
    if n < |text| {
      var rest := Lines(text[n+1..]);
      LinesAre(text[n+1..]);
      LinesHead(text[..n], rest);
      assert Lines(text) == [text[..n]] + rest;
      BreakAt(text, n, text[n+1..]);
    } else {
      assert Lines(text)[1..] == [];
    }
  }

  lemma {:induction false} LinesHead(first: string, rest: seq<string>)
    requires rest != []
    ensures ([first] + rest)[1..] == rest
    ensures WithBreaks(rest) == "\n" + rest[0] + WithBreaks(rest[1..])
    ensures WithBreaks(rest) == "\n" + (rest[0] + WithBreaks(rest[1..]))
  {
    ConcatAssociates("\n", rest[0], WithBreaks(rest[1..]));
  }

  lemma {:induction false} BreakAt(text: string, n: nat, after: string)
    requires n < |text| && text[n] == '\n' && after == text[n+1..]
    ensures text == text[..n] + ("\n" + after)
  {
  }

  const BREAK: Segment := Segment("\n", "", "")

  /** The lines after the first, each with the break before it. */
  ghost function Following(lines: seq<string>): seq<Segment> {
    if lines == [] then [] else [BREAK] + LineSegments(lines[0]) + Following(lines[1..])
  }

  ghost function Painted(text: string, shape: string): seq<Segment> {
    if shape != SHAPE_STRUCTURED then Runs(text, "")
    else LineSegments(Lines(text)[0]) + Following(Lines(text)[1..])
  }

  method PaintLine(line: string) returns (r: seq<Segment>)
    ensures r == LineSegments(line)
  {
    hide Runs;
    var k := KeyEnd(line, 0);
    if k > 0 && k + |SEPARATOR| <= |line| && line[k..k+|SEPARATOR|] == SEPARATOR {
      var value := PlainRuns(line[k+|SEPARATOR|..], "value");
      r := [Segment(line[..k], "", "key"), Segment(SEPARATOR, "", "punct")] + value;
    } else {
      r := PlainRuns(line, "");
    }
  }

  method Paint(text: string, shape: string) returns (r: seq<Segment>)
    ensures r == Painted(text, shape)
  {
    hide Runs, LineSegments, Lines;
    if shape != SHAPE_STRUCTURED {
      r := PlainRuns(text, "");
      return;
    }
    var lines := Lines(text);
    r := [];
    for index := 0 to |lines|
      invariant index == 0 ==> r == []
      invariant index > 0 ==> r + Following(lines[index..]) == Painted(text, shape)
    {
      if index > 0 {
        r := r + [BREAK];
      }
      var line := PaintLine(lines[index]);
      assert lines[index..][1..] == lines[index+1..];
      r := r + line;
    }
    assert lines[|lines|..] == [];
  }

  lemma {:induction false} RunsFlat(text: string, role: string)
    ensures Flat(Runs(text, role)) == text
  {
    hide Flat, Cut, FindAll;
    FindAllChains(text, 0);
    CutFlat(text, role, FindAll(text, 0), 0);
  }

  lemma {:induction false} LineFlat(line: string)
    ensures Flat(LineSegments(line)) == line
  {
    hide Runs, Flat, KeyEnd, IsStructured;
    RunsFlat(line, "");
    if IsStructured(line) {
      KeyAndValue(line);
      RunsFlat(line[KeyEnd(line, 0)+|SEPARATOR|..], "value");
      ThreeParts(line[..KeyEnd(line, 0)], LineSegments(line), Runs(line[KeyEnd(line, 0)+|SEPARATOR|..], "value"));
    }
  }

  /** A structured line is its key, the separator and its value, and is cut there. */
  lemma {:induction false} KeyAndValue(line: string)
    requires IsStructured(line)
    ensures var k := KeyEnd(line, 0);
      && k + |SEPARATOR| <= |line|
      && line == line[..k] + SEPARATOR + line[k+|SEPARATOR|..]
      && LineSegments(line) ==
           [Segment(line[..k], "", "key")] + ([Segment(SEPARATOR, "", "punct")] + Runs(line[k+|SEPARATOR|..], "value"))
  {
    hide Runs;
  }

  lemma {:induction false} ThreeParts(key: string, all: seq<Segment>, value: seq<Segment>)
    requires all == [Segment(key, "", "key")] + ([Segment(SEPARATOR, "", "punct")] + value)
    ensures Flat(all) == key + SEPARATOR + Flat(value)
  {
    hide Flat;
    var k, p := Segment(key, "", "key"), Segment(SEPARATOR, "", "punct");
    OneSegment(k);
    OneSegment(p);
    FlatConcat([k], [p] + value);
    FlatConcat([p], value);
  }

  /** A text with a break: its first line, the break, and the rest painted alike. */
  lemma {:induction false} PaintedSplits(text: string)
    requires FirstBreak(text) < |text|
    ensures var n := FirstBreak(text);
      Painted(text, SHAPE_STRUCTURED) == LineSegments(text[..n]) + [BREAK] + Painted(text[n+1..], SHAPE_STRUCTURED)
  {
    hide LineSegments;
    var n := FirstBreak(text);
    var rest := Lines(text[n+1..]);
    assert Lines(text) == [text[..n]] + rest;
    assert Lines(text)[1..] == rest;
  }

  lemma {:induction false} StructuredFlat(text: string)
    ensures Flat(Painted(text, SHAPE_STRUCTURED)) == text
  {
    hide LineSegments, Flat, Painted;
    var n := FirstBreak(text);
    LineFlat(text[..n]);
    if n == |text| {
      OneLine(text);
      assert text[..n] == text;
    } else {
      var first, after := LineSegments(text[..n]), Painted(text[n+1..], SHAPE_STRUCTURED);
      PaintedSplits(text);
      StructuredFlat(text[n+1..]);
      OneSegment(BREAK);
      FlatConcat(first + [BREAK], after);
      FlatConcat(first, [BREAK]);
      assert text == text[..n] + [text[n]] + text[n+1..];
    }
  }

  lemma {:induction false} OneLine(text: string)
    requires FirstBreak(text) == |text|
    ensures Painted(text, SHAPE_STRUCTURED) == LineSegments(text)
  {
    assert Following([]) == [];
  }

  /** Nothing here rewrites a character: the segments show the text, in both shapes. */
  lemma {:induction false} PaintingLosesNothing(text: string, shape: string)
    ensures Flat(Painted(text, shape)) == text
  {
    if shape == SHAPE_STRUCTURED {
      StructuredFlat(text);
    } else {
      RunsFlat(text, "");
    }
  }

  // ----- placeholders stay whole -----

  /** Some segment contains the whole stretch. */
  ghost predicate Whole(segments: seq<Segment>, i: nat, e: nat) {
    exists at: nat, s :: Stands(segments, at, s) && at <= i && e <= at + |s.text|
  }

  lemma {:induction false} WholeConcat(a: seq<Segment>, b: seq<Segment>, i: nat, e: nat)
    ensures Whole(a, i, e) ==> Whole(a + b, i, e)
    ensures i >= |Flat(a)| && i <= e && Whole(b, i - |Flat(a)|, e - |Flat(a)|) ==> Whole(a + b, i, e)
  {
    hide Stands, Flat;
    if Whole(a, i, e) {
      var at: nat, s :| Stands(a, at, s) && at <= i && e <= at + |s.text|;
      StandsConcat(a, b, at, s);
    }
    if i >= |Flat(a)| && i <= e && Whole(b, i - |Flat(a)|, e - |Flat(a)|) {
      var at: nat, s :| Stands(b, at, s) && at <= i - |Flat(a)| && e - |Flat(a)| <= at + |s.text|;
      StandsConcat(a, b, at + |Flat(a)|, s);
    }
  }

  lemma {:induction false} RunsKeepWhole(text: string, role: string, i: nat)
    requires MatchAt(text, i).Some?
    ensures Whole(Runs(text, role), i, MatchAt(text, i).value.end)
  {
    hide MatchAt, Runs, IsPlaceholder, Stands;
    var m := MatchAt(text, i).value;
    MatchIsPlaceholder(text, i);
    PlaceholderChars(text[i..m.end], m.kind);
    assert m.kind != [] by { KindsAreNotEmpty(text[i..m.end], m.kind); }
    PlaceholdersStandAlone(text, role, i, m.end, m.kind);
  }

  lemma {:induction false} KindsAreNotEmpty(s: string, kind: string)
    requires IsPlaceholder(s, kind)
    ensures kind != []
  {
  }

  /** In a structured line a placeholder lies wholly on one side of the separator. */
  lemma {:induction false} OneSideOfSeparator(line: string, i: nat)
    requires IsStructured(line) && MatchAt(line, i).Some?
    ensures var k, m := KeyEnd(line, 0), MatchAt(line, i).value; m.end <= k || k + |SEPARATOR| <= i
  {
    hide MatchAt, IsPlaceholder;
    var k, m := KeyEnd(line, 0), MatchAt(line, i).value;
    MatchIsPlaceholder(line, i);
    PlaceholderChars(line[i..m.end], m.kind);
    assert line[k] == SEPARATOR[0] && line[k+1] == SEPARATOR[1] && line[k+2] == SEPARATOR[2] by {
      var between := line[k..k+|SEPARATOR|];
      assert between[0] == line[k] && between[1] == line[k+1] && between[2] == line[k+2];
    }
    AvoidsPosition(line, i, m.end, k);
    AvoidsPosition(line, i, m.end, k + 1);
    AvoidsPosition(line, i, m.end, k + 2);
  }

  lemma {:induction false} Unsliced(text: string, i: nat, e: nat, k: nat)
    requires i <= e <= |text| && k < |text|
    ensures i <= k < e ==> text[k] == text[i..e][k-i]
  {
  }

  lemma {:induction false} AvoidsPosition(line: string, i: nat, e: nat, k: nat)
    requires i <= e <= |line| && k < |line|
    requires forall j | 0 <= j < e - i :: line[i..e][j] != line[k]
    ensures !(i <= k < e)
  {
    Unsliced(line, i, e, k);
  }

  lemma {:induction false} LineKeepsWhole(line: string, i: nat)
    requires MatchAt(line, i).Some?
    ensures Whole(LineSegments(line), i, MatchAt(line, i).value.end)
  {
    hide MatchAt, Runs, Stands, IsPlaceholder, Flat, Whole;
    if IsStructured(line) {
      StructuredKeepsWhole(line, i);
    } else {
      RunsKeepWhole(line, "", i);
    }
  }

  lemma {:induction false} StructuredKeepsWhole(line: string, i: nat)
    requires IsStructured(line) && MatchAt(line, i).Some?
    ensures Whole(LineSegments(line), i, MatchAt(line, i).value.end)
  {
    hide MatchAt, Runs, Stands, IsPlaceholder, Flat, Whole, IsSpace;
    var k, m := KeyEnd(line, 0), MatchAt(line, i).value;
    var key, punct, value := Segment(line[..k], "", "key"), Segment(SEPARATOR, "", "punct"), Runs(line[k+|SEPARATOR|..], "value");
    MatchIsPlaceholder(line, i);
    OneSideOfSeparator(line, i);
    OneSegment(key);
    OneSegment(punct);
    FlatConcat([key], [punct]);
    KeyAndValue(line);
    assert LineSegments(line) == [key] + [punct] + value;
    if m.end <= k {
      SegmentIsWhole(key, i, m.end);
      WholeConcat([key], [punct] + value, i, m.end);
    } else {
      MatchIsLocal(line, i, k + |SEPARATOR|, |line|);
      assert line[k+|SEPARATOR|..|line|] == line[k+|SEPARATOR|..];
      RunsKeepWhole(line[k+|SEPARATOR|..], "value", i - k - |SEPARATOR|);
      WholeConcat([key] + [punct], value, i, m.end);
    }
  }

  lemma {:induction false} SegmentIsWhole(s: Segment, i: nat, e: nat)
    requires e <= |s.text|
    ensures Whole([s], i, e)
  {
    OneSegment(s);
    assert Stands([s], 0, s);
  }

  /** No segment boundary ever falls inside a placeholder, in both shapes. */
  lemma {:induction false} PlaceholdersStayWhole(text: string, shape: string, i: nat)
    requires MatchAt(text, i).Some?
    ensures Whole(Painted(text, shape), i, MatchAt(text, i).value.end)
    decreases |text|
  {
    hide MatchAt, Runs, Stands, IsPlaceholder, Flat, Whole, LineSegments, Painted;
    MatchIsPlaceholder(text, i);
    if shape == SHAPE_STRUCTURED {
      var n, m := FirstBreak(text), MatchAt(text, i).value;
      if n == |text| {
        OneLine(text);
        LineKeepsWhole(text, i);
      } else {
        PlaceholderChars(text[i..m.end], m.kind);
        AvoidsPosition(text, i, m.end, n);
        PaintedSplits(text);
        BesideBreak(text, i, n);
      }
    } else {
      OtherShape(text, shape);
      RunsKeepWhole(text, "", i);
    }
  }

  lemma {:induction false} OtherShape(text: string, shape: string)
    requires shape != SHAPE_STRUCTURED
    ensures Painted(text, shape) == Runs(text, "")
  {
  }

  lemma {:induction false} BesideBreak(text: string, i: nat, n: nat)
    requires MatchAt(text, i).Some? && n < |text| && (MatchAt(text, i).value.end <= n || n < i)
    ensures Whole(LineSegments(text[..n]) + [BREAK] + Painted(text[n+1..], SHAPE_STRUCTURED), i, MatchAt(text, i).value.end)
    decreases |text|, 0
  {
    hide MatchAt, Runs, Stands, IsPlaceholder, Flat, Whole, LineSegments, Painted;
    var m, first, after := MatchAt(text, i).value, LineSegments(text[..n]), Painted(text[n+1..], SHAPE_STRUCTURED);
    MatchIsPlaceholder(text, i);
    if m.end <= n {
      MatchIsLocal(text, i, 0, n);
      assert text[0..n] == text[..n];
      LineKeepsWhole(text[..n], i);
      WholeConcat(first, [BREAK], i, m.end);
      WholeConcat(first + [BREAK], after, i, m.end);
    } else {
      MatchIsLocal(text, i, n + 1, |text|);
      assert text[n+1..|text|] == text[n+1..];
      PlaceholdersStayWhole(text[n+1..], SHAPE_STRUCTURED, i - n - 1);
      LineFlat(text[..n]);
      OneSegment(BREAK);
      FlatConcat(first, [BREAK]);
      WholeConcat(first + [BREAK], after, i, m.end);
    }
  }
}
