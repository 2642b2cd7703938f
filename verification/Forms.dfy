/** From a filled-in form to a submission, and the counterparty letter's second reading of the same
    fields (engine/demo/personas.py, engine/demo/gegenpartei.py). */
module Forms {
  import opened Payload
  import Sorting
  import opened Wrappers

  /** One form field; `order` is its place among the fields that share its path. */
  datatype Field = Field(id: string, path: Path, value: string, order: int)

  type Answers = map<string, string>

  datatype Part = Part(order: int, text: string)

  datatype Group = Group(path: Path, parts: seq<Part>)

  /** What the visitor posted, else the prefilled value; stripped. */
  function Answer(f: Field, values: Answers): string {
    Strip(if f.id in values then values[f.id] else f.value)
  }

  /** What was posted counts, even if it is blank; the prefilled value only where nothing was posted. */
  lemma {:induction false} AnswerIs(f: Field, values: Answers)
    ensures f.id in values ==> Answer(f, values) == Strip(values[f.id])
    ensures f.id !in values ==> Answer(f, values) == Strip(f.value)
  {
  }

  predicate ValidPaths(fields: seq<Field>) {
    forall i | 0 <= i < |fields| :: fields[i].path != []
  }

  // ----- grouping by path -----

  /** The answers given for one path, blanks included, in form order. */
  function Answered(fields: seq<Field>, values: Answers, path: Path): seq<Part> {
    if fields == [] then []
    else
      var before, f := Answered(fields[..|fields|-1], values, path), fields[|fields|-1];
      if f.path == path then before + [Part(f.order, Answer(f, values))] else before
  }

  function NonBlank(parts: seq<Part>): seq<Part> {
    if parts == [] then []
    else (if parts[0].text != [] then [parts[0]] else []) + NonBlank(parts[1..])
  }

  /** The non-blank answers for one path. */
  function Parts(fields: seq<Field>, values: Answers, path: Path): seq<Part> {
    NonBlank(Answered(fields, values, path))
  }

  /** Every path once, in the order of first appearance. */
  function Paths(fields: seq<Field>): (r: seq<Path>)
    ensures forall p :: p in r <==> exists i | 0 <= i < |fields| :: fields[i].path == p
    ensures forall i, j | 0 <= i < j < |r| :: r[i] != r[j]
  {
    if fields == [] then []
    else
      var before, p := Paths(fields[..|fields|-1]), fields[|fields|-1].path;
      if p in before then before else before + [p]
  }

  lemma {:induction false} NonBlankAppend(parts: seq<Part>, p: Part)
    ensures NonBlank(parts + [p]) == NonBlank(parts) + if p.text != [] then [p] else []
  {
    if parts == [] {
      assert parts + [p] == [p];
    } else {
      assert (parts + [p])[1..] == parts[1..] + [p];
      NonBlankAppend(parts[1..], p);
    }
  }

  lemma {:induction false} PartsStep(fields: seq<Field>, values: Answers, path: Path, k: nat)
    requires k < |fields|
    ensures Parts(fields[..k+1], values, path) ==
            Parts(fields[..k], values, path)
            + if fields[k].path == path && Answer(fields[k], values) != [] then [Part(fields[k].order, Answer(fields[k], values))] else []
  {
    hide NonBlank;
    var upTo := fields[..k+1];
    assert upTo[..k] == fields[..k] && upTo[|upTo|-1] == fields[k];
    NonBlankAppend(Answered(fields[..k], values, path), Part(fields[k].order, Answer(fields[k], values)));
  }

  lemma {:induction false} PathsStep(fields: seq<Field>, k: nat)
    requires k < |fields|
    ensures Paths(fields[..k+1]) ==
            Paths(fields[..k]) + if fields[k].path in Paths(fields[..k]) then [] else [fields[k].path]
  {
    var upTo := fields[..k+1];
    assert upTo[..k] == fields[..k] && upTo[|upTo|-1] == fields[k];
  }

  lemma {:induction false} NoPartsYet(fields: seq<Field>, values: Answers, path: Path)
    requires path !in Paths(fields)
    ensures Answered(fields, values, path) == [] && Parts(fields, values, path) == []
  {
    if fields != [] {
      var before := fields[..|fields|-1];
      PathsStep(fields, |before|);
      assert fields[..|before|+1] == fields;
      NoPartsYet(before, values, path);
    }
  }

  ghost predicate GroupedUpTo(grouped: seq<Group>, fields: seq<Field>, values: Answers) {
    && |grouped| == |Paths(fields)|
    && forall g | 0 <= g < |grouped| :: grouped[g] == Group(Paths(fields)[g], Parts(fields, values, Paths(fields)[g]))
  }

  /** One field more: its path is begun if new, and its answer appended unless blank. */
  lemma {:induction false} GroupStep(grouped: seq<Group>, more: seq<Group>, fields: seq<Field>, values: Answers, k: nat, g: nat)
    requires k < |fields| && GroupedUpTo(grouped, fields[..k], values)
    requires g <= |grouped| && (forall h | 0 <= h < g :: grouped[h].path != fields[k].path)
    requires g < |grouped| ==> grouped[g].path == fields[k].path
    requires var f := fields[k];
      var begun := if g < |grouped| then grouped else grouped + [Group(f.path, [])];
      more == if Answer(f, values) == [] then begun
              else begun[g := Group(f.path, begun[g].parts + [Part(f.order, Answer(f, values))])]
    ensures GroupedUpTo(more, fields[..k+1], values)
  {
    hide Parts, Answered, Answer, Paths;
    var f, paths := fields[k], Paths(fields[..k]);
    PathsStep(fields, k);
    assert f.path in paths <==> g < |grouped| by {
      assert forall h | 0 <= h < |paths| :: grouped[h].path == paths[h];
    }
    if g == |grouped| {
      NoPartsYet(fields[..k], values, f.path);
    }
    forall h | 0 <= h < |more|
      ensures more[h] == Group(Paths(fields[..k+1])[h], Parts(fields[..k+1], values, Paths(fields[..k+1])[h]))
    {
      PartsStep(fields, values, Paths(fields[..k+1])[h], k);
    }
  }

  /** The source's grouping loop: opens a group at a path's first field, keeps blanks out of it. */
  method GroupByPath(fields: seq<Field>, values: Answers) returns (grouped: seq<Group>)
    ensures |grouped| == |Paths(fields)|
    ensures forall g | 0 <= g < |grouped| :: grouped[g] == Group(Paths(fields)[g], Parts(fields, values, Paths(fields)[g]))
  {
    hide Parts, Paths, Answer;
    grouped := [];
    NoFields(values);
    for k := 0 to |fields|
      invariant GroupedUpTo(grouped, fields[..k], values)
    {
      var f, g := fields[k], 0;
      while g < |grouped| && grouped[g].path != f.path
        invariant g <= |grouped| && forall h | 0 <= h < g :: grouped[h].path != f.path
      {
        g := g + 1;
      }
      ghost var was := grouped;
      if g == |grouped| {
        grouped := grouped + [Group(f.path, [])];
      }
      var raw := Answer(f, values);
      if raw != [] {
        grouped := grouped[g := Group(f.path, grouped[g].parts + [Part(f.order, raw)])];
      }
      GroupStep(was, grouped, fields, values, k, g);
    }
    assert fields[..|fields|] == fields;
  }

  lemma {:induction false} NoFields(values: Answers)
    ensures forall fields: seq<Field> :: GroupedUpTo([], fields[..0], values)
  {
  }

  // ----- joining -----

  /** The parts' texts with a space between each two. */
  function Join(parts: seq<Part>): string {
    if parts == [] then []
    else if |parts| == 1 then parts[0].text
    else parts[0].text + " " + Join(parts[1..])
  }

  /** One space between each two texts, none at the ends. */
  lemma {:induction false} JoinAppend(parts: seq<Part>, last: Part)
    ensures Join([]) == ""
    ensures Join(parts + [last]) == if parts == [] then last.text else Join(parts) + " " + last.text
  {
    var all := parts + [last];
    if parts == [] {
      assert all == [last];
    } else if |parts| == 1 {
      assert all[1..] == [last];
    } else {
      assert all[1..] == parts[1..] + [last];
      JoinAppend(parts[1..], last);
    }
  }

  function ByOrder(): (Part, Part) -> bool {
    (a: Part, b: Part) => a.order <= b.order
  }

  /** What the submission carries at a path: parts sorted, stably, by join order alone. */
  function SubmittedText(fields: seq<Field>, values: Answers, path: Path): string {
    Join(Sorting.Sort(Parts(fields, values, path), ByOrder()))
  }

  /** Python's order on strings. */
  predicate LexLe(s: string, t: string) {
    s == [] || (t != [] && (s[0] < t[0] || (s[0] == t[0] && LexLe(s[1..], t[1..]))))
  }

  function ByPair(): (Part, Part) -> bool {
    (a: Part, b: Part) => a.order < b.order || (a.order == b.order && LexLe(a.text, b.text))
  }

  /** The letter's reading: (order, value) pairs sorted as pairs, blanks dropped afterwards. */
  function JoinedText(fields: seq<Field>, values: Answers, path: Path): string {
    Join(NonBlank(Sorting.Sort(Answered(fields, values, path), ByPair())))
  }

  predicate NoBlanks(parts: seq<Part>) {
    forall i | 0 <= i < |parts| :: parts[i].text != []
  }

  lemma {:induction false} NonBlankHasNoBlanks(parts: seq<Part>)
    ensures NoBlanks(NonBlank(parts))
    ensures forall p :: p in NonBlank(parts) <==> p in parts && p.text != []
  {
    if parts != [] {
      NonBlankHasNoBlanks(parts[1..]);
      assert parts == [parts[0]] + parts[1..];
      assert forall p :: p in parts <==> p == parts[0] || p in parts[1..];
    }
  }

  /** Two filled-in fields of a path come out in their join order, however they stand on the form. */
  lemma {:induction false} JoinedInOrder(fields: seq<Field>, values: Answers, path: Path, x: Part, y: Part)
    requires Parts(fields, values, path) in {[x, y], [y, x]} && x.order < y.order
    ensures SubmittedText(fields, values, path) == x.text + " " + y.text
  {
    assert [x, y][1..] == [y] && [y, x][1..] == [x];
    JoinAppend([x], y);
    JoinAppend([], x);
    assert [] + [x] == [x] && [x] + [y] == [x, y];
    SortTwo(x, y);
  }

  lemma {:induction false} SortTwo(x: Part, y: Part)
    requires x.order < y.order
    ensures Sorting.Sort([x, y], ByOrder()) == [x, y] == Sorting.Sort([y, x], ByOrder())
  {
    assert [x, y][1..] == [y] && [y, x][1..] == [x] && [x][1..] == [] && [y][1..] == [];
    assert Sorting.Sort([], ByOrder()) == [];
    assert Sorting.Sort([y], ByOrder()) == [y] && Sorting.Sort([x], ByOrder()) == [x];
    assert Sorting.Insert(x, [y], ByOrder()) == [x, y];
    assert Sorting.Insert(y, [], ByOrder()) == [y];
    assert Sorting.Insert(y, [x], ByOrder()) == [x] + [y];
  }

  /** A path's text is blank exactly when none of its parts was filled in. */
  lemma {:induction false} BlankIff(fields: seq<Field>, values: Answers, path: Path)
    ensures SubmittedText(fields, values, path) == [] <==> Parts(fields, values, path) == []
  {
    var parts := Parts(fields, values, path);
    Sorting.SortPermutes(parts, ByOrder());
    if parts != [] {
      NonBlankHasNoBlanks(Answered(fields, values, path));
      var sorted := Sorting.Sort(parts, ByOrder());
      Sorting.SameElements(sorted, parts);
      assert sorted[0] in parts;
    }
  }

  // ----- do the two readings agree? -----

  lemma {:induction false} LexTotal(s: string, t: string)
    ensures LexLe(s, t) || LexLe(t, s)
    ensures LexLe(s, t) && LexLe(t, s) ==> s == t
  {
    if s != [] && t != [] && s[0] == t[0] {
      LexTotal(s[1..], t[1..]);
      assert s == [s[0]] + s[1..] && t == [t[0]] + t[1..];
    }
  }

  lemma {:induction false} LexTransitive(s: string, t: string, u: string)
    requires LexLe(s, t) && LexLe(t, u)
    ensures LexLe(s, u)
  {
    if s != [] && s[0] == t[0] == u[0] {
      LexTransitive(s[1..], t[1..], u[1..]);
    }
  }

  lemma {:induction false} OrdersAreTotal()
    ensures Sorting.TotalPreorder(ByOrder()) && Sorting.TotalPreorder(ByPair())
    ensures forall a, b :: ByPair()(a, b) && ByPair()(b, a) ==> a == b
  {
    hide LexLe;
    forall a: Part, b: Part
      ensures ByPair()(a, b) || ByPair()(b, a)
      ensures ByPair()(a, b) && ByPair()(b, a) ==> a == b
    {
      LexTotal(a.text, b.text);
    }
    forall a: Part, b: Part, c: Part | ByPair()(a, b) && ByPair()(b, c)
      ensures ByPair()(a, c)
    {
      if a.order == b.order == c.order {
        LexTransitive(a.text, b.text, c.text);
      }
    }
  }

  /** Parts that share a join order stand in the order of their texts. */
  predicate TiesStandSorted(parts: seq<Part>) {
    forall i, j | 0 <= i < j < |parts| && parts[i].order == parts[j].order :: LexLe(parts[i].text, parts[j].text)
  }

  lemma {:induction false} PairLaws(a: Part, b: Part)
    ensures ByPair()(a, a)
    ensures ByPair()(a, b) && ByPair()(b, a) ==> a == b
  {
    LexTotal(a.text, b.text);
    LexTotal(a.text, a.text);
  }

  lemma {:induction false} FirstIsLeast(s: seq<Part>, x: Part)
    requires Sorting.Sorted(s, ByPair()) && x in s
    ensures ByPair()(s[0], x)
  {
    hide LexLe, ByPair;
    PairLaws(x, x);
  }

  /** A sorted arrangement by an order without ties is the only one. */
  lemma {:induction false} SortedIsUnique(s: seq<Part>, t: seq<Part>)
    requires Sorting.Sorted(s, ByPair()) && Sorting.Sorted(t, ByPair()) && multiset(s) == multiset(t)
    ensures s == t
  {
    hide LexLe, ByPair;
    assert |multiset(s)| == |s| && |multiset(t)| == |t|;
    if s != [] {
      Sorting.SameElements(s, t);
      FirstIsLeast(s, t[0]);
      FirstIsLeast(t, s[0]);
      PairLaws(s[0], t[0]);
      Sorting.SameTailElements(s, t);
      SortedIsUnique(s[1..], t[1..]);
      assert s == [s[0]] + s[1..] && t == [t[0]] + t[1..];
    }
  }

  lemma {:induction false} NonBlankKeepsOrder(parts: seq<Part>)
    requires Sorting.Sorted(parts, ByPair())
    ensures Sorting.Sorted(NonBlank(parts), ByPair())
  {
    hide ByPair;
    if parts != [] {
      var rest := NonBlank(parts[1..]);
      NonBlankKeepsOrder(parts[1..]);
      NonBlankHasNoBlanks(parts[1..]);
      forall j | 0 <= j < |rest|
        ensures ByPair()(parts[0], rest[j])
      {
        assert rest[j] in parts[1..];
      }
    }
  }

  lemma {:induction false} NonBlankOfInsert(x: Part, parts: seq<Part>)
    ensures multiset(NonBlank(Sorting.Insert(x, parts, ByPair()))) ==
            (if x.text != [] then multiset{x} else multiset{}) + multiset(NonBlank(parts))
  {
    hide ByPair;
    if parts == [] || ByPair()(x, parts[0]) {
      assert ([x] + parts)[1..] == parts;
    } else {
      NonBlankOfInsert(x, parts[1..]);
      var inserted := Sorting.Insert(x, parts[1..], ByPair());
      assert ([parts[0]] + inserted)[1..] == inserted;
    }
  }

  /** Dropping blanks after sorting leaves the same parts as dropping them before. */
  lemma {:induction false} NonBlankOfSort(parts: seq<Part>)
    ensures multiset(NonBlank(Sorting.Sort(parts, ByPair()))) == multiset(NonBlank(parts))
  {
    hide ByPair;
    if parts != [] {
      NonBlankOfSort(parts[1..]);
      NonBlankOfInsert(parts[0], Sorting.Sort(parts[1..], ByPair()));
    }
  }

  lemma {:induction false} FilterSortCommute(parts: seq<Part>)
    ensures NonBlank(Sorting.Sort(parts, ByPair())) == Sorting.Sort(NonBlank(parts), ByPair())
  {
    hide ByPair, NonBlank;
    OrdersAreTotal();
    Sorting.SortSorted(parts, ByPair());
    NonBlankKeepsOrder(Sorting.Sort(parts, ByPair()));
    NonBlankOfSort(parts);
    Sorting.SortSorted(NonBlank(parts), ByPair());
    Sorting.SortPermutes(NonBlank(parts), ByPair());
    SortedIsUnique(NonBlank(Sorting.Sort(parts, ByPair())), Sorting.Sort(NonBlank(parts), ByPair()));
  }

  lemma {:induction false} SameInsert(x: Part, s: seq<Part>)
    requires forall y | y in s :: y.order == x.order ==> LexLe(x.text, y.text)
    ensures Sorting.Insert(x, s, ByOrder()) == Sorting.Insert(x, s, ByPair())
  {
    hide LexLe;
    if s != [] {
      assert s[0] in s;
      if !ByOrder()(x, s[0]) {
        SameInsert(x, s[1..]);
      }
    }
  }

  lemma {:induction false} SortedTiesAgree(parts: seq<Part>)
    requires TiesStandSorted(parts)
    ensures Sorting.Sort(parts, ByOrder()) == Sorting.Sort(parts, ByPair())
  {
    hide LexLe, ByOrder, ByPair;
    if parts != [] {
      SortedTiesAgree(parts[1..]);
      var rest := Sorting.Sort(parts[1..], ByOrder());
      Sorting.SortPermutes(parts[1..], ByOrder());
      Sorting.SameElements(rest, parts[1..]);
      forall y | y in rest && y.order == parts[0].order
        ensures LexLe(parts[0].text, y.text)
      {
        var j :| 1 <= j < |parts| && parts[j] == y;
      }
      SameInsert(parts[0], rest);
    }
  }

  lemma {:induction false} TiesHold(s: seq<Part>, y: Part)
    ensures forall x :: x in Sorting.Ties(s, y, ByOrder()) <==> x in s && x.order == y.order
  {
    if s != [] {
      TiesHold(s[1..], y);
      assert s == [s[0]] + s[1..];
    }
  }

  lemma {:induction false} TiesAreSorted(s: seq<Part>, y: Part)
    requires Sorting.Sorted(s, ByPair())
    ensures Sorting.Sorted(Sorting.Ties(s, y, ByOrder()), ByPair())
  {
    hide ByPair;
    if s != [] {
      var rest := Sorting.Ties(s[1..], y, ByOrder());
      TiesAreSorted(s[1..], y);
      TiesHold(s[1..], y);
      forall j | 0 <= j < |rest|
        ensures ByPair()(s[0], rest[j])
      {
        assert rest[j] in s[1..];
      }
    }
  }

  lemma {:induction false} SortedRest(head: seq<Part>, rest: seq<Part>)
    requires Sorting.Sorted(head + rest, ByPair())
    ensures Sorting.Sorted(rest, ByPair())
  {
    hide ByPair;
    var all := head + rest;
    forall a, b | 0 <= a < b < |rest|
      ensures ByPair()(rest[a], rest[b])
    {
      assert all[a + |head|] == rest[a] && all[b + |head|] == rest[b];
    }
  }

  lemma {:induction false} TailTiesSorted(s: seq<Part>, y: Part)
    requires s != [] && Sorting.Sorted(Sorting.Ties(s, y, ByOrder()), ByPair())
    ensures Sorting.Sorted(Sorting.Ties(s[1..], y, ByOrder()), ByPair())
  {
    hide ByPair, ByOrder, Sorting.Sorted, Sorting.Ties;
    var head := Sorting.TieHead(s, y, ByOrder());
    SortedRest(head, Sorting.Ties(s[1..], y, ByOrder()));
  }

  lemma {:induction false} FirstTie(s: seq<Part>, j: nat)
    requires 0 < j < |s| && s[0].order == s[j].order
    requires Sorting.Sorted(Sorting.Ties(s, s[0], ByOrder()), ByPair())
    ensures ByPair()(s[0], s[j])
  {
    hide ByPair;
    var head := Sorting.TieHead(s, s[0], ByOrder());
    var ties, rest := Sorting.Ties(s, s[0], ByOrder()), Sorting.Ties(s[1..], s[0], ByOrder());
    TiesHold(s[1..], s[0]);
    assert s[1..][j-1] == s[j];
    var k :| 0 <= k < |rest| && rest[k] == s[j];
    assert ties[0] == s[0] && ties[k+1] == s[j];
  }

  lemma {:induction false} TiesInOrder(s: seq<Part>, i: nat, j: nat)
    requires i < j < |s| && s[i].order == s[j].order
    requires Sorting.Sorted(Sorting.Ties(s, s[i], ByOrder()), ByPair())
    ensures ByPair()(s[i], s[j])
  {
    hide ByPair, ByOrder, Sorting.Ties, Sorting.Sorted;
    if i == 0 {
      FirstTie(s, j);
    } else {
      TailTiesSorted(s, s[i]);
      assert s[1..][i-1] == s[i] && s[1..][j-1] == s[j];
      TiesInOrder(s[1..], i - 1, j - 1);
    }
  }

  /** The two readings put the parts of a path into the same order exactly when parts that share a
      join order already stand, in form order, in the order of their texts. */
  lemma {:induction false} ReadingsAgreeIff(fields: seq<Field>, values: Answers, path: Path)
    ensures Sorting.Sort(Parts(fields, values, path), ByOrder()) == NonBlank(Sorting.Sort(Answered(fields, values, path), ByPair()))
            <==> TiesStandSorted(Parts(fields, values, path))
  {
    hide LexLe, NonBlank, Answered;
    var parts := Parts(fields, values, path);
    FilterSortCommute(Answered(fields, values, path));
    if TiesStandSorted(parts) {
      SortedTiesAgree(parts);
    } else if Sorting.Sort(parts, ByOrder()) == Sorting.Sort(parts, ByPair()) {
      AgreeingTiesStandSorted(parts);
    }
  }

  lemma {:induction false} AgreeingTiesStandSorted(parts: seq<Part>)
    requires Sorting.Sort(parts, ByOrder()) == Sorting.Sort(parts, ByPair())
    ensures TiesStandSorted(parts)
  {
    hide LexLe, Sorting.Sort, Sorting.Ties;
    OrdersAreTotal();
    Sorting.SortSorted(parts, ByPair());
    forall i, j | 0 <= i < j < |parts| && parts[i].order == parts[j].order
      ensures LexLe(parts[i].text, parts[j].text)
    {
      TiesAreSorted(Sorting.Sort(parts, ByPair()), parts[i]);
      Sorting.SortStable(parts, parts[i], ByOrder());
      TiesInOrder(parts, i, j);
    }
  }

  /** Fields that share a path have join orders of their own. */
  predicate DistinctOrders(fields: seq<Field>, path: Path) {
    forall i, j | 0 <= i < j < |fields| && fields[i].path == fields[j].path == path :: fields[i].order != fields[j].order
  }

  lemma {:induction false} AnsweredCome(fields: seq<Field>, values: Answers, path: Path)
    requires DistinctOrders(fields, path)
    ensures forall p | p in Answered(fields, values, path) ::
              exists i | 0 <= i < |fields| :: fields[i].path == path && fields[i].order == p.order
    ensures forall a, b | 0 <= a < b < |Answered(fields, values, path)| ::
              Answered(fields, values, path)[a].order != Answered(fields, values, path)[b].order
  {
    if fields != [] {
      var before := fields[..|fields|-1];
      AnsweredCome(before, values, path);
      forall p | p in Answered(before, values, path)
        ensures exists i | 0 <= i < |fields| - 1 :: fields[i].path == path && fields[i].order == p.order
      {
        var i :| 0 <= i < |before| && before[i].path == path && before[i].order == p.order;
        assert fields[i] == before[i];
      }
    }
  }

  lemma {:induction false} NonBlankKeepsDistinct(parts: seq<Part>)
    requires forall a, b | 0 <= a < b < |parts| :: parts[a].order != parts[b].order
    ensures forall a, b | 0 <= a < b < |NonBlank(parts)| :: NonBlank(parts)[a].order != NonBlank(parts)[b].order
  {
    if parts != [] {
      NonBlankKeepsDistinct(parts[1..]);
      NonBlankHasNoBlanks(parts[1..]);
      var rest := NonBlank(parts[1..]);
      forall b | 0 <= b < |rest|
        ensures parts[0].order != rest[b].order
      {
        assert rest[b] in parts[1..];
      }
    }
  }

  /** With a join order of its own for every field of a path, both readings give the same string. */
  lemma {:induction false} ReadingsAgree(fields: seq<Field>, values: Answers, path: Path)
    requires DistinctOrders(fields, path)
    ensures SubmittedText(fields, values, path) == JoinedText(fields, values, path)
  {
    hide LexLe, NonBlank, Answered, Sorting.Sort, Join;
    AnsweredCome(fields, values, path);
    NonBlankKeepsDistinct(Answered(fields, values, path));
    ReadingsAgreeIff(fields, values, path);
  }

  function Ids(fields: seq<Field>): set<string> {
    set i | 0 <= i < |fields| :: fields[i].id
  }

  predicate DistinctIds(fields: seq<Field>) {
    forall i, j | 0 <= i < j < |fields| :: fields[i].id != fields[j].id
  }

  /** What a visitor posts who answers two fields against the alphabet and blanks all others. */
  function TwoAnswers(fields: seq<Field>, i: nat, j: nat): Answers
    requires i < |fields| && j < |fields|
  {
    map id | id in Ids(fields) :: if id == fields[i].id then "b" else if id == fields[j].id then "a" else ""
  }

  lemma {:induction false} ShortTextsStay()
    ensures Strip("a") == "a" && Strip("b") == "b" && Strip("") == "" && Strip("Z") == "Z" && Strip("A") == "A"
  {
  }

  lemma {:induction false} TwoAnswersAnswer(fields: seq<Field>, i: nat, j: nat, k: nat)
    requires i < j < |fields| && k < |fields| && DistinctIds(fields)
    ensures Answer(fields[k], TwoAnswers(fields, i, j)) == if k == i then "b" else if k == j then "a" else ""
  {
    hide Strip;
    ShortTextsStay();
    assert fields[k].id in Ids(fields);
  }

  lemma {:induction false} TwoAnswersParts(fields: seq<Field>, path: Path, i: nat, j: nat, k: nat)
    requires i < j < |fields| && k <= |fields| && DistinctIds(fields)
    requires fields[i].path == fields[j].path == path
    ensures Parts(fields[..k], TwoAnswers(fields, i, j), path) ==
            (if k > i then [Part(fields[i].order, "b")] else []) + (if k > j then [Part(fields[j].order, "a")] else [])
  {
    hide Answer, TwoAnswers, NonBlank;
    if k == 0 {
      NothingAnswered(fields, TwoAnswers(fields, i, j), path);
    } else {
      TwoAnswersParts(fields, path, i, j, k - 1);
      TwoAnswersAnswer(fields, i, j, k - 1);
      PartsStep(fields, TwoAnswers(fields, i, j), path, k - 1);
    }
  }

  lemma {:induction false} NothingAnswered(fields: seq<Field>, values: Answers, path: Path)
    ensures Parts(fields[..0], values, path) == []
  {
  }

  /** Two tied parts whose texts fall: one sort leaves them, the other swaps them. */
  lemma {:induction false} TiedPair(x: Part, y: Part)
    requires x.order == y.order && !LexLe(x.text, y.text)
    ensures Sorting.Sort([x, y], ByOrder()) == [x, y]
    ensures Sorting.Sort([x, y], ByPair()) == [y, x]
  {
    hide LexLe;
    assert [x, y][1..] == [y] && [y][1..] == [];
    SortOne(y, ByOrder());
    SortOne(y, ByPair());
    assert !ByPair()(x, y);
    assert Sorting.Insert(x, [], ByPair()) == [x];
    assert Sorting.Insert(x, [y], ByPair()) == [y] + [x];
  }

  lemma {:induction false} SortOne(x: Part, le: (Part, Part) -> bool)
    ensures Sorting.Sort([x], le) == [x]
  {
    assert [x][1..] == [];
    assert Sorting.Sort([], le) == [];
  }

  lemma {:induction false} JoinTwo(x: Part, y: Part)
    ensures Join([x, y]) == x.text + " " + y.text
  {
    assert [x, y][1..] == [y];
  }

  lemma {:induction false} TiedTexts(fields: seq<Field>, values: Answers, path: Path, x: Part, y: Part)
    requires Parts(fields, values, path) == [x, y] && x.order == y.order && !LexLe(x.text, y.text)
    ensures SubmittedText(fields, values, path) == x.text + " " + y.text
    ensures JoinedText(fields, values, path) == y.text + " " + x.text
  {
    hide LexLe, Sorting.Sort, Join, Answered, NonBlank, ByOrder, ByPair;
    FilterSortCommute(Answered(fields, values, path));
    TiedPair(x, y);
    JoinTwo(x, y);
    JoinTwo(y, x);
  }

  /** Wherever two fields of a path share a join order, a visitor can make the two readings differ. */
  lemma {:induction false} TiesCanDiffer(fields: seq<Field>, path: Path, i: nat, j: nat)
    requires i < j < |fields| && DistinctIds(fields)
    requires fields[i].path == fields[j].path == path && fields[i].order == fields[j].order
    ensures SubmittedText(fields, TwoAnswers(fields, i, j), path) == "b a"
    ensures JoinedText(fields, TwoAnswers(fields, i, j), path) == "a b"
  {
    hide Answer, TwoAnswers, Parts, SubmittedText, JoinedText;
    TwoAnswersParts(fields, path, i, j, |fields|);
    assert fields[..|fields|] == fields;
    var x, y := Part(fields[i].order, "b"), Part(fields[j].order, "a");
    assert !LexLe("b", "a");
    TiedTexts(fields, TwoAnswers(fields, i, j), path, x, y);
    assert "b" + " " + "a" == "b a" && "a" + " " + "b" == "a b";
  }

  /** Both readings give the same string, whatever a visitor posts, exactly when every field of the
      path has a join order of its own. */
  lemma {:induction false} SameStringIff(fields: seq<Field>, path: Path)
    requires DistinctIds(fields)
    ensures (forall values :: SubmittedText(fields, values, path) == JoinedText(fields, values, path))
            <==> DistinctOrders(fields, path)
  {
    hide SubmittedText, JoinedText, TwoAnswers;
    if DistinctOrders(fields, path) {
      forall values
        ensures SubmittedText(fields, values, path) == JoinedText(fields, values, path)
      {
        ReadingsAgree(fields, values, path);
      }
    } else {
      var i, j :| 0 <= i < j < |fields| && fields[i].path == fields[j].path == path && fields[i].order == fields[j].order;
      TiesCanDiffer(fields, path, i, j);
      assert SubmittedText(fields, TwoAnswers(fields, i, j), path) != JoinedText(fields, TwoAnswers(fields, i, j), path);
    }
  }

  /** Two prefilled fields with the default join order, sent as they are. */
  lemma {:induction false} TiedReadingsDiffer()
    ensures var fields := [Field("nachname", ["name"], "Z", 0), Field("vorname", ["name"], "A", 0)];
      && SubmittedText(fields, map[], ["name"]) == "Z A"
      && JoinedText(fields, map[], ["name"]) == "A Z"
  {
    hide SubmittedText, JoinedText, Parts, Strip;
    var z, a := Field("nachname", ["name"], "Z", 0), Field("vorname", ["name"], "A", 0);
    var fields, path: Path := [z, a], ["name"];
    ShortTextsStay();
    NothingAnswered(fields, map[], path);
    PartsStep(fields, map[], path, 0);
    PartsStep(fields, map[], path, 1);
    assert fields[..2] == fields;
    assert !LexLe("Z", "A");
    TiedTexts(fields, map[], path, Part(0, "Z"), Part(0, "A"));
    assert "Z" + " " + "A" == "Z A" && "A" + " " + "Z" == "A Z";
  }

  // ----- building the submission -----

  /** Writes a text at a path, creating objects on the way and replacing anything else found there. */
  function Assign(members: seq<Member>, path: Path, value: Json): seq<Member>
    requires path != []
    decreases |path|
  {
    if |path| == 1 then Put(members, path[0], value)
    else
      var child := Find(members, path[0]);
      var below := if child.Some? && child.value.JObj? then child.value.members else [];
      Put(members, path[0], JObj(Assign(below, path[1..], value)))
  }

  lemma {:induction false} AssignThenGet(members: seq<Member>, path: Path, value: Json)
    requires path != []
    ensures Resolve(JObj(Assign(members, path, value)), path) == Some(value)
    decreases |path|
  {
    if |path| == 1 {
      FindPut(members, path[0], value, path[0]);
      assert path[1..] == [];
    } else {
      var child := Find(members, path[0]);
      var below := if child.Some? && child.value.JObj? then child.value.members else [];
      AssignThenGet(below, path[1..], value);
      FindPut(members, path[0], JObj(Assign(below, path[1..], value)), path[0]);
    }
  }

  /** Nothing is lost elsewhere, even where an object replaces a text. */
  lemma {:induction false} AssignLeavesOthers(members: seq<Member>, path: Path, value: Json, other: Path)
    requires path != [] && Apart(path, other)
    ensures Resolve(JObj(Assign(members, path, value)), other) == Resolve(JObj(members), other)
    decreases |path|
  {
    assert other != [];
    if |path| == 1 {
      FindPut(members, path[0], value, other[0]);
      assert path[0] == other[0] ==> path <= other;
    } else {
      var child := Find(members, path[0]);
      var below := if child.Some? && child.value.JObj? then child.value.members else [];
      FindPut(members, path[0], JObj(Assign(below, path[1..], value)), other[0]);
      if other[0] == path[0] {
        TailsApart(path, other);
        AssignLeavesOthers(below, path[1..], value, other[1..]);
      }
    }
  }

  lemma {:induction false} TailsApart(path: Path, other: Path)
    requires path != [] && other != [] && path[0] == other[0] && Apart(path, other)
    ensures Apart(path[1..], other[1..]) && other[1..] != []
  {
    assert path == [path[0]] + path[1..] && other == [other[0]] + other[1..];
  }

  /** The first `k` paths written, blank texts left out. */
  function Built(fields: seq<Field>, values: Answers, k: nat): seq<Member>
    requires ValidPaths(fields) && k <= |Paths(fields)|
  {
    if k == 0 then []
    else
      var path := Paths(fields)[k-1];
      assert path in Paths(fields);
      var before, raw := Built(fields, values, k - 1), SubmittedText(fields, values, path);
      if raw == [] then before else Assign(before, path, JStr(raw))
  }

  /** The source's builder: one pass over the groups. */
  method BuildSubmission(fields: seq<Field>, values: Answers) returns (data: Json)
    requires ValidPaths(fields)
    ensures data == JObj(Built(fields, values, |Paths(fields)|))
  {
    hide SubmittedText, Parts, Paths, Sorting.Sort, Join, Built, Assign, ByOrder;
    NothingBuilt(fields, values);
    var grouped := GroupByPath(fields, values);
    var members: seq<Member> := [];
    for k := 0 to |grouped|
      invariant members == Built(fields, values, k)
    {
      var group := grouped[k];
      var raw := Join(Sorting.Sort(group.parts, ByOrder()));
      BuiltStep(fields, values, k);
      if raw == [] {
        continue;
      }
      members := Assign(members, group.path, JStr(raw));
    }
    return JObj(members);
  }

  lemma {:induction false} NothingBuilt(fields: seq<Field>, values: Answers)
    requires ValidPaths(fields)
    ensures Built(fields, values, 0) == []
  {
  }

  lemma {:induction false} BuiltStep(fields: seq<Field>, values: Answers, k: nat)
    requires ValidPaths(fields) && k < |Paths(fields)|
    ensures Paths(fields)[k] != []
    ensures var raw := Join(Sorting.Sort(Parts(fields, values, Paths(fields)[k]), ByOrder()));
      Built(fields, values, k + 1) ==
        if raw == [] then Built(fields, values, k) else Assign(Built(fields, values, k), Paths(fields)[k], JStr(raw))
  {
    hide Parts, Sorting.Sort, Join, Assign;
    assert Paths(fields)[k] in Paths(fields);
  }

  /** No path leads through another. */
  predicate PathsApart(fields: seq<Field>) {
    forall i, j | 0 <= i < |fields| && 0 <= j < |fields| && fields[i].path != fields[j].path :: Apart(fields[i].path, fields[j].path)
  }

  /** The text of each path can be read back at it, and a blank path is absent. */
  ghost predicate ReadsBack(fields: seq<Field>, values: Answers)
    requires ValidPaths(fields)
  {
    forall i | 0 <= i < |fields| ::
      Resolve(JObj(Built(fields, values, |Paths(fields)|)), fields[i].path) ==
        var text := SubmittedText(fields, values, fields[i].path);
        if text == [] then None else Some(JStr(text))
  }

  lemma {:induction false} DistinctPathsApart(fields: seq<Field>, a: nat, b: nat)
    requires PathsApart(fields) && a < |Paths(fields)| && b < |Paths(fields)| && a != b
    ensures Apart(Paths(fields)[a], Paths(fields)[b])
  {
    var paths := Paths(fields);
    assert paths[a] in paths && paths[b] in paths;
    assert paths[a] != paths[b];
  }

  /** After `k` paths: the first `k` read back, the rest are absent. */
  lemma {:induction false} BuiltReads(fields: seq<Field>, values: Answers, k: nat, g: nat)
    requires ValidPaths(fields) && PathsApart(fields) && k <= |Paths(fields)| && g < |Paths(fields)|
    ensures Resolve(JObj(Built(fields, values, k)), Paths(fields)[g]) ==
            var text := SubmittedText(fields, values, Paths(fields)[g]);
            if g < k && text != [] then Some(JStr(text)) else None
  {
    hide SubmittedText, PathsApart, Paths, Assign, Apart;
    var paths := Paths(fields);
    assert paths[g] in paths;
    if k == 0 {
      EmptyReads(paths[g]);
    } else {
      BuiltReads(fields, values, k - 1, g);
      var raw := SubmittedText(fields, values, paths[k-1]);
      assert paths[k-1] in paths;
      if raw != [] {
        if g == k - 1 {
          AssignThenGet(Built(fields, values, k - 1), paths[g], JStr(raw));
        } else {
          DistinctPathsApart(fields, k - 1, g);
          AssignLeavesOthers(Built(fields, values, k - 1), paths[k-1], JStr(raw), paths[g]);
        }
      }
    }
  }

  lemma {:induction false} EmptyReads(path: Path)
    requires path != []
    ensures Resolve(JObj([]), path) == None
  {
  }

  lemma {:induction false} ApartReadsBack(fields: seq<Field>, values: Answers)
    requires ValidPaths(fields) && PathsApart(fields)
    ensures ReadsBack(fields, values)
  {
    hide SubmittedText, Built, PathsApart, Resolve;
    forall i | 0 <= i < |fields|
      ensures Resolve(JObj(Built(fields, values, |Paths(fields)|)), fields[i].path) ==
              var text := SubmittedText(fields, values, fields[i].path);
              if text == [] then None else Some(JStr(text))
    {
      assert fields[i].path in Paths(fields);
      var g :| 0 <= g < |Paths(fields)| && Paths(fields)[g] == fields[i].path;
      BuiltReads(fields, values, |Paths(fields)|, g);
    }
  }

  /** No path leads through a text. */
  lemma {:induction false} TextsAreLeaves(j: Json, path: Path, other: Path)
    requires path < other && Resolve(j, path).Some? && Resolve(j, path).value.JStr?
    ensures Resolve(j, other) == None
    decreases |path|
  {
    if path != [] {
      assert path[1..] < other[1..];
      TextsAreLeaves(Find(j.members, path[0]).value, path[1..], other[1..]);
    }
  }

  /** Fills every field in. */
  function AllFilled(fields: seq<Field>): Answers {
    map id | id in Ids(fields) :: "x"
  }

  lemma {:induction false} FilledIsNotBlank(fields: seq<Field>, values: Answers, i: nat)
    requires i < |fields| && Answer(fields[i], values) != []
    ensures SubmittedText(fields, values, fields[i].path) != []
  {
    hide SubmittedText, Answer;
    var path := fields[i].path;
    BlankIff(fields, values, path);
    FilledIsAnswered(fields, values, i);
    NonBlankHasNoBlanks(Answered(fields, values, path));
  }

  lemma {:induction false} FilledIsAnswered(fields: seq<Field>, values: Answers, i: nat)
    requires i < |fields|
    ensures Part(fields[i].order, Answer(fields[i], values)) in Answered(fields, values, fields[i].path)
  {
    hide Answer;
    var before, path := fields[..|fields|-1], fields[i].path;
    if i < |before| {
      FilledIsAnswered(before, values, i);
    }
  }

  lemma {:induction false} OverlappingPathsLose(fields: seq<Field>, i: nat, j: nat)
    requires ValidPaths(fields) && i < |fields| && j < |fields| && fields[i].path < fields[j].path
    ensures !ReadsBack(fields, AllFilled(fields))
  {
    hide SubmittedText, Built, Resolve;
    var values, data := AllFilled(fields), JObj(Built(fields, AllFilled(fields), |Paths(fields)|));
    assert fields[i].id in Ids(fields) && fields[j].id in Ids(fields);
    FilledIsNotBlank(fields, values, i);
    FilledIsNotBlank(fields, values, j);
    if ReadsBack(fields, values) {
      TextsAreLeaves(data, fields[i].path, fields[j].path);
    }
  }

  /** The built submission reads back, whatever the visitor filled in, exactly when no path leads
      through another. */
  lemma {:induction false} SubmissionReadsBackIff(fields: seq<Field>)
    requires ValidPaths(fields)
    ensures (forall values :: ReadsBack(fields, values)) <==> PathsApart(fields)
  {
    hide ReadsBack, AllFilled;
    if PathsApart(fields) {
      forall values
        ensures ReadsBack(fields, values)
      {
        ApartReadsBack(fields, values);
      }
    } else {
      var i, j :| 0 <= i < |fields| && 0 <= j < |fields| && fields[i].path != fields[j].path
                  && !Apart(fields[i].path, fields[j].path);
      if fields[i].path <= fields[j].path {
        OverlappingPathsLose(fields, i, j);
      } else {
        OverlappingPathsLose(fields, j, i);
      }
    }
  }

  /** The counterparty letter names what the submission carries: with paths apart and join orders of
      their own, the letter's text for a path is the submitted one, blank if the path is absent. */
  lemma {:induction false} LetterQuotesSubmission(fields: seq<Field>, values: Answers, i: nat)
    requires ValidPaths(fields) && PathsApart(fields) && i < |fields| && DistinctOrders(fields, fields[i].path)
    ensures var read, letter := Resolve(JObj(Built(fields, values, |Paths(fields)|)), fields[i].path),
                                JoinedText(fields, values, fields[i].path);
      read == if letter == [] then None else Some(JStr(letter))
  {
    hide SubmittedText, JoinedText, Built, PathsApart, Resolve, DistinctOrders;
    ApartReadsBack(fields, values);
    ReadingsAgree(fields, values, fields[i].path);
  }
}
