/** Rendering facts into a submission and varying its surface without touching ground truth
    (corpus/generator/render.py, corpus/generator/paraphrase.py). */
module Paraphrase {
  import opened Predicates
  import opened Payload
  import opened Wrappers

  datatype Fact = Fact(field: string, value: string)

  /** Field id to payload path. */
  type Table = map<string, Path>

  const ADDRESS_PATH: Path := ["antragsteller", "anschrift"]
  const NOTE_PATH: Path := ["antrag", "hinweistext"]
  const META_PATH: Path := ["meta"]
  const DATE_KEY := "eingangsdatum"
  const WISH_KEY := "bearbeitungswunsch"
  const DECORATIVE_PATHS: seq<Path> := [ADDRESS_PATH, NOTE_PATH, ["meta", DATE_KEY], ["meta", WISH_KEY]]

  /** No mapped path leads through another one, or through a decorative one. */
  ghost predicate PrefixFree(table: Table) {
    && (forall f, g | f in table && g in table && f != g :: Apart(table[f], table[g]))
    && (forall f | f in table :: table[f] != [])
    && (forall f, i | f in table && 0 <= i < |DECORATIVE_PATHS| :: Apart(table[f], DECORATIVE_PATHS[i]))
  }

  lemma {:induction false} PathsAreNonEmpty(table: Table)
    requires PrefixFree(table)
    ensures forall f | f in table :: table[f] != []
  {
  }

  // ----- rendering -----

  datatype GeneratorError = UnknownField(field: string) | PathCollision(path: Path) | LabelsChanged

  /** The first `k` facts written into an empty object. */
  function Written(facts: seq<Fact>, table: Table, k: nat): Result<seq<Member>, GeneratorError>
    requires k <= |facts|
    requires forall f | f in table :: table[f] != []
  {
    if k == 0 then Ok([])
    else
      match Written(facts, table, k - 1)
      case Err(e) => Err(e)
      case Ok(data) =>
        if facts[k-1].field !in table then Err(UnknownField(facts[k-1].field))
        else
          match SetPath(data, table[facts[k-1].field], JStr(facts[k-1].value))
          case Err(c) => Err(PathCollision(c.path))
          case Ok(more) => Ok(more)
  }

  function Rendered(facts: seq<Fact>, table: Table, address: Json): Result<Json, GeneratorError>
    requires forall f | f in table :: table[f] != []
  {
    match Written(facts, table, |facts|)
    case Err(e) => Err(e)
    case Ok(data) =>
      match SetPath(data, ADDRESS_PATH, address)
      case Err(c) => Err(PathCollision(c.path))
      case Ok(more) => Ok(JObj(more))
  }

  method RenderData(facts: seq<Fact>, table: Table, address: Json) returns (r: Result<Json, GeneratorError>)
    requires forall f | f in table :: table[f] != []
    ensures r == Rendered(facts, table, address)
  {
    var data: seq<Member> := [];
    for k := 0 to |facts|
      invariant Written(facts, table, k) == Ok(data)
    {
      if facts[k].field !in table {
        WrittenStops(facts, table, k + 1);
        return Err(UnknownField(facts[k].field));
      }
      var more := SetPath(data, table[facts[k].field], JStr(facts[k].value));
      if more.Err? {
        WrittenStops(facts, table, k + 1);
        return Err(PathCollision(more.error.path));
      }
      data := more.value;
    }
    var more := SetPath(data, ADDRESS_PATH, address);
    return if more.Err? then Err(PathCollision(more.error.path)) else Ok(JObj(more.value));
  }

  lemma {:induction false} WrittenStops(facts: seq<Fact>, table: Table, k: nat)
    requires k <= |facts| && (forall f | f in table :: table[f] != []) && Written(facts, table, k).Err?
    ensures Written(facts, table, |facts|) == Written(facts, table, k)
    decreases |facts| - k
  {
    if k < |facts| {
      WrittenStops(facts, table, k + 1);
    }
  }

  // ----- what the mapper reads -----

  /** The stripped text at a path; `show` renders anything that is not a string. */
  function TextAt(data: Json, path: Path, show: Json -> string): Option<string> {
    match Resolve(data, path)
    case None => None
    case Some(JNull) => None
    case Some(JStr(s)) => Some(Strip(s))
    case Some(other) => Some(Strip(show(other)))
  }

  function MappedValues(data: Json, table: Table, show: Json -> string): map<string, string> {
    map f | f in table && TextAt(data, table[f], show).Some? :: TextAt(data, table[f], show).value
  }

  /** Nothing is read where nothing or a null stands; a string is read stripped, anything else as it is shown. */
  lemma {:induction false} TextAtIs(data: Json, path: Path, show: Json -> string)
    ensures TextAt(data, path, show) ==
            if Resolve(data, path) == None || Resolve(data, path) == Some(JNull) then None
            else if Resolve(data, path).value.JStr? then Some(Strip(Resolve(data, path).value.s))
            else Some(Strip(show(Resolve(data, path).value)))
  {
    hide Resolve, Strip;
  }

  /** Same text at every mapped path: the same mapped values. */
  lemma {:induction false} SameTexts(data: Json, data': Json, table: Table, show: Json -> string)
    requires forall f | f in table :: TextAt(data, table[f], show) == TextAt(data', table[f], show)
    ensures MappedValues(data, table, show) == MappedValues(data', table, show)
  {
  }

  // ----- rendered data -----

  predicate DistinctFields(facts: seq<Fact>) {
    forall i, j | 0 <= i < j < |facts| :: facts[i].field != facts[j].field
  }

  predicate HasField(facts: seq<Fact>, field: string) {
    exists i | 0 <= i < |facts| :: facts[i].field == field
  }

  function ValueOf(facts: seq<Fact>, field: string): (v: string)
    requires HasField(facts, field)
    ensures exists i | 0 <= i < |facts| :: facts[i] == Fact(field, v)
  {
    if facts[0].field == field then facts[0].value
    else
      assert HasField(facts[1..], field) by {
        var i :| 0 <= i < |facts| && facts[i].field == field;
        assert facts[1..][i-1].field == field;
      }
      ValueOf(facts[1..], field)
  }

  /** The data holds the first `k` facts at their paths and nothing at the other mapped ones. */
  ghost predicate Holds(data: seq<Member>, facts: seq<Fact>, table: Table, k: nat)
    requires k <= |facts|
  {
    && WellFormed(JObj(data))
    && (forall i | 0 <= i < k :: facts[i].field in table ==>
          Resolve(JObj(data), table[facts[i].field]) == Some(JStr(facts[i].value)))
    && (forall f | f in table && !HasField(facts[..k], f) :: Resolve(JObj(data), table[f]) == None)
    && (forall f | f in table :: Passable(JObj(data), table[f]))
    && (forall i | 0 <= i < |DECORATIVE_PATHS| :: Passable(JObj(data), DECORATIVE_PATHS[i]))
  }

  /** Writing one path keeps the way to every path that is not led through it. */
  lemma {:induction false} SetKeepsPassable(data: seq<Member>, path: Path, value: Json, other: Path)
    requires path != [] && SetPath(data, path, value).Ok? && Passable(JObj(data), other)
    requires !(path < other)
    ensures Passable(JObj(SetPath(data, path, value).value), other)
  {
    hide SetPath, Resolve;
    var more := SetPath(data, path, value).value;
    forall k | 0 <= k < |other|
      ensures Resolve(JObj(more), other[..k]).Some? ==> Resolve(JObj(more), other[..k]).value.JObj?
    {
      var before := other[..k];
      NotBelow(path, other, k);
      if before < path {
        SetMakesObjects(data, path, value, before);
      } else {
        SetLeavesOthers(data, path, value, before);
      }
    }
  }

  /** A path that is not led through `path` has no step at or below it either. */
  lemma {:induction false} NotBelow(path: Path, other: Path, k: nat)
    requires k < |other|
    ensures path <= other[..k] ==> path < other
    ensures other[..k] <= path ==> other[..k] < path || path <= other[..k]
  {
  }

  lemma {:induction false} HasFieldStep(facts: seq<Fact>, k: nat, field: string)
    requires k < |facts|
    ensures HasField(facts[..k+1], field) <==> HasField(facts[..k], field) || field == facts[k].field
  {
    assert facts[..k+1] == facts[..k] + [facts[k]];
    if field == facts[k].field {
      assert facts[..k+1][k].field == field;
    }
    if HasField(facts[..k], field) {
      var i :| 0 <= i < k && facts[..k][i].field == field;
      assert facts[..k+1][i].field == field;
    }
  }

  lemma {:induction false} HoldsStep(data: seq<Member>, facts: seq<Fact>, table: Table, k: nat)
    requires k < |facts| && PrefixFree(table) && DistinctFields(facts) && Holds(data, facts, table, k)
    requires facts[k].field in table
    ensures SetPath(data, table[facts[k].field], JStr(facts[k].value)).Ok?
    ensures Holds(SetPath(data, table[facts[k].field], JStr(facts[k].value)).value, facts, table, k + 1)
  {
    hide SetPath, Resolve, Passable, HasField, WellFormed;
    var f, v := facts[k].field, JStr(facts[k].value);
    SetSucceedsIff(data, table[f], v);
    var more := SetPath(data, table[f], v).value;
    SetWellFormed(data, table[f], v);
    SetThenGet(data, table[f], v);
    forall g | g in table && g != f
      ensures Resolve(JObj(more), table[g]) == Resolve(JObj(data), table[g])
    {
      SetLeavesOthers(data, table[f], v, table[g]);
    }
    forall g | g in table && !HasField(facts[..k+1], g)
      ensures !HasField(facts[..k], g) && g != f
    {
      HasFieldStep(facts, k, g);
    }
    forall g | g in table
      ensures Passable(JObj(more), table[g])
    {
      SetKeepsPassable(data, table[f], v, table[g]);
    }
    forall i | 0 <= i < |DECORATIVE_PATHS|
      ensures Passable(JObj(more), DECORATIVE_PATHS[i])
    {
      SetKeepsPassable(data, table[f], v, DECORATIVE_PATHS[i]);
    }
  }

  lemma {:induction false} WrittenHolds(facts: seq<Fact>, table: Table, k: nat)
    requires k <= |facts| && PrefixFree(table) && DistinctFields(facts)
    requires forall f | f in facts :: f.field in table
    ensures forall f | f in table :: table[f] != []
    ensures Written(facts, table, k).Ok? && Holds(Written(facts, table, k).value, facts, table, k)
  {
    hide Holds, SetPath, PrefixFree;
    PathsAreNonEmpty(table);
    if k > 0 {
      WrittenHolds(facts, table, k - 1);
      assert facts[k-1] in facts;
      HoldsStep(Written(facts, table, k - 1).value, facts, table, k - 1);
    } else {
      EmptyHolds(facts, table);
    }
  }

  lemma {:induction false} EmptyHolds(facts: seq<Fact>, table: Table)
    requires PrefixFree(table)
    ensures Holds([], facts, table, 0)
  {
    forall path: Path
      ensures Passable(JObj([]), path)
    {
    }
  }

  /** Rendered data: well-formed, one string per fact, nothing at the unstated fields. */
  ghost predicate IsRendering(data: Json, facts: seq<Fact>, table: Table) {
    && data.JObj? && WellFormed(data)
    && (forall f | f in table :: Resolve(data, table[f]) ==
          if HasField(facts, f) then Some(JStr(ValueOf(facts, f))) else None)
    && Passable(data, NOTE_PATH)
  }

  lemma {:induction false} HoldsAll(data: seq<Member>, facts: seq<Fact>, table: Table, f: string)
    requires Holds(data, facts, table, |facts|) && f in table
    ensures Resolve(JObj(data), table[f]) == if HasField(facts, f) then Some(JStr(ValueOf(facts, f))) else None
  {
    hide Resolve, Passable, WellFormed;
    assert facts[..|facts|] == facts;
    if HasField(facts, f) {
      var v := ValueOf(facts, f);
      var i :| 0 <= i < |facts| && facts[i] == Fact(f, v);
    }
  }

  lemma {:induction false} WayIsFree(data: seq<Member>, facts: seq<Fact>, table: Table)
    requires Holds(data, facts, table, |facts|)
    ensures WellFormed(JObj(data)) && Passable(JObj(data), ADDRESS_PATH) && Passable(JObj(data), NOTE_PATH)
  {
    hide Resolve, Passable, WellFormed;
    assert DECORATIVE_PATHS[0] == ADDRESS_PATH && DECORATIVE_PATHS[1] == NOTE_PATH;
  }

  lemma {:induction false} DecorationsAreApart(table: Table, f: string)
    requires PrefixFree(table) && f in table
    ensures Apart(ADDRESS_PATH, table[f]) && Apart(table[f], NOTE_PATH)
  {
    assert DECORATIVE_PATHS[0] == ADDRESS_PATH && DECORATIVE_PATHS[1] == NOTE_PATH;
  }

  lemma {:induction false} AddressIsNotOnTheWay()
    ensures !(ADDRESS_PATH < NOTE_PATH)
  {
  }

  lemma {:induction false} RenderedIsRendering(facts: seq<Fact>, table: Table, address: Json)
    requires PrefixFree(table) && DistinctFields(facts) && WellFormed(address)
    requires forall f | f in facts :: f.field in table
    ensures forall f | f in table :: table[f] != []
    ensures Rendered(facts, table, address).Ok?
    ensures IsRendering(Rendered(facts, table, address).value, facts, table)
  {
    hide Holds, SetPath, PrefixFree, Resolve, Passable, WellFormed, HasField, ValueOf, Apart, DECORATIVE_PATHS, Written;
    WrittenHolds(facts, table, |facts|);
    var data := Written(facts, table, |facts|).value;
    WayIsFree(data, facts, table);
    SetSucceedsIff(data, ADDRESS_PATH, address);
    SetWellFormed(data, ADDRESS_PATH, address);
    var more := SetPath(data, ADDRESS_PATH, address).value;
    forall f | f in table
      ensures Resolve(JObj(more), table[f]) == if HasField(facts, f) then Some(JStr(ValueOf(facts, f))) else None
    {
      DecorationsAreApart(table, f);
      SetLeavesOthers(data, ADDRESS_PATH, address, table[f]);
      HoldsAll(data, facts, table, f);
    }
    AddressIsNotOnTheWay();
    SetKeepsPassable(data, ADDRESS_PATH, address, NOTE_PATH);
  }

  /** The payload states exactly the facts, stripped: no rendering bug can mislabel an item. */
  lemma {:induction false} RenderingStatesTheFacts(facts: seq<Fact>, table: Table, address: Json, show: Json -> string)
    requires PrefixFree(table) && DistinctFields(facts) && WellFormed(address)
    requires forall f | f in facts :: f.field in table
    ensures forall f | f in table :: table[f] != []
    ensures Rendered(facts, table, address).Ok?
    ensures MappedValues(Rendered(facts, table, address).value, table, show) == StatedValues(facts, table)
  {
    hide PrefixFree, IsRendering, MappedValues, StatedValues, Rendered;
    RenderedIsRendering(facts, table, address);
    RenderingMaps(Rendered(facts, table, address).value, facts, table, show);
  }

  /** The facts themselves, stripped, by field. */
  function StatedValues(facts: seq<Fact>, table: Table): map<string, string> {
    map f | f in table && HasField(facts, f) :: Strip(ValueOf(facts, f))
  }

  lemma {:induction false} RenderingMaps(data: Json, facts: seq<Fact>, table: Table, show: Json -> string)
    requires IsRendering(data, facts, table)
    ensures MappedValues(data, table, show) == StatedValues(facts, table)
  {
    hide Resolve, HasField, ValueOf, Passable, WellFormed, Strip;
  }

  // ----- paraphrasing -----

  /** What the random source and the templates contribute to one item. */
  datatype Surface = Surface(note: string, date: string, wish: Option<string>, pads: PadDraw, orders: OrderDraw)

  function MetaBlock(s: Surface): Json {
    JObj([Member(DATE_KEY, JStr(s.date))] + if s.wish.Some? then [Member(WISH_KEY, JStr(s.wish.value))] else [])
  }

  /** The data with the cover note and the meta block. */
  function Decorated(data: Json, s: Surface): Result<Json, GeneratorError>
    requires data.JObj?
  {
    match SetPath(data.members, NOTE_PATH, JStr(s.note))
    case Err(c) => Err(PathCollision(c.path))
    case Ok(noted) => Ok(JObj(Put(noted, META_PATH[0], MetaBlock(s))))
  }

  /** The varied data, or the guard's refusal. */
  ghost function Varied(data: Json, s: Surface, table: Table, show: Json -> string): Result<Json, GeneratorError>
    requires data.JObj? && DrawsPermutations(s.orders)
  {
    match Decorated(data, s)
    case Err(e) => Err(e)
    case Ok(decorated) =>
      var after := Shuffle(Pad(decorated, [], s.pads), [], s.orders);
      if MappedValues(data, table, show) == MappedValues(after, table, show) then Ok(after) else Err(LabelsChanged)
  }

  lemma {:induction false} MetaWellFormed(s: Surface)
    ensures WellFormed(MetaBlock(s))
  {
    assert DATE_KEY[0] != WISH_KEY[0];
  }

  /** Decorating succeeds, and nothing outside the note and the meta block changes. */
  lemma {:induction false} DecoratedKeeps(data: Json, s: Surface)
    requires data.JObj? && WellFormed(data) && Passable(data, NOTE_PATH)
    ensures Decorated(data, s).Ok? && WellFormed(Decorated(data, s).value)
    ensures forall path: Path | Apart(path, NOTE_PATH) && !(META_PATH <= path) ::
              Resolve(Decorated(data, s).value, path) == Resolve(data, path)
  {
    hide SetPath, WellFormed, Passable, MetaBlock;
    SetSucceedsIff(data.members, NOTE_PATH, JStr(s.note));
    SetWellFormed(data.members, NOTE_PATH, JStr(s.note)) by {
      StringsAreWellFormed(s.note);
    }
    var noted := SetPath(data.members, NOTE_PATH, JStr(s.note)).value;
    MetaWellFormed(s);
    PutWellFormed(noted, META_PATH[0], MetaBlock(s));
    forall path: Path | Apart(path, NOTE_PATH) && !(META_PATH <= path)
      ensures Resolve(Decorated(data, s).value, path) == Resolve(data, path)
    {
      SetLeavesOthers(data.members, NOTE_PATH, JStr(s.note), path);
      PutLeavesOthers(noted, MetaBlock(s), path);
    }
  }

  /** Decorating writes what it was given: the note, the date, and the wish exactly if there is one. */
  lemma {:induction false} DecoratedSays(data: Json, s: Surface)
    requires data.JObj? && Passable(data, NOTE_PATH)
    ensures Decorated(data, s).Ok?
    ensures Resolve(Decorated(data, s).value, NOTE_PATH) == Some(JStr(s.note))
    ensures Resolve(Decorated(data, s).value, ["meta", "eingangsdatum"]) == Some(JStr(s.date))
    ensures Resolve(Decorated(data, s).value, ["meta", "bearbeitungswunsch"]) ==
            match s.wish case None => None case Some(w) => Some(JStr(w))
  {
    hide SetPath, Passable, MetaBlock;
    SetSucceedsIff(data.members, NOTE_PATH, JStr(s.note));
    SetThenGet(data.members, NOTE_PATH, JStr(s.note));
    var noted := SetPath(data.members, NOTE_PATH, JStr(s.note)).value;
    NoteIsNotMeta();
    PutLeavesMeta(noted, MetaBlock(s), NOTE_PATH);
    MetaReads(noted, s, DATE_KEY);
    MetaReads(noted, s, WISH_KEY);
    MetaBlockSays(s);
  }

  lemma {:induction false} NoteIsNotMeta()
    ensures NOTE_PATH != [] && NOTE_PATH[0] != META_PATH[0]
  {
    assert NOTE_PATH[0][0] != META_PATH[0][0];
  }

  lemma {:induction false} PutLeavesMeta(members: seq<Member>, block: Json, path: Path)
    requires path != [] && path[0] != META_PATH[0]
    ensures Resolve(JObj(Put(members, META_PATH[0], block)), path) == Resolve(JObj(members), path)
  {
    hide Put, Find;
    FindPut(members, META_PATH[0], block, path[0]);
  }

  lemma {:induction false} OneStep(j: Json, key: string)
    requires j.JObj?
    ensures Resolve(j, [key]) == Find(j.members, key)
  {
    assert [key][1..] == [];
  }

  lemma {:induction false} MetaReads(members: seq<Member>, s: Surface, key: string)
    ensures Resolve(JObj(Put(members, META_PATH[0], MetaBlock(s))), ["meta", key]) == Find(MetaBlock(s).members, key)
  {
    hide Put, Find;
    var path: Path := ["meta", key];
    FindPut(members, META_PATH[0], MetaBlock(s), path[0]);
    assert path[1..] == [key];
    OneStep(MetaBlock(s), key);
  }

  lemma {:induction false} MetaBlockSays(s: Surface)
    ensures Find(MetaBlock(s).members, DATE_KEY) == Some(JStr(s.date))
    ensures Find(MetaBlock(s).members, WISH_KEY) == match s.wish case None => None case Some(w) => Some(JStr(w))
  {
    assert DATE_KEY[0] != WISH_KEY[0];
    var dated, members := [Member(DATE_KEY, JStr(s.date))], MetaBlock(s).members;
    assert dated[1..] == [];
    if s.wish.Some? {
      assert members[1..] == [Member(WISH_KEY, JStr(s.wish.value))];
    } else {
      assert members == dated;
    }
  }

  lemma {:induction false} StringsAreWellFormed(s: string)
    ensures WellFormed(JStr(s))
  {
  }

  lemma {:induction false} PutLeavesOthers(members: seq<Member>, block: Json, path: Path)
    requires Apart(path, NOTE_PATH) && !(META_PATH <= path)
    ensures Resolve(JObj(Put(members, META_PATH[0], block)), path) == Resolve(JObj(members), path)
  {
    hide Put, Find;
    assert path != [];
    FindPut(members, META_PATH[0], block, path[0]);
    assert path[0] != META_PATH[0];
  }

  /** For a table that keeps clear of the whole `meta` object, no note, meta block, padding or key
      order changes a mapped value of a rendered payload: the guard never fires. */
  lemma {:induction false} GuardNeverFires(facts: seq<Fact>, table: Table, address: Json, s: Surface, show: Json -> string)
    requires PrefixFree(table) && DistinctFields(facts) && WellFormed(address)
    requires forall f | f in facts :: f.field in table
    requires forall f | f in table :: !(META_PATH <= table[f])
    requires DrawsPaddings(s.pads) && DrawsPermutations(s.orders)
    ensures forall f | f in table :: table[f] != []
    ensures Rendered(facts, table, address).Ok?
    ensures Rendered(facts, table, address).value.JObj?
    ensures Varied(Rendered(facts, table, address).value, s, table, show).Ok?
    ensures MappedValues(Varied(Rendered(facts, table, address).value, s, table, show).value, table, show)
            == StatedValues(facts, table)
  {
    hide PrefixFree, DrawsPaddings, DrawsPermutations, MappedValues, StatedValues, Rendered, IsRendering, WellFormed;
    RenderedIsRendering(facts, table, address);
    var data := Rendered(facts, table, address).value;
    RenderingMaps(data, facts, table, show);
    VariedKeepsValues(data, facts, table, s, show);
  }

  lemma {:induction false} VariedKeepsValues(data: Json, facts: seq<Fact>, table: Table, s: Surface, show: Json -> string)
    requires PrefixFree(table) && IsRendering(data, facts, table)
    requires forall f | f in table :: !(META_PATH <= table[f])
    requires DrawsPaddings(s.pads) && DrawsPermutations(s.orders)
    ensures data.JObj?
    ensures Varied(data, s, table, show).Ok?
    ensures MappedValues(Varied(data, s, table, show).value, table, show) == MappedValues(data, table, show)
  {
    hide PrefixFree, DrawsPaddings, DrawsPermutations, MappedValues, WellFormed, Resolve, Passable, Pad, Shuffle, Decorated,
      Apart, HasField, ValueOf;
    DecoratedKeeps(data, s);
    var decorated := Decorated(data, s).value;
    var after := Shuffle(Pad(decorated, [], s.pads), [], s.orders);
    forall f | f in table
      ensures TextAt(data, table[f], show) == TextAt(after, table[f], show)
    {
      DecorationsAreApart(table, f);
      SurfaceKeepsText(decorated, s.pads, s.orders, table[f]);
    }
    SameTexts(data, after, table, show);
  }

  /** Keeping clear of the decorative paths is not enough: the meta block replaces the whole
      object.  The guard stays silent for every fact set exactly when no mapped path lies below
      `meta`. */
  lemma {:induction false} GuardSilentIff(table: Table, address: Json, s: Surface, show: Json -> string)
    requires PrefixFree(table) && WellFormed(address)
    requires DrawsPaddings(s.pads) && DrawsPermutations(s.orders)
    ensures (forall facts: seq<Fact> | DistinctFields(facts) && forall f | f in facts :: f.field in table ::
               RenderedIsVaried(facts, table, address, s, show))
            <==> forall f | f in table :: !(META_PATH <= table[f])
  {
    hide PrefixFree, WellFormed, DrawsPaddings, DrawsPermutations, Rendered, Varied, DistinctFields, MappedValues, StatedValues;
    if f :| f in table && META_PATH <= table[f] {
      MetaIsReplaced(f, table, address, s, show);
      assert forall g | g in [Fact(f, "")] :: g.field in table;
    } else {
      forall facts: seq<Fact> | DistinctFields(facts) && forall f | f in facts :: f.field in table
        ensures RenderedIsVaried(facts, table, address, s, show)
      {
        GuardNeverFires(facts, table, address, s, show);
      }
    }
  }

  /** The facts render and the guard lets the varied payload through. */
  ghost predicate RenderedIsVaried(facts: seq<Fact>, table: Table, address: Json, s: Surface, show: Json -> string)
    requires DrawsPermutations(s.orders)
  {
    && (forall f | f in table :: table[f] != [])
    && Rendered(facts, table, address).Ok?
    && Rendered(facts, table, address).value.JObj?
    && Varied(Rendered(facts, table, address).value, s, table, show).Ok?
  }

  /** A mapped path that keeps clear of the two decorative ones below `meta` leads elsewhere below it. */
  lemma {:induction false} OtherMetaKeys(table: Table, field: string)
    requires PrefixFree(table) && field in table && META_PATH <= table[field]
    ensures |table[field]| > 1 && table[field][0] == META_PATH[0]
    ensures table[field][1] != DATE_KEY && table[field][1] != WISH_KEY
  {
    var path := table[field];
    assert DECORATIVE_PATHS[2] == ["meta", DATE_KEY] && DECORATIVE_PATHS[3] == ["meta", WISH_KEY];
    ShortMetaPaths(path, DATE_KEY);
    ShortMetaPaths(path, WISH_KEY);
  }

  lemma {:induction false} ShortMetaPaths(path: Path, key: string)
    requires META_PATH <= path
    ensures |path| == 1 ==> path <= ["meta", key]
    ensures |path| > 1 && path[1] == key ==> ["meta", key] <= path
  {
  }

  /** Whatever stood at such a path is gone once the meta block is in place. */
  lemma {:induction false} MetaLosesField(data: Json, s: Surface, path: Path)
    requires data.JObj? && Decorated(data, s).Ok?
    requires |path| > 1 && path[0] == META_PATH[0] && path[1] != DATE_KEY && path[1] != WISH_KEY
    ensures Resolve(Decorated(data, s).value, path) == None
  {
    hide SetPath;
    var noted := SetPath(data.members, NOTE_PATH, JStr(s.note)).value;
    FindPut(noted, META_PATH[0], MetaBlock(s), path[0]);
    assert Find(MetaBlock(s).members, path[1]) == None;
    assert path[1..][0] == path[1];
    assert Resolve(MetaBlock(s), path[1..]) == None;
  }

  lemma {:induction false} MetaIsReplaced(field: string, table: Table, address: Json, s: Surface, show: Json -> string)
    requires PrefixFree(table) && WellFormed(address) && field in table && META_PATH <= table[field]
    requires DrawsPaddings(s.pads) && DrawsPermutations(s.orders)
    ensures DistinctFields([Fact(field, "")])
    ensures !RenderedIsVaried([Fact(field, "")], table, address, s, show)
  {
    hide PrefixFree, DrawsPaddings, DrawsPermutations, WellFormed, Resolve, Passable, Pad, Shuffle, Decorated, Rendered, Strip;
    var facts, path := [Fact(field, "")], table[field];
    RenderedIsRendering(facts, table, address);
    var data := Rendered(facts, table, address).value;
    assert facts[0].field == field;
    assert HasField(facts, field);
    assert field in MappedValues(data, table, show);
    DecoratedKeeps(data, s);
    OtherMetaKeys(table, field);
    MetaLosesField(data, s, path);
    var decorated := Decorated(data, s).value;
    SurfaceKeepsText(decorated, s.pads, s.orders, path);
    var after := Shuffle(Pad(decorated, [], s.pads), [], s.orders);
    assert Resolve(after, path) == None;
    assert field !in MappedValues(after, table, show);
  }

  // ----- the shipped table -----

  const ANTRAG_FIELDS: set<string> := {
    "rentenart", "rentenbeginn", "auslandsbezug", "eintritt_erwerbsminderung", "letzte_taetigkeit",
    "gutachten_status", "antragsart", "antragsteller_rolle", "taetigkeit_bezeichnung", "taetigkeit_beginn",
    "weisungsgebunden", "eingliederung_arbeitsorganisation", "arbeitsort", "weitere_auftraggeber",
    "umsatzanteil_hauptauftraggeber", "honorar_modell", "honorar_monatlich", "rahmenvertrag", "dreiecksverhaeltnis" }

  const PERSON_PATHS: Table := map[
    "geburtsdatum" := ["antragsteller", "geburtsdatum"],
    "versicherungsnummer" := ["antragsteller", "versicherungsnummer"],
    "auftraggeber_name" := ["auftraggeber", "firmenname"],
    "auftraggeber_betriebsnummer" := ["auftraggeber", "betriebsnummer"]]

  /** Most fields live under `antrag` by their own name. */
  const FIELD_PATHS: Table := (map f | f in ANTRAG_FIELDS :: ["antrag", f]) + PERSON_PATHS

  /** Two two-step paths are apart unless they are the same. */
  lemma {:induction false} PairsApart(p: Path, q: Path)
    requires |p| == |q| == 2 && (p[0] != q[0] || p[1] != q[1])
    ensures Apart(p, q)
  {
  }

  lemma {:induction false} FieldPath(f: string)
    requires f in FIELD_PATHS
    ensures |FIELD_PATHS[f]| == 2
    ensures f in PERSON_PATHS ==> FIELD_PATHS[f] == PERSON_PATHS[f]
    ensures f !in PERSON_PATHS ==> f in ANTRAG_FIELDS && FIELD_PATHS[f] == ["antrag", f]
  {
    hide ANTRAG_FIELDS;
  }

  lemma {:induction false} PersonPaths(f: string)
    requires f in PERSON_PATHS
    ensures |PERSON_PATHS[f]| == 2
    ensures |PERSON_PATHS[f][0]| in {12, 13} && PERSON_PATHS[f][0][0] == 'a'
    ensures |PERSON_PATHS[f][1]| in {10, 12, 14, 19}
    ensures PERSON_PATHS[f] == ["antragsteller", "geburtsdatum"] || PERSON_PATHS[f] == ["antragsteller", "versicherungsnummer"]
         || PERSON_PATHS[f] == ["auftraggeber", "firmenname"] || PERSON_PATHS[f] == ["auftraggeber", "betriebsnummer"]
  {
  }

  lemma {:induction false} PersonPathsDiffer(f: string, g: string)
    requires f in PERSON_PATHS && g in PERSON_PATHS && f != g
    ensures PERSON_PATHS[f][1] != PERSON_PATHS[g][1]
  {
    assert |"geburtsdatum"| == 12 && |"versicherungsnummer"| == 19 && |"firmenname"| == 10 && |"betriebsnummer"| == 14;
  }

  lemma {:induction false} NotesAreNoField()
    ensures "hinweistext" !in ANTRAG_FIELDS
  {
    assert |"hinweistext"| == 11;
    assert forall f | f in ANTRAG_FIELDS :: |f| != 11;
  }

  lemma {:induction false} ShippedPathsApart(f: string, g: string)
    requires f in FIELD_PATHS && g in FIELD_PATHS && f != g
    ensures Apart(FIELD_PATHS[f], FIELD_PATHS[g])
  {
    hide FIELD_PATHS, PERSON_PATHS, ANTRAG_FIELDS, Apart;
    FieldPath(f);
    FieldPath(g);
    if f in PERSON_PATHS { PersonPaths(f); }
    if g in PERSON_PATHS { PersonPaths(g); }
    if f in PERSON_PATHS && g in PERSON_PATHS { PersonPathsDiffer(f, g); }
    assert |"antrag"| == 6;
    PairsApart(FIELD_PATHS[f], FIELD_PATHS[g]);
  }

  lemma {:induction false} ShippedPathsAvoidDecorations(f: string, i: nat)
    requires f in FIELD_PATHS && i < |DECORATIVE_PATHS|
    ensures Apart(FIELD_PATHS[f], DECORATIVE_PATHS[i])
    ensures !(META_PATH <= FIELD_PATHS[f])
  {
    hide FIELD_PATHS, PERSON_PATHS, ANTRAG_FIELDS, Apart;
    FieldPath(f);
    NotesAreNoField();
    if f in PERSON_PATHS { PersonPaths(f); }
    var decoration := DECORATIVE_PATHS[i];
    assert decoration in [ADDRESS_PATH, NOTE_PATH, ["meta", DATE_KEY], ["meta", WISH_KEY]];
    assert |"antrag"| == 6 && |"meta"| == 4 && |"antragsteller"| == 13 && |"anschrift"| == 9;
    PairsApart(FIELD_PATHS[f], decoration);
  }

  /** The shipped field table meets both conditions, so its guard never fires. */
  lemma {:induction false} ShippedTableIsPrefixFree()
    ensures PrefixFree(FIELD_PATHS)
    ensures forall f | f in FIELD_PATHS :: !(META_PATH <= FIELD_PATHS[f])
  {
    hide FIELD_PATHS, PERSON_PATHS, ANTRAG_FIELDS, Apart;
    forall f, g | f in FIELD_PATHS && g in FIELD_PATHS && f != g
      ensures Apart(FIELD_PATHS[f], FIELD_PATHS[g])
    {
      ShippedPathsApart(f, g);
    }
    forall f | f in FIELD_PATHS
      ensures FIELD_PATHS[f] != [] && !(META_PATH <= FIELD_PATHS[f])
    {
      FieldPath(f);
      ShippedPathsAvoidDecorations(f, 0);
    }
    forall f, i | f in FIELD_PATHS && 0 <= i < |DECORATIVE_PATHS|
      ensures Apart(FIELD_PATHS[f], DECORATIVE_PATHS[i])
    {
      ShippedPathsAvoidDecorations(f, i);
    }
  }

  /** Every fact set over the shipped fields renders, and survives every surface variation. */
  lemma {:induction false} ShippedSurfaceIsSafe(facts: seq<Fact>, address: Json, s: Surface, show: Json -> string)
    requires DistinctFields(facts) && WellFormed(address)
    requires forall f | f in facts :: f.field in FIELD_PATHS
    requires DrawsPaddings(s.pads) && DrawsPermutations(s.orders)
    ensures RenderedIsVaried(facts, FIELD_PATHS, address, s, show)
  {
    hide *;
    ShippedTableIsPrefixFree();
    GuardSilentIff(FIELD_PATHS, address, s, show);
  }
}
