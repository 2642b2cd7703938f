/** Nested submission objects: reading and writing dotted paths (corpus/generator/render.py),
    padding and key shuffling (corpus/generator/paraphrase.py).

    An object is an association list with unique keys, so that reordering it is visible. */
module Payload {
  import opened Predicates
  import opened Sequences
  import opened Wrappers

  datatype Json =
    | JNull
    | JBool(b: bool)
    | JNum(n: real)
    | JStr(s: string)
    | JList(items: seq<Json>)
    | JObj(members: seq<Member>)

  datatype Member = Member(key: string, value: Json)

  /** A dotted path, split at its dots. */
  type Path = seq<string>

  datatype Collision = Collision(path: Path)

  predicate UniqueKeys(members: seq<Member>) {
    forall i, j | 0 <= i < j < |members| :: members[i].key != members[j].key
  }

  predicate WellFormed(j: Json) {
    match j
    case JObj(members) => UniqueKeys(members) && forall i | 0 <= i < |members| :: WellFormed(members[i].value)
    case JList(items) => forall i | 0 <= i < |items| :: WellFormed(items[i])
    case _ => true
  }

  // ----- one object -----

  function Find(members: seq<Member>, key: string): (r: Option<Json>)
    ensures r.Some? ==> exists i | 0 <= i < |members| :: members[i] == Member(key, r.value)
    ensures r.None? <==> forall i | 0 <= i < |members| :: members[i].key != key
  {
    if members == [] then None
    else if members[0].key == key then Some(members[0].value)
    else Find(members[1..], key)
  }

  /** Sets a key in place, or appends it. */
  function Put(members: seq<Member>, key: string, value: Json): seq<Member> {
    if members == [] then [Member(key, value)]
    else if members[0].key == key then [Member(key, value)] + members[1..]
    else [members[0]] + Put(members[1..], key, value)
  }

  lemma {:induction false} FindPut(members: seq<Member>, key: string, value: Json, other: string)
    ensures Find(Put(members, key, value), other) == if other == key then Some(value) else Find(members, other)
  {
    if members != [] && members[0].key != key {
      FindPut(members[1..], key, value, other);
    }
  }

  lemma {:induction false} PutWellFormed(members: seq<Member>, key: string, value: Json)
    requires WellFormed(JObj(members)) && WellFormed(value)
    ensures WellFormed(JObj(Put(members, key, value)))
    ensures forall i | 0 <= i < |Put(members, key, value)| ::
              Put(members, key, value)[i].key == key || exists k | 0 <= k < |members| :: members[k].key == Put(members, key, value)[i].key
  {
    if members != [] && members[0].key != key {
      PutWellFormed(members[1..], key, value);
    }
  }

  lemma {:induction false} FindUnique(members: seq<Member>, i: nat)
    requires UniqueKeys(members) && i < |members|
    ensures Find(members, members[i].key) == Some(members[i].value)
  {
    if i > 0 {
      FindUnique(members[1..], i - 1);
    }
  }

  // ----- paths -----

  /** The value at a path, if every step exists. */
  function Resolve(j: Json, path: Path): Option<Json> {
    if path == [] then Some(j)
    else if !j.JObj? then None
    else
      match Find(j.members, path[0])
      case None => None
      case Some(child) => Resolve(child, path[1..])
  }

  /** The source's walk: one step per segment. */
  method ResolveWalk(payload: Json, path: Path) returns (r: Option<Json>)
    ensures r == Resolve(payload, path)
  {
    var current := payload;
    for i := 0 to |path|
      invariant Resolve(payload, path) == Resolve(current, path[i..])
    {
      if !current.JObj? {
        return None;
      }
      var child := Find(current.members, path[i]);
      if child.None? {
        return None;
      }
      assert path[i..][1..] == path[i+1..];
      current := child.value;
    }
    assert path[|path|..] == [];
    return Some(current);
  }

  /** Writes a value at a path, creating the objects on the way. */
  function SetPath(members: seq<Member>, path: Path, value: Json): Result<seq<Member>, Collision>
    requires path != []
    decreases |path|
  {
    if |path| == 1 then Ok(Put(members, path[0], value))
    else
      var child := Find(members, path[0]);
      if child.Some? && !child.value.JObj? then Err(Collision(path))
      else
        match SetPath(if child.Some? then child.value.members else [], path[1..], value)
        case Err(_) => Err(Collision(path))
        case Ok(below) => Ok(Put(members, path[0], JObj(below)))
  }

  /** Neither path leads through the other. */
  predicate Apart(p: Path, q: Path) {
    !(p <= q) && !(q <= p)
  }

  /** What is written is what is read. */
  lemma {:induction false} SetThenGet(members: seq<Member>, path: Path, value: Json)
    requires path != [] && SetPath(members, path, value).Ok?
    ensures Resolve(JObj(SetPath(members, path, value).value), path) == Some(value)
    decreases |path|
  {
    var child := Find(members, path[0]);
    if |path| == 1 {
      FindPut(members, path[0], value, path[0]);
      assert path[1..] == [];
    } else {
      var inner := if child.Some? then child.value.members else [];
      SetThenGet(inner, path[1..], value);
      FindPut(members, path[0], JObj(SetPath(inner, path[1..], value).value), path[0]);
    }
  }

  /** Every other path reads what it read before. */
  lemma {:induction false} SetLeavesOthers(members: seq<Member>, path: Path, value: Json, other: Path)
    requires path != [] && SetPath(members, path, value).Ok? && Apart(path, other)
    ensures Resolve(JObj(SetPath(members, path, value).value), other) == Resolve(JObj(members), other)
    decreases |path|
  {
    assert other != [];
    if |path| == 1 {
      FindPut(members, path[0], value, other[0]);
      assert path[0] == other[0] ==> path <= other;
    } else {
      var child := Find(members, path[0]);
      var inner := if child.Some? then child.value.members else [];
      var below := SetPath(inner, path[1..], value).value;
      FindPut(members, path[0], JObj(below), other[0]);
      if other[0] == path[0] {
        assert path == [path[0]] + path[1..] && other == [other[0]] + other[1..];
        SetLeavesOthers(inner, path[1..], value, other[1..]);
        assert other[1..] != [];
      }
    }
  }

  /** The way to a written value consists of objects. */
  lemma {:induction false} SetMakesObjects(members: seq<Member>, path: Path, value: Json, before: Path)
    requires path != [] && SetPath(members, path, value).Ok? && before < path
    ensures Resolve(JObj(SetPath(members, path, value).value), before).Some?
    ensures Resolve(JObj(SetPath(members, path, value).value), before).value.JObj?
    decreases |path|
  {
    if before != [] {
      var child := Find(members, path[0]);
      var inner := if child.Some? then child.value.members else [];
      FindPut(members, path[0], JObj(SetPath(inner, path[1..], value).value), path[0]);
      assert before[1..] < path[1..];
      SetMakesObjects(inner, path[1..], value, before[1..]);
    }
  }

  /** Nothing on the way to `path` is anything but an object. */
  ghost predicate Passable(j: Json, path: Path) {
    forall k | 0 <= k < |path| :: Resolve(j, path[..k]).Some? ==> Resolve(j, path[..k]).value.JObj?
  }

  /** Writing succeeds exactly when the way is free. */
  lemma {:induction false} SetSucceedsIff(members: seq<Member>, path: Path, value: Json)
    requires path != []
    ensures SetPath(members, path, value).Ok? <==> Passable(JObj(members), path)
    decreases |path|
  {
    var j := JObj(members);
    if |path| == 1 {
      assert path[..0] == [];
    } else {
      var child := Find(members, path[0]);
      assert path[..1][0] == path[0] && path[..1][1..] == [];
      assert Resolve(j, path[..1]) == child;
      if child.Some? && child.value.JObj? {
        SetSucceedsIff(child.value.members, path[1..], value);
        PassableBelow(members, path, child.value);
      } else if child.None? {
        SetSucceedsIff([], path[1..], value);
        assert Passable(JObj([]), path[1..]);
        assert Passable(j, path);
      }
    }
  }

  lemma {:induction false} PassableBelow(members: seq<Member>, path: Path, child: Json)
    requires |path| > 1 && Find(members, path[0]) == Some(child) && child.JObj?
    ensures Passable(JObj(members), path) <==> Passable(child, path[1..])
  {
    var j := JObj(members);
    forall k | 0 < k < |path|
      ensures Resolve(j, path[..k]) == Resolve(child, path[1..][..k-1])
    {
      assert path[..k][0] == path[0] && path[..k][1..] == path[1..][..k-1];
    }
    if Passable(j, path) {
      forall k | 0 <= k < |path[1..]|
        ensures Resolve(child, path[1..][..k]).Some? ==> Resolve(child, path[1..][..k]).value.JObj?
      {
        assert Resolve(j, path[..k+1]) == Resolve(child, path[1..][..k]);
      }
    }
    if Passable(child, path[1..]) {
      forall k | 0 <= k < |path|
        ensures Resolve(j, path[..k]).Some? ==> Resolve(j, path[..k]).value.JObj?
      {
        if k > 0 {
          assert Resolve(j, path[..k]) == Resolve(child, path[1..][..k-1]);
        }
      }
    }
  }

  lemma {:induction false} SetWellFormed(members: seq<Member>, path: Path, value: Json)
    requires path != [] && SetPath(members, path, value).Ok?
    requires WellFormed(JObj(members)) && WellFormed(value)
    ensures WellFormed(JObj(SetPath(members, path, value).value))
    decreases |path|
  {
    if |path| == 1 {
      PutWellFormed(members, path[0], value);
    } else {
      var child := Find(members, path[0]);
      var inner := if child.Some? then child.value.members else [];
      SetWellFormed(inner, path[1..], value);
      PutWellFormed(members, path[0], JObj(SetPath(inner, path[1..], value).value));
    }
  }

  // ----- white space -----

  /** The characters Python's `strip` removes. */
  predicate IsSpace(c: char) {
    var n := c as int;
    || 9 <= n <= 13 || 28 <= n <= 32 || n == 0x85 || n == 0xA0 || n == 0x1680 || 0x2000 <= n <= 0x200A
    || n == 0x2028 || n == 0x2029 || n == 0x202F || n == 0x205F || n == 0x3000
  }

  /** Among the ASCII characters: the blank, the five controls from tab to carriage return, and the four
      separators. */
  lemma {:induction false} AsciiSpaces(c: char)
    requires c as int < 128
    ensures IsSpace(c) <==> c in {' ', '\t', '\n', '\r', 11 as char, 12 as char, 28 as char, 29 as char, 30 as char, 31 as char}
  {
  }

  predicate Blank(s: string) {
    forall i | 0 <= i < |s| :: IsSpace(s[i])
  }

  function StripLeft(s: string): string {
    if s != [] && IsSpace(s[0]) then StripLeft(s[1..]) else s
  }

  function StripRight(s: string): string {
    if s != [] && IsSpace(s[|s|-1]) then StripRight(s[..|s|-1]) else s
  }

  function Strip(s: string): string {
    StripRight(StripLeft(s))
  }

  lemma {:induction false} StripLeftPadded(pre: string, s: string)
    requires Blank(pre)
    ensures StripLeft(pre + s) == StripLeft(s)
  {
    if pre == [] {
      assert pre + s == s;
    } else {
      assert (pre + s)[1..] == pre[1..] + s;
      StripLeftPadded(pre[1..], s);
    }
  }

  lemma {:induction false} StripRightPadded(s: string, post: string)
    requires Blank(post)
    ensures StripRight(s + post) == StripRight(s)
  {
    if post == [] {
      assert s + post == s;
    } else {
      assert (s + post)[..|s + post| - 1] == s + post[..|post|-1];
      StripRightPadded(s, post[..|post|-1]);
    }
  }

  lemma {:induction false} StripLeftBefore(s: string, post: string)
    requires Blank(post)
    ensures Blank(s) ==> StripLeft(s + post) == [] == StripLeft(s)
    ensures !Blank(s) ==> StripLeft(s + post) == StripLeft(s) + post
  {
    if s == [] {
      StripLeftPadded(post, []);
      assert s + post == post + [];
    } else {
      assert (s + post)[1..] == s[1..] + post;
      assert s == [s[0]] + s[1..];
      StripLeftBefore(s[1..], post);
      assert IsSpace(s[0]) ==> (Blank(s) <==> Blank(s[1..]));
    }
  }

  lemma {:induction false} StripLeftRemoves(s: string) returns (pre: string)
    ensures Blank(pre) && s == pre + StripLeft(s)
    ensures StripLeft(s) != [] ==> !IsSpace(StripLeft(s)[0])
  {
    hide IsSpace;
    if s != [] && IsSpace(s[0]) {
      var rest := StripLeftRemoves(s[1..]);
      pre := [s[0]] + rest;
      ConcatAssociates([s[0]], rest, StripLeft(s));
      assert s == [s[0]] + s[1..];
    } else {
      pre := [];
    }
  }

  lemma {:induction false} StripRightRemoves(s: string) returns (post: string)
    ensures Blank(post) && s == StripRight(s) + post
    ensures StripRight(s) != [] ==> !IsSpace(StripRight(s)[|StripRight(s)|-1])
  {
    hide IsSpace;
    if s != [] && IsSpace(s[|s|-1]) {
      var rest := StripRightRemoves(s[..|s|-1]);
      post := rest + [s[|s|-1]];
      ConcatAssociates(StripRight(s), rest, [s[|s|-1]]);
      assert s == s[..|s|-1] + [s[|s|-1]];
    } else {
      post := [];
    }
  }

  /** Stripping takes white space off both ends, all of it and nothing else. */
  lemma {:induction false} StripIs(s: string) returns (pre: string, post: string)
    ensures Blank(pre) && Blank(post) && s == pre + Strip(s) + post
    ensures Strip(s) != [] ==> !IsSpace(Strip(s)[0]) && !IsSpace(Strip(s)[|Strip(s)|-1])
  {
    hide IsSpace, StripLeft, StripRight;
    pre := StripLeftRemoves(s);
    post := StripRightRemoves(StripLeft(s));
    if Strip(s) != [] {
      assert StripLeft(s)[0] == Strip(s)[0];
    }
  }

  /** Padding a string with white space does not change what is left of it after stripping. */
  lemma {:induction false} StripPadded(pre: string, s: string, post: string)
    requires Blank(pre) && Blank(post)
    ensures Strip(pre + s + post) == Strip(s)
  {
    assert pre + s + post == pre + (s + post);
    StripLeftPadded(pre, s + post);
    StripLeftBefore(s, post);
    StripRightPadded(StripLeft(s), post);
  }

  // ----- padding -----

  const PADDINGS: seq<string> := [" ", "  ", " \t"]

  datatype Padding = Padding(before: string, after: string)

  /** What the random source gives the string at each place, if anything. */
  type PadDraw = seq<nat> -> Option<Padding>

  ghost predicate DrawsPaddings(draw: PadDraw) {
    forall at :: draw(at).Some? ==> draw(at).value.before in PADDINGS && draw(at).value.after in PADDINGS
  }

  function Pad(j: Json, at: seq<nat>, draw: PadDraw): Json {
    match j
    case JStr(s) => JStr(if draw(at).Some? then draw(at).value.before + s + draw(at).value.after else s)
    case JObj(members) =>
      JObj(seq(|members|, i requires 0 <= i < |members| => Member(members[i].key, Pad(members[i].value, at + [i], draw))))
    case JList(items) => JList(seq(|items|, i requires 0 <= i < |items| => Pad(items[i], at + [i], draw)))
    case _ => j
  }

  /** A string with a draw gets white space on both sides, every other leaf stays, and a container keeps its
      keys and its order. */
  lemma {:induction false} PadIs(j: Json, at: seq<nat>, draw: PadDraw, i: nat)
    ensures j.JStr? && draw(at).None? ==> Pad(j, at, draw) == j
    ensures j.JStr? && draw(at).Some? ==> Pad(j, at, draw) == JStr(draw(at).value.before + j.s + draw(at).value.after)
    ensures j.JNull? || j.JBool? || j.JNum? ==> Pad(j, at, draw) == j
    ensures j.JObj? ==> Pad(j, at, draw).JObj? && |Pad(j, at, draw).members| == |j.members|
    ensures j.JObj? && i < |j.members| ==>
              Pad(j, at, draw).members[i] == Member(j.members[i].key, Pad(j.members[i].value, at + [i], draw))
    ensures j.JList? ==> Pad(j, at, draw).JList? && |Pad(j, at, draw).items| == |j.items|
    ensures j.JList? && i < |j.items| ==> Pad(j, at, draw).items[i] == Pad(j.items[i], at + [i], draw)
  {
  }

  lemma {:induction false} PadWellFormed(j: Json, at: seq<nat>, draw: PadDraw)
    requires WellFormed(j)
    ensures WellFormed(Pad(j, at, draw))
  {
    match j
    case JObj(members) =>
      forall i | 0 <= i < |members| { PadWellFormed(members[i].value, at + [i], draw); }
    case JList(items) =>
      forall i | 0 <= i < |items| { PadWellFormed(items[i], at + [i], draw); }
    case _ =>
  }

  /** The padded value at a path is the padded value of the path. */
  lemma {:induction false} ResolvePad(j: Json, at: seq<nat>, draw: PadDraw, path: Path) returns (there: seq<nat>)
    requires WellFormed(j)
    ensures Resolve(Pad(j, at, draw), path) ==
            if Resolve(j, path).Some? then Some(Pad(Resolve(j, path).value, there, draw)) else None
    decreases |path|
  {
    there := at;
    if path != [] && j.JObj? {
      var padded := Pad(j, at, draw);
      var child := Find(j.members, path[0]);
      if child.Some? {
        var i :| 0 <= i < |j.members| && j.members[i] == Member(path[0], child.value);
        PadWellFormed(j, at, draw);
        FindUnique(padded.members, i);
        there := ResolvePad(child.value, at + [i], draw, path[1..]);
      }
    }
  }

  // ----- shuffling -----

  /** The order the random source puts an object's keys into, by place and size. */
  type OrderDraw = (seq<nat>, nat) -> seq<nat>

  predicate IsPermutation(order: seq<nat>, n: nat) {
    && |order| == n
    && (forall i | 0 <= i < n :: order[i] < n)
    && (forall i, j | 0 <= i < j < n :: order[i] != order[j])
    && (forall k: nat | k < n :: k in order)
  }

  ghost predicate DrawsPermutations(draw: OrderDraw) {
    forall at, n :: IsPermutation(draw(at, n), n)
  }

  ghost function Shuffle(j: Json, at: seq<nat>, draw: OrderDraw): Json
    requires DrawsPermutations(draw)
  {
    match j
    case JObj(members) =>
      var order := draw(at, |members|);
      assert IsPermutation(order, |members|);
      JObj(seq(|members|, i requires 0 <= i < |members| =>
        Member(members[order[i]].key, Shuffle(members[order[i]].value, at + [order[i]], draw))))
    case JList(items) => JList(seq(|items|, i requires 0 <= i < |items| => Shuffle(items[i], at + [i], draw)))
    case _ => j
  }

  /** The shuffled object holds the same keys, each once, in the order that was drawn. */
  lemma {:induction false} ShuffleIsPermutation(members: seq<Member>, at: seq<nat>, draw: OrderDraw)
    requires DrawsPermutations(draw) && UniqueKeys(members)
    ensures var r := Shuffle(JObj(members), at, draw).members;
      && |r| == |members| && UniqueKeys(r)
      && |draw(at, |members|)| == |members|
      && (forall i | 0 <= i < |r| :: draw(at, |members|)[i] < |members| && r[i].key == members[draw(at, |members|)[i]].key)
      && forall k | 0 <= k < |members| :: exists i | 0 <= i < |r| ::
           r[i] == Member(members[k].key, Shuffle(members[k].value, at + [k], draw))
  {
    var order, r := draw(at, |members|), Shuffle(JObj(members), at, draw).members;
    assert IsPermutation(order, |members|);
    assert forall i | 0 <= i < |r| :: r[i] == Member(members[order[i]].key, Shuffle(members[order[i]].value, at + [order[i]], draw));
    forall i, j | 0 <= i < j < |r|
      ensures r[i].key != r[j].key
    {
      var a, b := order[i], order[j];
      assert r[i].key == members[a].key && r[j].key == members[b].key;
      assert if a < b then members[a].key != members[b].key else members[b].key != members[a].key;
    }
    forall k | 0 <= k < |members|
      ensures exists i | 0 <= i < |r| :: r[i] == Member(members[k].key, Shuffle(members[k].value, at + [k], draw))
    {
      assert k in order;
      var i :| 0 <= i < |members| && order[i] == k;
      assert r[i] == Member(members[k].key, Shuffle(members[k].value, at + [k], draw));
    }
  }

  /** Paths are read by key, so the shuffled value at a path is the shuffled value of the path. */
  lemma {:induction false} ResolveShuffle(j: Json, at: seq<nat>, draw: OrderDraw, path: Path) returns (there: seq<nat>)
    requires WellFormed(j) && DrawsPermutations(draw)
    ensures Resolve(Shuffle(j, at, draw), path) ==
            if Resolve(j, path).Some? then Some(Shuffle(Resolve(j, path).value, there, draw)) else None
    decreases |path|
  {
    there := at;
    if path != [] && j.JObj? {
      var k := FindShuffled(j.members, at, draw, path[0]);
      var child := Find(j.members, path[0]);
      if child.Some? {
        var i :| 0 <= i < |j.members| && j.members[i] == Member(path[0], child.value);
        there := ResolveShuffle(child.value, at + [k], draw, path[1..]);
      }
    }
  }

  lemma {:induction false} FindShuffled(members: seq<Member>, at: seq<nat>, draw: OrderDraw, key: string) returns (k: nat)
    requires UniqueKeys(members) && DrawsPermutations(draw)
    ensures Find(Shuffle(JObj(members), at, draw).members, key) ==
            if Find(members, key).Some? then Some(Shuffle(Find(members, key).value, at + [k], draw)) else None
  {
    var order, r := draw(at, |members|), Shuffle(JObj(members), at, draw).members;
    ShuffleIsPermutation(members, at, draw);
    assert IsPermutation(order, |members|);
    k := 0;
    if Find(members, key).Some? {
      k :| 0 <= k < |members| && members[k] == Member(key, Find(members, key).value);
      var i :| 0 <= i < |r| && r[i] == Member(key, Shuffle(members[k].value, at + [k], draw));
      FindUnique(r, i);
    } else {
      forall i | 0 <= i < |r|
        ensures r[i].key != key
      {
        assert r[i].key == members[order[i]].key;
      }
    }
  }

  /** Padding and shuffling keep the stripped text of every string, and what is absent absent. */
  lemma {:induction false} SurfaceKeepsText(j: Json, pads: PadDraw, orders: OrderDraw, path: Path)
    requires WellFormed(j) && DrawsPaddings(pads) && DrawsPermutations(orders)
    requires Resolve(j, path).Some? ==> Resolve(j, path).value.JStr?
    ensures var after := Resolve(Shuffle(Pad(j, [], pads), [], orders), path);
      && (after.Some? <==> Resolve(j, path).Some?)
      && (after.Some? ==> after.value.JStr? && Strip(after.value.s) == Strip(Resolve(j, path).value.s))
  {
    hide Resolve, WellFormed, Strip, DrawsPermutations, Pad, Shuffle, DrawsPaddings;
    PadWellFormed(j, [], pads);
    var there := ResolvePad(j, [], pads, path);
    var there' := ResolveShuffle(Pad(j, [], pads), [], orders, path);
    if Resolve(j, path).Some? {
      var leaf := Resolve(j, path).value;
      PaddedText(leaf, there, pads);
      ShuffledText(Pad(leaf, there, pads), there', orders);
    }
  }

  lemma {:induction false} PaddedText(leaf: Json, at: seq<nat>, draw: PadDraw)
    requires leaf.JStr? && DrawsPaddings(draw)
    ensures Pad(leaf, at, draw).JStr? && Strip(Pad(leaf, at, draw).s) == Strip(leaf.s)
  {
    hide Strip;
    if draw(at).Some? {
      PaddingsAreBlank(draw, at);
      StripPadded(draw(at).value.before, leaf.s, draw(at).value.after);
    }
  }

  lemma {:induction false} PaddingsAreBlank(draw: PadDraw, at: seq<nat>)
    requires DrawsPaddings(draw) && draw(at).Some?
    ensures Blank(draw(at).value.before) && Blank(draw(at).value.after)
  {
    assert forall p | p in PADDINGS :: Blank(p);
  }

  lemma {:induction false} ShuffledText(leaf: Json, at: seq<nat>, draw: OrderDraw)
    requires leaf.JStr? && DrawsPermutations(draw)
    ensures Shuffle(leaf, at, draw) == leaf
  {
  }
}
