/** The one predicate primitive (engine/predicate.py): comparisons that never raise, the small
    AST over them, and its parser. */
module Predicates {
  import opened Wrappers

  /** What YAML, JSON and the evidence plane put into a field or a literal. */
  datatype Value =
    | Null
    | Bool(b: bool)
    | Num(n: real)
    | Str(s: string)
    | List(items: seq<Value>)
    | Dict(entries: map<string, Value>)

  datatype Op = Eq | Ne | Gt | Ge | Lt | Le | In

  /** Contract operators and the two engine operators over free text. */
  datatype AnyOp = Schema(op: Op) | Contains | Matches

  /** Case folding and regular expressions, of which only the shape matters here. */
  datatype TextEngine = TextEngine(fold: string -> string, compiles: string -> bool,
                                   search: (string, string) -> bool)

  // ----- comparisons -----

  predicate Occurs(needle: string, hay: string) {
    needle <= hay || (hay != [] && Occurs(needle, hay[1..]))
  }

  /** Python's `==`: inside containers a boolean still equals the number 0 or 1. */
  predicate PyEqual(l: Value, r: Value) {
    match (l, r)
    case (Bool(a), Num(x)) => x == if a then 1.0 else 0.0
    case (Num(x), Bool(a)) => x == if a then 1.0 else 0.0
    case (List(a), List(b)) => |a| == |b| && forall i | 0 <= i < |a| :: PyEqual(a[i], b[i])
    case (Dict(a), Dict(b)) => a.Keys == b.Keys && forall k | k in a.Keys :: PyEqual(a[k], b[k])
    case _ => l == r
  }

  /** A boolean only ever equals a boolean. */
  predicate Equal(l: Value, r: Value) {
    if l.Bool? || r.Bool? then l.Bool? && r.Bool? && l.b == r.b
    else if l.Num? && r.Num? then l.n == r.n
    else PyEqual(l, r)
  }

  predicate Contained(l: Value, r: Value) {
    if r.List? then exists i | 0 <= i < |r.items| :: Equal(l, r.items[i])
    else l.Str? && r.Str? && Occurs(l.s, r.s)
  }

  predicate CompareText(op: AnyOp, l: Value, r: Value, engine: TextEngine)
    requires !op.Schema?
  {
    && l.Str? && r.Str?
    && if op.Contains? then Occurs(engine.fold(r.s), engine.fold(l.s))
       else engine.compiles(r.s) && engine.search(r.s, l.s)
  }

  /** The contract operators; ordering needs numbers on both sides. */
  predicate CompareOp(op: Op, l: Value, r: Value) {
    match op
    case Eq => Equal(l, r)
    case Ne => !Equal(l, r)
    case In => Contained(l, r)
    case Gt => l.Num? && r.Num? && l.n > r.n
    case Ge => l.Num? && r.Num? && l.n >= r.n
    case Lt => l.Num? && r.Num? && l.n < r.n
    case Le => l.Num? && r.Num? && l.n <= r.n
  }

  predicate Compare(op: AnyOp, l: Value, r: Value, engine: TextEngine) {
    match op
    case Schema(op) => CompareOp(op, l, r)
    case _ => CompareText(op, l, r, engine)
  }

  lemma {:induction false} PyEqualReflexive(v: Value)
    ensures PyEqual(v, v)
  {
    match v
    case List(items) =>
      forall i | 0 <= i < |items| { PyEqualReflexive(items[i]); }
    case Dict(entries) =>
      forall k | k in entries.Keys { PyEqualReflexive(entries[k]); }
    case _ =>
  }

  lemma {:induction false} EqualReflexive(v: Value)
    ensures Equal(v, v)
  {
    PyEqualReflexive(v);
  }

  /** `eq` and `ne` keep booleans and numbers apart for every field value of either kind, but
      a list literal is compared by `==`, which does not. */
  lemma {:induction false} BooleansAndNumbers(b: bool, x: real)
    ensures !Equal(Bool(b), Num(x)) && !Equal(Num(x), Bool(b))
    ensures Equal(List([Bool(b)]), List([Num(x)])) <==> x == if b then 1.0 else 0.0
    ensures !Contained(Bool(b), List([Num(x)]))
  {
    assert PyEqual(List([Bool(b)]), List([Num(x)])) <==> PyEqual([Bool(b)][0], [Num(x)][0]);
  }

  /** Somewhere in the value stands a boolean, a 0 or a 1. */
  predicate HasBooleanLike(v: Value) {
    match v
    case Bool(_) => true
    case Num(x) => x == 0.0 || x == 1.0
    case List(items) => exists i | 0 <= i < |items| :: HasBooleanLike(items[i])
    case Dict(entries) => exists k | k in entries.Keys :: HasBooleanLike(entries[k])
    case _ => false
  }

  lemma {:induction false} PyEqualIsExact(l: Value, r: Value)
    requires !HasBooleanLike(l)
    ensures PyEqual(l, r) <==> l == r
  {
    match (l, r)
    case (List(a), List(b)) =>
      forall i | 0 <= i < |a| && i < |b| { PyEqualIsExact(a[i], b[i]); }
      assert a == b <==> |a| == |b| && forall i | 0 <= i < |a| :: a[i] == b[i];
    case (Dict(a), Dict(b)) =>
      forall k | k in a.Keys && k in b.Keys { PyEqualIsExact(a[k], b[k]); }
      assert a == b <==> a.Keys == b.Keys && forall k | k in a.Keys :: a[k] == b[k];
    case _ =>
  }

  /** Another value, of the same shape if the value is a container, that `==` cannot tell from it. */
  lemma {:induction false} Twin(v: Value) returns (r: Value)
    requires HasBooleanLike(v)
    ensures PyEqual(v, r) && r != v
    ensures (v.List? ==> r.List?) && (v.Dict? ==> r.Dict?)
  {
    match v
    case Bool(b) => r := Num(if b then 1.0 else 0.0);
    case Num(x) => r := Bool(x == 1.0);
    case List(items) =>
      var i :| 0 <= i < |items| && HasBooleanLike(items[i]);
      var item := Twin(items[i]);
      r := List(items[i := item]);
      assert r.items[i] != items[i];
      forall j | 0 <= j < |items| { PyEqualReflexive(items[j]); }
    case Dict(entries) =>
      var k :| k in entries.Keys && HasBooleanLike(entries[k]);
      var entry := Twin(entries[k]);
      r := Dict(entries[k := entry]);
      assert r.entries.Keys == entries.Keys && r.entries[k] != entries[k];
      forall j | j in entries.Keys { PyEqualReflexive(entries[j]); }
  }

  /** `eq` is equality proper, a boolean only ever equal to a boolean, for exactly those values that are
      no container or hold no boolean, 0 or 1. */
  lemma {:induction false} EqualIsExactIff(l: Value)
    ensures (forall r :: Equal(l, r) <==> l == r) <==> !((l.List? || l.Dict?) && HasBooleanLike(l))
  {
    if (l.List? || l.Dict?) && HasBooleanLike(l) {
      var r := Twin(l);
      assert Equal(l, r) && l != r;
    } else {
      forall r
        ensures Equal(l, r) <==> l == r
      {
        if !HasBooleanLike(l) {
          PyEqualIsExact(l, r);
        }
      }
    }
  }

  // ----- the AST -----

  type Context = map<string, Value>

  datatype Node =
    | Comparison(field: string, op: AnyOp, value: Value)
    | AllOf(nodes: seq<Node>)
    | AnyOf(nodes: seq<Node>)

  /** Absent and None are the same thing. */
  function Get(ctx: Context, field: string): Value {
    if field in ctx then ctx[field] else Null
  }

  predicate Evaluate(node: Node, ctx: Context, engine: TextEngine) {
    match node
    case Comparison(field, op, value) =>
      Get(ctx, field) != Null && Compare(op, Get(ctx, field), value, engine)
    case AllOf(nodes) => forall i | 0 <= i < |nodes| :: Evaluate(nodes[i], ctx, engine)
    case AnyOf(nodes) => exists i | 0 <= i < |nodes| :: Evaluate(nodes[i], ctx, engine)
  }

  // ----- what the operators and the nodes say -----

  /** Between two numbers exactly one of below, equal and above holds, the weak orders are what they are
      made of, and `ne` is always the negation of `eq`; without two numbers nothing is ordered. */
  lemma {:induction false} OperatorsOrder(l: Value, r: Value)
    ensures CompareOp(Ne, l, r) <==> !CompareOp(Eq, l, r)
    ensures CompareOp(Gt, l, r) <==> CompareOp(Lt, r, l)
    ensures CompareOp(Ge, l, r) <==> CompareOp(Le, r, l)
    ensures l.Num? && r.Num? ==> (CompareOp(Gt, l, r) <==> l.n - r.n > 0.0)
    ensures l.Num? && r.Num? ==> (CompareOp(Ge, l, r) <==> CompareOp(Gt, l, r) || CompareOp(Eq, l, r))
    ensures l.Num? && r.Num? ==> (CompareOp(Eq, l, r) <==> !CompareOp(Gt, l, r) && !CompareOp(Gt, r, l))
    ensures !(l.Num? && r.Num?) ==> forall op | op in {Gt, Ge, Lt, Le} :: !CompareOp(op, l, r)
  {
    hide PyEqual, Contained;
  }

  /** A substring test. */
  lemma {:induction false} OccursIff(needle: string, hay: string)
    ensures Occurs(needle, hay) <==> exists i | 0 <= i <= |hay| :: needle <= hay[i..]
  {
    assert hay[0..] == hay;
    if hay != [] {
      OccursIff(needle, hay[1..]);
      assert forall i | 0 <= i < |hay| :: hay[1..][i..] == hay[i+1..];
    }
    if i :| 0 <= i <= |hay| && needle <= hay[i..] {
      if i > 0 {
        assert hay[1..][i-1..] == hay[i..];
      }
    }
    if hay != [] && Occurs(needle, hay[1..]) {
      var i :| 0 <= i <= |hay[1..]| && needle <= hay[1..][i..];
      assert hay[1..][i..] == hay[i+1..];
    }
  }

  /** `in` tests the elements of a list one by one with `eq`, and a text for a substring. */
  lemma {:induction false} InMeans(l: Value, items: seq<Value>, last: Value, r: Value)
    ensures !CompareOp(In, l, List([]))
    ensures CompareOp(In, l, List(items + [last])) <==> CompareOp(In, l, List(items)) || CompareOp(Eq, l, last)
    ensures !r.List? ==>
              (CompareOp(In, l, r) <==> l.Str? && r.Str? && exists i | 0 <= i <= |r.s| :: l.s <= r.s[i..])
  {
    hide Equal;
    var all := items + [last];
    if CompareOp(In, l, List(items)) {
      var i :| 0 <= i < |items| && Equal(l, items[i]);
      assert all[i] == items[i];
    }
    assert all[|items|] == last;
    if l.Str? && r.Str? {
      OccursIff(l.s, r.s);
    }
  }

  /** `contains` looks for the literal in the field, `matches` searches the field with the literal. */
  lemma {:induction false} TextOperatorsMean(text: string, literal: string, v: Value, engine: TextEngine)
    ensures Compare(Contains, Str(text), Str(literal), engine) <==>
            exists i | 0 <= i <= |engine.fold(text)| :: engine.fold(literal) <= engine.fold(text)[i..]
    ensures Compare(Matches, Str(text), Str(literal), engine) <==> engine.compiles(literal) && engine.search(literal, text)
    ensures !v.Str? ==> forall op | op in {Contains, Matches} ::
                          !Compare(op, v, Str(literal), engine) && !Compare(op, Str(text), v, engine)
  {
    OccursIff(engine.fold(literal), engine.fold(text));
  }

  /** A leaf puts the field on the left and the literal on the right; nothing holds of an absent field. */
  lemma {:induction false} LeafMeans(field: string, op: AnyOp, value: Value, ctx: Context, engine: TextEngine)
    ensures Get(ctx, field) == Null ==> !Evaluate(Comparison(field, op, value), ctx, engine)
    ensures field in ctx && ctx[field] != Null ==>
              (Evaluate(Comparison(field, op, value), ctx, engine) <==> Compare(op, ctx[field], value, engine))
  {
    hide Compare;
  }

  /** One more child can only make a conjunction false and a disjunction true; the empty conjunction holds
      and the empty disjunction does not. */
  lemma {:induction false} CombinatorsMean(nodes: seq<Node>, last: Node, ctx: Context, engine: TextEngine)
    ensures Evaluate(AllOf([]), ctx, engine) && !Evaluate(AnyOf([]), ctx, engine)
    ensures Evaluate(AllOf(nodes + [last]), ctx, engine) <==> Evaluate(AllOf(nodes), ctx, engine) && Evaluate(last, ctx, engine)
    ensures Evaluate(AnyOf(nodes + [last]), ctx, engine) <==> Evaluate(AnyOf(nodes), ctx, engine) || Evaluate(last, ctx, engine)
  {
    var all := nodes + [last];
    assert all[|nodes|] == last && forall i | 0 <= i < |nodes| :: all[i] == nodes[i];
  }

  /** Everything `less` knows, `more` knows too. */
  ghost predicate KnowsAtLeast(more: Context, less: Context) {
    forall f :: Get(less, f) != Null ==> Get(more, f) == Get(less, f)
  }

  /** Learning a fact never makes a predicate that held stop holding. */
  lemma {:induction false} KnowledgeIsMonotone(node: Node, less: Context, more: Context, engine: TextEngine)
    requires KnowsAtLeast(more, less) && Evaluate(node, less, engine)
    ensures Evaluate(node, more, engine)
  {
    match node
    case Comparison(field, op, value) =>
    case AllOf(nodes) =>
      forall i | 0 <= i < |nodes|
        ensures Evaluate(nodes[i], more, engine)
      {
        KnowledgeIsMonotone(nodes[i], less, more, engine);
      }
    case AnyOf(nodes) =>
      var i :| 0 <= i < |nodes| && Evaluate(nodes[i], less, engine);
      KnowledgeIsMonotone(nodes[i], less, more, engine);
  }

  /** Evaluation reads the context only at the fields of its leaves. */
  lemma {:induction false} EvaluateCongruence(node: Node, ctx: Context, ctx': Context, engine: TextEngine)
    requires forall leaf | leaf in Leaves(node) :: Evaluate(leaf, ctx, engine) == Evaluate(leaf, ctx', engine)
    ensures Evaluate(node, ctx, engine) == Evaluate(node, ctx', engine)
  {
    match node
    case Comparison(_, _, _) =>
      assert node in Leaves(node);
    case AllOf(nodes) =>
      forall i | 0 <= i < |nodes|
        ensures Evaluate(nodes[i], ctx, engine) == Evaluate(nodes[i], ctx', engine)
      {
        LeavesOf(nodes, i);
        EvaluateCongruence(nodes[i], ctx, ctx', engine);
      }
    case AnyOf(nodes) =>
      forall i | 0 <= i < |nodes|
        ensures Evaluate(nodes[i], ctx, engine) == Evaluate(nodes[i], ctx', engine)
      {
        LeavesOf(nodes, i);
        EvaluateCongruence(nodes[i], ctx, ctx', engine);
      }
  }

  /** Every leaf comparison of a predicate, in order. */
  function Leaves(node: Node): (r: seq<Node>)
    ensures forall leaf | leaf in r :: leaf.Comparison?
    decreases node, 0
  {
    if node.Comparison? then [node] else LeavesAll(node.nodes)
  }

  function LeavesAll(nodes: seq<Node>): (r: seq<Node>)
    ensures forall leaf | leaf in r :: leaf.Comparison?
    decreases nodes, 1
  {
    if nodes == [] then [] else Leaves(nodes[0]) + LeavesAll(nodes[1..])
  }

  lemma {:induction false} LeavesOf(nodes: seq<Node>, i: nat)
    requires i < |nodes|
    ensures forall leaf | leaf in Leaves(nodes[i]) :: leaf in LeavesAll(nodes)
  {
    if i > 0 {
      LeavesOf(nodes[1..], i - 1);
    }
  }

  // ----- parsing -----

  datatype ParseError =
    | NotMapping | CombinatorTakesNoOtherKeys | ChildrenNotList | UnknownShape | UnexpectedKeys
    | FieldNotString | OpNotString | UnknownOperator | PatternNotString | PatternBroken

  const ALL_KEY := "all"
  const ANY_KEY := "any"
  const COMPARISON_KEYS: set<string> := {"field", "op", "value"}

  function OpName(op: AnyOp): string {
    match op
    case Schema(Eq) => "eq"
    case Schema(Ne) => "ne"
    case Schema(Gt) => "gt"
    case Schema(Ge) => "ge"
    case Schema(Lt) => "lt"
    case Schema(Le) => "le"
    case Schema(In) => "in"
    case Contains => "contains"
    case Matches => "matches"
  }

  function ParseOp(name: string): (r: Result<AnyOp, ParseError>)
    ensures r.Ok? ==> OpName(r.value) == name
  {
    if name == "eq" then Ok(Schema(Eq))
    else if name == "ne" then Ok(Schema(Ne))
    else if name == "gt" then Ok(Schema(Gt))
    else if name == "ge" then Ok(Schema(Ge))
    else if name == "lt" then Ok(Schema(Lt))
    else if name == "le" then Ok(Schema(Le))
    else if name == "in" then Ok(Schema(In))
    else if name == "contains" then Ok(Contains)
    else if name == "matches" then Ok(Matches)
    else Err(UnknownOperator)
  }

  lemma {:induction false} ParseOpName(op: AnyOp)
    ensures ParseOp(OpName(op)) == Ok(op)
  {
    assert "contains" != "matches" by { assert "contains"[0] != "matches"[0]; }
  }

  function Parse(raw: Value, engine: TextEngine): Result<Node, ParseError>
    decreases raw, 0
  {
    if !raw.Dict? then Err(NotMapping)
    else
      var keys := raw.entries.Keys;
      if ALL_KEY in keys || ANY_KEY in keys then
        if |keys| != 1 then Err(CombinatorTakesNoOtherKeys)
        else
          var key := if ALL_KEY in keys then ALL_KEY else ANY_KEY;
          var children := raw.entries[key];
          if !children.List? then Err(ChildrenNotList)
          else
            match ParseAll(children.items, engine)
            case Err(e) => Err(e)
            case Ok(nodes) => Ok(if key == ALL_KEY then AllOf(nodes) else AnyOf(nodes))
      else ParseComparison(raw.entries, engine)
  }

  function ParseAll(items: seq<Value>, engine: TextEngine): Result<seq<Node>, ParseError>
    decreases items, 1
  {
    if items == [] then Ok([])
    else
      match Parse(items[0], engine)
      case Err(e) => Err(e)
      case Ok(first) =>
        match ParseAll(items[1..], engine)
        case Err(e) => Err(e)
        case Ok(rest) => Ok([first] + rest)
  }

  function ParseComparison(entries: map<string, Value>, engine: TextEngine): Result<Node, ParseError> {
    if !(entries.Keys >= COMPARISON_KEYS) then Err(UnknownShape)
    else if entries.Keys - COMPARISON_KEYS != {} then Err(UnexpectedKeys)
    else if !entries["field"].Str? then Err(FieldNotString)
    else if !entries["op"].Str? then Err(OpNotString)
    else
      match ParseOp(entries["op"].s)
      case Err(e) => Err(e)
      case Ok(op) =>
        if op.Matches? && !entries["value"].Str? then Err(PatternNotString)
        else if op.Matches? && !engine.compiles(entries["value"].s) then Err(PatternBroken)
        else Ok(Comparison(entries["field"].s, op, entries["value"]))
  }

  /** The document form of a node: one of exactly three shapes. */
  function Print(node: Node): Value
    decreases node, 0
  {
    match node
    case Comparison(field, op, value) =>
      Dict(map["field" := Str(field), "op" := Str(OpName(op)), "value" := value])
    case AllOf(nodes) => Dict(map[ALL_KEY := List(PrintAll(nodes))])
    case AnyOf(nodes) => Dict(map[ANY_KEY := List(PrintAll(nodes))])
  }

  function PrintAll(nodes: seq<Node>): (r: seq<Value>)
    ensures |r| == |nodes|
    decreases nodes, 1
  {
    if nodes == [] then [] else [Print(nodes[0])] + PrintAll(nodes[1..])
  }

  /** Every `matches` leaf holds a pattern that compiles. */
  predicate Compilable(node: Node, engine: TextEngine) {
    match node
    case Comparison(_, op, value) => op.Matches? ==> value.Str? && engine.compiles(value.s)
    case AllOf(nodes) => forall i | 0 <= i < |nodes| :: Compilable(nodes[i], engine)
    case AnyOf(nodes) => forall i | 0 <= i < |nodes| :: Compilable(nodes[i], engine)
  }

  lemma {:induction false} KeyFacts()
    ensures ALL_KEY != ANY_KEY && ALL_KEY !in COMPARISON_KEYS && ANY_KEY !in COMPARISON_KEYS
    ensures "field" != "op" && "op" != "value" && "field" != "value"
  {
    assert ALL_KEY[1] != ANY_KEY[1];
    assert ALL_KEY[0] != "field"[0] && ALL_KEY[0] != "op"[0] && ALL_KEY[0] != "value"[0];
    assert ANY_KEY[0] != "field"[0] && ANY_KEY[0] != "op"[0] && ANY_KEY[0] != "value"[0];
    assert "field"[0] != "op"[0] && "op"[0] != "value"[0] && "field"[0] != "value"[0];
  }

  /** Parsing the printed form gives the node back exactly when every pattern compiles. */
  lemma {:induction false} PrintParses(node: Node, engine: TextEngine)
    ensures Compilable(node, engine) ==> Parse(Print(node), engine) == Ok(node)
    ensures !Compilable(node, engine) ==> Parse(Print(node), engine).Err?
    decreases node, 0
  {
    KeyFacts();
    match node
    case Comparison(field, op, value) =>
      ParseOpName(op);
      var entries := map["field" := Str(field), "op" := Str(OpName(op)), "value" := value];
      assert entries.Keys == COMPARISON_KEYS;
    case AllOf(nodes) =>
      assert map[ALL_KEY := List(PrintAll(nodes))].Keys == {ALL_KEY};
      PrintAllParses(nodes, engine);
    case AnyOf(nodes) =>
      assert map[ANY_KEY := List(PrintAll(nodes))].Keys == {ANY_KEY};
      PrintAllParses(nodes, engine);
  }

  ghost predicate AllCompilable(nodes: seq<Node>, engine: TextEngine) {
    forall i | 0 <= i < |nodes| :: Compilable(nodes[i], engine)
  }

  lemma {:induction false} AllCompilableStep(nodes: seq<Node>, engine: TextEngine)
    ensures nodes == [] ==> AllCompilable(nodes, engine)
    ensures nodes != [] ==>
              (AllCompilable(nodes, engine) <==> Compilable(nodes[0], engine) && AllCompilable(nodes[1..], engine))
  {
    hide Compilable;
    if nodes != [] {
      assert forall i | 0 < i < |nodes| :: nodes[i] == nodes[1..][i-1];
    }
  }

  lemma {:induction false} PrintAllParses(nodes: seq<Node>, engine: TextEngine)
    ensures AllCompilable(nodes, engine) ==> ParseAll(PrintAll(nodes), engine) == Ok(nodes)
    ensures !AllCompilable(nodes, engine) ==> ParseAll(PrintAll(nodes), engine).Err?
    decreases nodes, 1
  {
    hide AllCompilable, Compilable, Parse, Print;
    AllCompilableStep(nodes, engine);
    if nodes != [] {
      PrintParses(nodes[0], engine);
      PrintAllParses(nodes[1..], engine);
      assert PrintAll(nodes)[1..] == PrintAll(nodes[1..]);
      assert nodes == [nodes[0]] + nodes[1..];
    }
  }

  /** What parses was the printed form of a node: nothing but the three shapes is accepted. */
  lemma {:induction false} ParsedPrintsBack(raw: Value, engine: TextEngine)
    requires Parse(raw, engine).Ok?
    ensures Print(Parse(raw, engine).value) == raw && Compilable(Parse(raw, engine).value, engine)
    decreases raw, 0
  {
    KeyFacts();
    var entries := raw.entries;
    if ALL_KEY in entries.Keys || ANY_KEY in entries.Keys {
      var key := if ALL_KEY in entries.Keys then ALL_KEY else ANY_KEY;
      ParsedAllPrintBack(entries[key].items, engine);
      SingleKey(entries, key);
    } else {
      assert entries.Keys == COMPARISON_KEYS;
      assert entries == map["field" := entries["field"], "op" := entries["op"], "value" := entries["value"]];
    }
  }

  lemma {:induction false} SingleKey(entries: map<string, Value>, key: string)
    requires |entries.Keys| == 1 && key in entries.Keys
    ensures entries == map[key := entries[key]]
  {
    assert |entries.Keys - {key}| == 0;
    assert entries.Keys == {key};
  }

  lemma {:induction false} ParsedAllPrintBack(items: seq<Value>, engine: TextEngine)
    requires ParseAll(items, engine).Ok?
    ensures PrintAll(ParseAll(items, engine).value) == items
    ensures forall i | 0 <= i < |ParseAll(items, engine).value| :: Compilable(ParseAll(items, engine).value[i], engine)
    decreases items, 1
  {
    if items != [] {
      ParsedPrintsBack(items[0], engine);
      ParsedAllPrintBack(items[1..], engine);
      var first, rest := Parse(items[0], engine).value, ParseAll(items[1..], engine).value;
      assert ([first] + rest)[1..] == rest;
    }
  }

  /** The accepted documents are exactly the printed forms of compilable nodes. */
  lemma {:induction false} ParseAcceptsExactly(raw: Value, engine: TextEngine)
    ensures Parse(raw, engine).Ok? <==> exists node :: Compilable(node, engine) && raw == Print(node)
  {
    if Parse(raw, engine).Ok? {
      ParsedPrintsBack(raw, engine);
    }
    if node :| Compilable(node, engine) && raw == Print(node) {
      PrintParses(node, engine);
    }
  }

  /** The vocabulary itself: the two combinator keys, the three keys of a leaf and the nine operators. */
  lemma {:induction false} DocumentsMean(field: string, value: Value, engine: TextEngine)
    ensures Parse(Dict(map["all" := List([])]), engine) == Ok(AllOf([]))
    ensures Parse(Dict(map["any" := List([])]), engine) == Ok(AnyOf([]))
    ensures forall name, op: Op | (name, op) in [("eq", Eq), ("ne", Ne), ("gt", Gt), ("ge", Ge), ("lt", Lt), ("le", Le), ("in", In)] ::
              Parse(Dict(map["field" := Str(field), "op" := Str(name), "value" := value]), engine)
              == Ok(Comparison(field, Schema(op), value))
    ensures Parse(Dict(map["field" := Str(field), "op" := Str("contains"), "value" := value]), engine)
            == Ok(Comparison(field, Contains, value))
    ensures value.Str? && engine.compiles(value.s) ==>
              Parse(Dict(map["field" := Str(field), "op" := Str("matches"), "value" := value]), engine)
              == Ok(Comparison(field, Matches, value))
  {
    hide Parse;
    PrintParses(AllOf([]), engine);
    PrintParses(AnyOf([]), engine);
    forall name, op: Op | (name, op) in [("eq", Eq), ("ne", Ne), ("gt", Gt), ("ge", Ge), ("lt", Lt), ("le", Le), ("in", In)]
      ensures Parse(Dict(map["field" := Str(field), "op" := Str(name), "value" := value]), engine)
              == Ok(Comparison(field, Schema(op), value))
    {
      PrintParses(Comparison(field, Schema(op), value), engine);
    }
    PrintParses(Comparison(field, Contains, value), engine);
    PrintParses(Comparison(field, Matches, value), engine);
  }
}
