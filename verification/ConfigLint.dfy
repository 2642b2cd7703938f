/** The lint that lets identity-classed fields be tested for presence only
    (engine/config_loader.py), and what sealing does to the context (engine/redact). */
module ConfigLint {
  import opened Predicates
  import opened Sequences
  import Payload

  const PAYLOAD_PREFIX := "payload."
  const EXTRACTION_PREFIX := "extraction."

  /** One identity-classed payload path; a subtree entry seals everything below it as one. */
  datatype IdentityField = IdentityField(path: string, subtree: bool)

  type Policy = seq<IdentityField>

  predicate StartsWith(s: string, prefix: string) {
    prefix <= s
  }

  /** `path` sits strictly below the entry. */
  predicate Below(entry: IdentityField, path: string) {
    StartsWith(path, entry.path + ".")
  }

  predicate Covers(entry: IdentityField, path: string) {
    path == entry.path || (entry.subtree && Below(entry, path))
  }

  predicate Covered(policy: Policy, path: string) {
    exists i | 0 <= i < |policy| :: Covers(policy[i], path)
  }

  /** No duplicate path, and no identity path below another one. */
  ghost predicate ValidPolicy(policy: Policy) {
    forall i, j | 0 <= i < |policy| && 0 <= j < |policy| && i != j ::
      policy[i].path != policy[j].path && !Below(policy[j], policy[i].path)
  }

  predicate IsIdentityField(field: string, policy: Policy, sealedFields: set<string>) {
    if StartsWith(field, PAYLOAD_PREFIX) then Covered(policy, field[|PAYLOAD_PREFIX|..])
    else StartsWith(field, EXTRACTION_PREFIX) && field[|EXTRACTION_PREFIX|..] in sealedFields
  }

  predicate IsPresenceTest(leaf: Node)
    requires leaf.Comparison?
  {
    leaf.op in {Schema(Eq), Schema(Ne)} && leaf.value == Null
  }

  /** The comparisons the loader refuses, in order. */
  function ValueComparisonsOnIdentity(node: Node, policy: Policy, sealedFields: set<string>): seq<Node>
    decreases node, 0
  {
    if !node.Comparison? then ValueComparisonsOfAll(node.nodes, policy, sealedFields)
    else if !IsIdentityField(node.field, policy, sealedFields) then []
    else if IsPresenceTest(node) then []
    else [node]
  }

  function ValueComparisonsOfAll(nodes: seq<Node>, policy: Policy, sealedFields: set<string>): seq<Node>
    decreases nodes, 1
  {
    if nodes == [] then []
    else ValueComparisonsOnIdentity(nodes[0], policy, sealedFields)
         + ValueComparisonsOfAll(nodes[1..], policy, sealedFields)
  }

  /** A test that asks for more than presence. */
  predicate AsksForValue(leaf: Node)
    requires leaf.Comparison?
  {
    leaf.value != Null || (leaf.op != Schema(Eq) && leaf.op != Schema(Ne))
  }

  /** On a payload path the lint reports exactly the tests for more than presence whose path the policy
      declares, or that sit below a subtree it declares. */
  lemma {:induction false} PayloadLeafReportedIff(leaf: Node, path: string, policy: Policy, sealedFields: set<string>)
    requires leaf.Comparison? && leaf.field == PAYLOAD_PREFIX + path
    ensures ValueComparisonsOnIdentity(leaf, policy, sealedFields) ==
            if AsksForValue(leaf)
               && exists i | 0 <= i < |policy| :: policy[i].path == path || (policy[i].subtree && policy[i].path + "." <= path)
            then [leaf] else []
  {
    assert leaf.field[|PAYLOAD_PREFIX|..] == path;
    if i :| 0 <= i < |policy| && (policy[i].path == path || (policy[i].subtree && policy[i].path + "." <= path)) {
      assert Covers(policy[i], path);
    }
    if i :| 0 <= i < |policy| && Covers(policy[i], path) {
      assert policy[i].path == path || (policy[i].subtree && policy[i].path + "." <= path);
    }
  }

  /** On an extracted field it reports exactly such tests of sealed fields, on any other field nothing. */
  lemma {:induction false} OtherLeafReportedIff(leaf: Node, policy: Policy, sealedFields: set<string>)
    requires leaf.Comparison? && !(PAYLOAD_PREFIX <= leaf.field)
    ensures ValueComparisonsOnIdentity(leaf, policy, sealedFields) ==
            if AsksForValue(leaf) && exists id | id in sealedFields :: leaf.field == EXTRACTION_PREFIX + id then [leaf] else []
  {
    if StartsWith(leaf.field, EXTRACTION_PREFIX) {
      assert leaf.field == EXTRACTION_PREFIX + leaf.field[|EXTRACTION_PREFIX|..];
    }
    forall id | leaf.field == EXTRACTION_PREFIX + id
      ensures leaf.field[|EXTRACTION_PREFIX|..] == id
    {
    }
  }

  /** A tree is reported leaf by leaf, in order. */
  lemma {:induction false} TreeReports(nodes: seq<Node>, last: Node, policy: Policy, sealedFields: set<string>)
    ensures ValueComparisonsOnIdentity(AllOf(nodes), policy, sealedFields) == ValueComparisonsOnIdentity(AnyOf(nodes), policy, sealedFields)
    ensures ValueComparisonsOnIdentity(AllOf([]), policy, sealedFields) == []
    ensures ValueComparisonsOnIdentity(AllOf(nodes + [last]), policy, sealedFields) ==
            ValueComparisonsOnIdentity(AllOf(nodes), policy, sealedFields) + ValueComparisonsOnIdentity(last, policy, sealedFields)
  {
    ReportsConcat(nodes, last, policy, sealedFields);
  }

  lemma {:induction false} ReportsConcat(nodes: seq<Node>, last: Node, policy: Policy, sealedFields: set<string>)
    ensures ValueComparisonsOfAll(nodes + [last], policy, sealedFields) ==
            ValueComparisonsOfAll(nodes, policy, sealedFields) + ValueComparisonsOnIdentity(last, policy, sealedFields)
  {
    hide ValueComparisonsOnIdentity;
    if nodes == [] {
      assert [] + [last] == [last] && [last][1..] == [];
      assert ValueComparisonsOfAll([], policy, sealedFields) == [];
    } else {
      var rest := nodes[1..];
      assert (nodes + [last])[1..] == rest + [last];
      ReportsConcat(rest, last, policy, sealedFields);
      ConcatAssociates(ValueComparisonsOnIdentity(nodes[0], policy, sealedFields),
                       ValueComparisonsOfAll(rest, policy, sealedFields), ValueComparisonsOnIdentity(last, policy, sealedFields));
    }
  }

  /** The field ids of a procedure whose payload path the policy seals. */
  function SealedFieldIds(policy: Policy, paths: map<string, string>): set<string> {
    set id | id in paths && Covered(policy, paths[id]) :: id
  }

  /** A test for the value of an extracted field is reported exactly when the path the field is read from
      is declared. */
  lemma {:induction false} ExtractedLeafReportedIff(leaf: Node, id: string, policy: Policy, paths: map<string, string>)
    requires leaf.Comparison? && leaf.field == EXTRACTION_PREFIX + id && AsksForValue(leaf)
    ensures ValueComparisonsOnIdentity(leaf, policy, SealedFieldIds(policy, paths)) == [leaf] <==>
            id in paths && exists i | 0 <= i < |policy| ::
              policy[i].path == paths[id] || (policy[i].subtree && policy[i].path + "." <= paths[id])
  {
    assert PAYLOAD_PREFIX[0] != EXTRACTION_PREFIX[0];
    assert leaf.field[|EXTRACTION_PREFIX|..] == id;
    if id in paths {
      var asPayload := Comparison(PAYLOAD_PREFIX + paths[id], leaf.op, leaf.value);
      PayloadLeafReportedIff(asPayload, paths[id], policy, {});
      assert asPayload.field[|PAYLOAD_PREFIX|..] == paths[id];
    }
  }

  /** A silent lint means: every leaf on an identity field is a presence test. */
  ghost predicate PresenceOnly(leaf: Node, policy: Policy, sealedFields: set<string>)
    requires leaf.Comparison?
  {
    IsIdentityField(leaf.field, policy, sealedFields) ==> IsPresenceTest(leaf)
  }

  lemma {:induction false} SilentLint(node: Node, policy: Policy, sealedFields: set<string>)
    ensures ValueComparisonsOnIdentity(node, policy, sealedFields) == [] <==>
            forall leaf | leaf in Leaves(node) :: PresenceOnly(leaf, policy, sealedFields)
    decreases node, 0
  {
    if !node.Comparison? {
      SilentLintAll(node.nodes, policy, sealedFields);
    } else {
      assert node in Leaves(node);
    }
  }

  lemma {:induction false} SilentLintAll(nodes: seq<Node>, policy: Policy, sealedFields: set<string>)
    ensures ValueComparisonsOfAll(nodes, policy, sealedFields) == [] <==>
            forall leaf | leaf in LeavesAll(nodes) :: PresenceOnly(leaf, policy, sealedFields)
    decreases nodes, 1
  {
    if nodes != [] {
      SilentLint(nodes[0], policy, sealedFields);
      SilentLintAll(nodes[1..], policy, sealedFields);
    }
  }

  // ----- replacing identity values -----

  /** Identity fields keep their presence, everything else keeps its value. */
  ghost predicate SameUpToIdentity(ctx: Context, ctx': Context, policy: Policy, sealedFields: set<string>) {
    forall f ::
      if IsIdentityField(f, policy, sealedFields) then Get(ctx, f) == Null <==> Get(ctx', f) == Null
      else Get(ctx, f) == Get(ctx', f)
  }

  /** What a presence test answers: `eq null` never holds, `ne null` is presence. */
  lemma {:induction false} PresenceTestMeaning(leaf: Node, ctx: Context, engine: TextEngine)
    requires leaf.Comparison? && IsPresenceTest(leaf)
    ensures Evaluate(leaf, ctx, engine) <==> leaf.op == Schema(Ne) && Get(ctx, leaf.field) != Null
  {
    var v := Get(ctx, leaf.field);
    if v != Null {
      assert !Equal(v, Null);
    }
  }

  /** A predicate the lint accepts cannot tell one identity value from another. */
  lemma {:induction false} LintedIsTransparent(node: Node, ctx: Context, ctx': Context, policy: Policy,
                                              sealedFields: set<string>, engine: TextEngine)
    requires ValueComparisonsOnIdentity(node, policy, sealedFields) == []
    requires SameUpToIdentity(ctx, ctx', policy, sealedFields)
    ensures Evaluate(node, ctx, engine) == Evaluate(node, ctx', engine)
  {
    SilentLint(node, policy, sealedFields);
    forall leaf | leaf in Leaves(node)
      ensures Evaluate(leaf, ctx, engine) == Evaluate(leaf, ctx', engine)
    {
      assert PresenceOnly(leaf, policy, sealedFields);
      if IsIdentityField(leaf.field, policy, sealedFields) {
        PresenceTestMeaning(leaf, ctx, engine);
        PresenceTestMeaning(leaf, ctx', engine);
      }
    }
    EvaluateCongruence(node, ctx, ctx', engine);
  }

  /** For `eq` and `ne` the lint is exact: it refuses precisely the comparisons on identity
      fields whose answer some replacement of the value changes. */
  lemma {:induction false} LintIsExact(leaf: Node, policy: Policy, sealedFields: set<string>, engine: TextEngine)
    requires leaf.Comparison? && leaf.op in {Schema(Eq), Schema(Ne)}
    ensures ValueComparisonsOnIdentity(leaf, policy, sealedFields) != [] <==>
            exists ctx, ctx' :: SameUpToIdentity(ctx, ctx', policy, sealedFields)
                                && Evaluate(leaf, ctx, engine) != Evaluate(leaf, ctx', engine)
  {
    if ValueComparisonsOnIdentity(leaf, policy, sealedFields) == [] {
      forall ctx, ctx' | SameUpToIdentity(ctx, ctx', policy, sealedFields)
        ensures Evaluate(leaf, ctx, engine) == Evaluate(leaf, ctx', engine)
      {
        LintedIsTransparent(leaf, ctx, ctx', policy, sealedFields, engine);
      }
    } else {
      var other := if leaf.value.Str? then Num(0.0) else Str("");
      var ctx: Context, ctx': Context := map[leaf.field := leaf.value], map[leaf.field := other];
      EqualReflexive(leaf.value);
      assert !Equal(other, leaf.value);
      assert SameUpToIdentity(ctx, ctx', policy, sealedFields);
    }
  }

  // ----- sealing -----

  /** The object at the entry holds something, null or not. */
  ghost predicate HasLeafBelow(payload: map<string, Value>, entry: IdentityField) {
    exists p | p in payload :: Below(entry, p)
  }

  /** A leaf that states something: neither null, nor blank, nor a container. */
  predicate Usable(v: Value) {
    v.Bool? || v.Num? || (v.Str? && !Payload.Blank(v.s))
  }

  ghost predicate BelowSubtree(policy: Policy, path: string) {
    exists i | 0 <= i < |policy| :: policy[i].subtree && Below(policy[i], path)
  }

  ghost predicate IsSubtreeRoot(policy: Policy, path: string) {
    exists i | 0 <= i < |policy| :: policy[i].subtree && policy[i].path == path
  }

  ghost predicate CoveredBySubtree(policy: Policy, path: string) {
    IsSubtreeRoot(policy, path) || BelowSubtree(policy, path)
  }

  /** The payload's leaves after sealing: a covered usable leaf becomes a placeholder, and a subtree
      with anything in it collapses into one placeholder at its root. */
  ghost function Seal(payload: map<string, Value>, policy: Policy, placeholder: string -> Value): map<string, Value>
  {
    var kept := set p | p in payload && !BelowSubtree(policy, p);
    var roots := set i | 0 <= i < |policy| && policy[i].subtree && HasLeafBelow(payload, policy[i]) :: policy[i].path;
    map p | p in kept + roots ::
      if Covered(policy, p) && (p in roots || Usable(payload[p])) then placeholder(p) else payload[p]
  }

  /** What sealing does to a declared path: a leaf that states something reads as its placeholder, a leaf
      that states nothing stays, and of a subtree with anything in it only the placeholder is left. */
  lemma {:induction false} DeclaredPathIsSealed(payload: map<string, Value>, policy: Policy, placeholder: string -> Value, i: nat)
    requires ValidPolicy(policy) && i < |policy|
    ensures var path, sealed := policy[i].path, Seal(payload, policy, placeholder);
      && (path in payload && (payload[path].Bool? || payload[path].Num? || (payload[path].Str? && !Payload.Blank(payload[path].s)))
          ==> path in sealed && sealed[path] == placeholder(path))
      && (path in payload && !policy[i].subtree && (payload[path] == Null || (payload[path].Str? && Payload.Blank(payload[path].s)))
          ==> path in sealed && sealed[path] == payload[path])
      && (policy[i].subtree ==> forall p | p in payload && path + "." <= p ::
            p !in sealed && path in sealed && sealed[path] == placeholder(path))
  {
    var path, sealed := policy[i].path, Seal(payload, policy, placeholder);
    assert Covers(policy[i], path);
    forall j | 0 <= j < |policy|
      ensures !Below(policy[j], path)
    {
      OwnPathIsNotBelow(policy[i]);
    }
    if policy[i].subtree {
      forall p | p in payload && path + "." <= p
        ensures p !in sealed && path in sealed && sealed[path] == placeholder(path)
      {
        BelowIsGone(payload, policy, placeholder, i, p);
      }
    }
  }

  lemma {:induction false} OwnPathIsNotBelow(entry: IdentityField)
    ensures !Below(entry, entry.path)
  {
    assert |entry.path + "."| > |entry.path|;
  }

  lemma {:induction false} BelowIsGone(payload: map<string, Value>, policy: Policy, placeholder: string -> Value, i: nat, p: string)
    requires ValidPolicy(policy) && i < |policy| && policy[i].subtree && p in payload && policy[i].path + "." <= p
    ensures var path, sealed := policy[i].path, Seal(payload, policy, placeholder);
      p !in sealed && path in sealed && sealed[path] == placeholder(path)
  {
    assert Below(policy[i], p) && HasLeafBelow(payload, policy[i]) && Covers(policy[i], policy[i].path);
    assert BelowSubtree(policy, p);
    forall j | 0 <= j < |policy|
      ensures policy[j].path != p
    {
      OwnPathIsNotBelow(policy[i]);
    }
  }

  /** Nothing else is touched. */
  lemma {:induction false} UndeclaredPathIsKept(payload: map<string, Value>, policy: Policy, placeholder: string -> Value, path: string)
    requires forall i | 0 <= i < |policy| :: policy[i].path != path && !(policy[i].subtree && policy[i].path + "." <= path)
    ensures path in Seal(payload, policy, placeholder) <==> path in payload
    ensures path in payload ==> Seal(payload, policy, placeholder)[path] == payload[path]
  {
    assert !Covered(policy, path);
  }

  /** What stands below a subtree entry is gone from the working copy. */
  lemma {:induction false} BelowSubtreeVanishes(policy: Policy, path: string, placeholder: string -> Value)
    returns (payload: map<string, Value>)
    requires ValidPolicy(policy) && BelowSubtree(policy, path)
    ensures Get(payload, path) != Null && Get(Seal(payload, policy, placeholder), path) == Null
  {
    payload := map[path := Str("x")];
    var i :| 0 <= i < |policy| && policy[i].subtree && Below(policy[i], path);
    forall j | 0 <= j < |policy|
      ensures policy[j].path != path
    {
      assert i == j ==> |policy[i].path + "."| <= |path|;
    }
    assert path !in Seal(payload, policy, placeholder);
  }

  /** Where an object was, no leaf, a placeholder stands now. */
  lemma {:induction false} SubtreeRootAppears(policy: Policy, path: string, placeholder: string -> Value)
    returns (payload: map<string, Value>)
    requires IsSubtreeRoot(policy, path) && placeholder(path) != Null
    ensures Get(payload, path) == Null && Get(Seal(payload, policy, placeholder), path) != Null
  {
    var i :| 0 <= i < |policy| && policy[i].subtree && policy[i].path == path;
    var leaf := path + "." + "x";
    payload := map[leaf := Str("x")];
    assert path + "." <= leaf;
    assert leaf in payload && Below(policy[i], leaf);
    assert HasLeafBelow(payload, policy[i]);
    assert Covers(policy[i], path);
    assert |leaf| > |path|;
  }

  lemma {:induction false} OutsideSubtreesStays(payload: map<string, Value>, policy: Policy, path: string,
                                               placeholder: string -> Value)
    requires !CoveredBySubtree(policy, path) && placeholder(path) != Null
    ensures Get(payload, path) == Null <==> Get(Seal(payload, policy, placeholder), path) == Null
  {
    assert path in Seal(payload, policy, placeholder) <==> path in payload;
  }

  /** A presence test on a payload path means the same before and after sealing of every payload
      exactly when no subtree entry covers the path, and the lint does not look at that. */
  lemma {:induction false} PresenceSurvivesSealingIff(policy: Policy, path: string, placeholder: string -> Value)
    requires ValidPolicy(policy) && forall p :: placeholder(p) != Null
    ensures (forall payload: map<string, Value> ::
               Get(payload, path) == Null <==> Get(Seal(payload, policy, placeholder), path) == Null)
            <==> !CoveredBySubtree(policy, path)
  {
    hide Seal, ValidPolicy, BelowSubtree, IsSubtreeRoot, Get;
    if BelowSubtree(policy, path) {
      var payload := BelowSubtreeVanishes(policy, path, placeholder);
    } else if IsSubtreeRoot(policy, path) {
      var payload := SubtreeRootAppears(policy, path, placeholder);
    } else {
      forall payload: map<string, Value>
        ensures Get(payload, path) == Null <==> Get(Seal(payload, policy, placeholder), path) == Null
      {
        OutsideSubtreesStays(payload, policy, path, placeholder);
      }
    }
  }

  /** The evaluation context of a payload beside fields of other namespaces. */
  ghost function ContextOf(payload: map<string, Value>, other: Context): Context {
    map f | f in other.Keys + (set p | p in payload :: PAYLOAD_PREFIX + p) ::
      if StartsWith(f, PAYLOAD_PREFIX) then Get(payload, f[|PAYLOAD_PREFIX|..]) else Get(other, f)
  }

  lemma {:induction false} ContextLookup(payload: map<string, Value>, other: Context, f: string)
    ensures Get(ContextOf(payload, other), f) ==
            if StartsWith(f, PAYLOAD_PREFIX) then Get(payload, f[|PAYLOAD_PREFIX|..]) else Get(other, f)
  {
    if StartsWith(f, PAYLOAD_PREFIX) {
      assert f == PAYLOAD_PREFIX + f[|PAYLOAD_PREFIX|..];
    } else {
      forall p
        ensures PAYLOAD_PREFIX + p != f
      {
        assert StartsWith(PAYLOAD_PREFIX + p, PAYLOAD_PREFIX);
      }
    }
  }

  /** What the mapper reads for a procedure's fields: the text of a usable leaf, else nothing. */
  ghost function Extracted(payload: map<string, Value>, paths: map<string, string>, read: Value -> Value): Context {
    map f | f in (set g | g in paths :: EXTRACTION_PREFIX + g) && StartsWith(f, EXTRACTION_PREFIX)
            && f[|EXTRACTION_PREFIX|..] in paths :: read(Get(payload, paths[f[|EXTRACTION_PREFIX|..]]))
  }

  lemma {:induction false} ExtractedLookup(payload: map<string, Value>, paths: map<string, string>, read: Value -> Value,
                                          f: string)
    ensures Get(Extracted(payload, paths, read), f) ==
            if StartsWith(f, EXTRACTION_PREFIX) && f[|EXTRACTION_PREFIX|..] in paths
            then read(Get(payload, paths[f[|EXTRACTION_PREFIX|..]])) else Null
  {
    if StartsWith(f, EXTRACTION_PREFIX) {
      assert f == EXTRACTION_PREFIX + f[|EXTRACTION_PREFIX|..];
    }
  }

  /** A path no subtree covers reads usable after sealing exactly when it did before, and the same
      unless it is covered. */
  lemma {:induction false} UsableSurvives(payload: map<string, Value>, policy: Policy, placeholder: string -> Value,
                                         path: string)
    requires !CoveredBySubtree(policy, path) && forall p :: Usable(placeholder(p))
    ensures var before, after := Get(payload, path), Get(Seal(payload, policy, placeholder), path);
      (Usable(before) <==> Usable(after)) && (!Covered(policy, path) ==> before == after)
  {
    assert path in Seal(payload, policy, placeholder) <==> path in payload;
  }

  /** Reading a sealed payload instead of the original changes extracted values of identity fields
      only, and the presence of none. */
  lemma {:induction false} ExtractionSurvivesSealing(payload: map<string, Value>, paths: map<string, string>,
                                                    read: Value -> Value, policy: Policy, sealedFields: set<string>,
                                                    placeholder: string -> Value)
    requires forall p :: Usable(placeholder(p))
    requires forall v :: read(v) == Null <==> !Usable(v)
    requires forall f | f in paths :: !CoveredBySubtree(policy, paths[f])
    requires forall f | f in paths && Covered(policy, paths[f]) :: f in sealedFields
    ensures SameUpToIdentity(Extracted(payload, paths, read),
                             Extracted(Seal(payload, policy, placeholder), paths, read), policy, sealedFields)
  {
    hide Seal, Covered, CoveredBySubtree, Usable, Extracted;
    var sealed := Seal(payload, policy, placeholder);
    PrefixesDiffer();
    forall f
      ensures var before, after := Get(Extracted(payload, paths, read), f), Get(Extracted(sealed, paths, read), f);
        if IsIdentityField(f, policy, sealedFields) then before == Null <==> after == Null else before == after
    {
      ExtractedLookup(payload, paths, read, f);
      ExtractedLookup(sealed, paths, read, f);
      if StartsWith(f, EXTRACTION_PREFIX) && f[|EXTRACTION_PREFIX|..] in paths {
        UsableSurvives(payload, policy, placeholder, paths[f[|EXTRACTION_PREFIX|..]]);
      }
    }
  }

  lemma {:induction false} PrefixesDiffer()
    ensures forall f :: !(StartsWith(f, PAYLOAD_PREFIX) && StartsWith(f, EXTRACTION_PREFIX))
  {
    assert PAYLOAD_PREFIX[0] != EXTRACTION_PREFIX[0];
  }

  /** Sealing as one leaf sees it: the payload becomes the working copy, and the other fields change
      at most the values they hold for identity. */
  lemma {:induction false} LeafSurvivesSealing(leaf: Node, payload: map<string, Value>, other: Context, other': Context,
                                              policy: Policy, sealedFields: set<string>,
                                              placeholder: string -> Value, engine: TextEngine)
    requires ValidPolicy(policy) && forall p :: placeholder(p) != Null
    requires SameUpToIdentity(other, other', policy, sealedFields)
    requires leaf.Comparison? && PresenceOnly(leaf, policy, sealedFields)
    requires leaf.op == Schema(Ne) && StartsWith(leaf.field, PAYLOAD_PREFIX) ==>
               !CoveredBySubtree(policy, leaf.field[|PAYLOAD_PREFIX|..])
    ensures Evaluate(leaf, ContextOf(payload, other), engine)
            == Evaluate(leaf, ContextOf(Seal(payload, policy, placeholder), other'), engine)
  {
    hide Seal, ValidPolicy, CoveredBySubtree, ContextOf, Covered, Compare;
    var before, after := ContextOf(payload, other), ContextOf(Seal(payload, policy, placeholder), other');
    ContextLookup(payload, other, leaf.field);
    ContextLookup(Seal(payload, policy, placeholder), other', leaf.field);
    if IsIdentityField(leaf.field, policy, sealedFields) {
      PresenceTestMeaning(leaf, before, engine);
      PresenceTestMeaning(leaf, after, engine);
      if leaf.op == Schema(Ne) && StartsWith(leaf.field, PAYLOAD_PREFIX) {
        PresenceSurvivesSealingIff(policy, leaf.field[|PAYLOAD_PREFIX|..], placeholder);
      }
    } else if StartsWith(leaf.field, PAYLOAD_PREFIX) {
      UncoveredIsKept(payload, policy, placeholder, leaf.field[|PAYLOAD_PREFIX|..]);
    }
  }

  /** A linted predicate that asks no presence question about a subtree answers the same about the
      working copy, and about what was extracted from it, as it would have about the original. */
  lemma {:induction false} LintedSurvivesSealing(node: Node, payload: map<string, Value>, other: Context, other': Context,
                                                policy: Policy, sealedFields: set<string>,
                                                placeholder: string -> Value, engine: TextEngine)
    requires ValidPolicy(policy) && forall p :: placeholder(p) != Null
    requires ValueComparisonsOnIdentity(node, policy, sealedFields) == []
    requires forall leaf | leaf in Leaves(node) && leaf.op == Schema(Ne) && StartsWith(leaf.field, PAYLOAD_PREFIX) ::
               !CoveredBySubtree(policy, leaf.field[|PAYLOAD_PREFIX|..])
    requires SameUpToIdentity(other, other', policy, sealedFields)
    ensures Evaluate(node, ContextOf(payload, other), engine)
            == Evaluate(node, ContextOf(Seal(payload, policy, placeholder), other'), engine)
  {
    hide Seal, ValidPolicy, CoveredBySubtree, ContextOf, SameUpToIdentity, PresenceOnly, Evaluate;
    SilentLint(node, policy, sealedFields);
    var before, after := ContextOf(payload, other), ContextOf(Seal(payload, policy, placeholder), other');
    forall leaf | leaf in Leaves(node)
      ensures Evaluate(leaf, before, engine) == Evaluate(leaf, after, engine)
    {
      LeafSurvivesSealing(leaf, payload, other, other', policy, sealedFields, placeholder, engine);
    }
    EvaluateCongruence(node, before, after, engine);
  }

  lemma {:induction false} UncoveredIsKept(payload: map<string, Value>, policy: Policy, placeholder: string -> Value,
                                          path: string)
    requires !Covered(policy, path)
    ensures Get(Seal(payload, policy, placeholder), path) == Get(payload, path)
  {
    forall i | 0 <= i < |policy|
      ensures policy[i].path != path && !(policy[i].subtree && Below(policy[i], path))
    {
      assert !Covers(policy[i], path);
    }
  }
}
