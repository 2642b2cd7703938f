/** The tier decision table interpreter (engine/decide/interpreter.py) over schema-valid config
    (schemas/config.py).

    `Decide` says what a record has to be; `DecideItem` computes it the way the source does. */
module Decision {
  import opened Predicates
  import opened Sequences
  import opened Wrappers

  /** Higher means more human oversight. */
  type Tier = t: int | 1 <= t <= 3 witness 3

  function MaxTier(x: Tier, y: Tier): Tier { if x < y then y else x }

  // ----- config -----

  const ANOMALY_FIELD_PREFIX := "anomaly."
  const SCORE_FIELD := "anomaly.score"
  const FLAGGED_FIELD := "anomaly.flagged"

  const QUALIFYING_FIELDS: set<string> := {
    "routing.confidence", "routing.rule_hit", "completeness.verdict", "completeness.gap_count",
    "extraction.min_confidence", "extraction.discarded_count", "procedure.tier1_enabled",
    "procedure.clear_cut" }

  datatype Condition = Condition(field: string, op: Op, value: Value)
  datatype Row = Row(rowId: string, tier: Tier, whenAll: seq<Condition>)
  datatype DowngradeRule = DowngradeRule(rowId: string, whenAll: seq<Condition>)
  datatype Table = Table(rows: seq<Row>, downgrades: seq<DowngradeRule>)

  predicate ValidQualifying(c: Condition) {
    !(ANOMALY_FIELD_PREFIX <= c.field) && c.field in QUALIFYING_FIELDS
  }

  /** Anomaly fields only, and only with operators that a stronger anomaly cannot switch off. */
  predicate ValidDowngrade(c: Condition) {
    || (c.field == SCORE_FIELD && c.op in {Gt, Ge})
    || (c.field == FLAGGED_FIELD && c.op == Eq && c.value == Bool(true))
  }

  predicate ValidTable(table: Table) {
    && |table.rows| >= 1
    && (forall r | r in table.rows :: |r.whenAll| >= 1 && forall c | c in r.whenAll :: ValidQualifying(c))
    && (forall d | d in table.downgrades :: |d.whenAll| >= 1 && forall c | c in d.whenAll :: ValidDowngrade(c))
  }

  datatype Risk = Risk(enforcing: bool, rate: real)

  // ----- evidence -----

  datatype Source = Rule | Classifier
  datatype Suggestion = Suggestion(unitId: string, source: Source, confidence: real)
  datatype Verdict = Complete | Incomplete | NotEvaluable

  datatype Evidence = Evidence(caseId: string, routing: seq<Suggestion>, verdict: Verdict, gapCount: nat,
                               minConfidence: Option<real>, discardedCount: nat)

  datatype Anomaly = Anomaly(score: real, flagged: bool)

  const ADMITTED_ROUTING_SOURCES: set<Source> := {Rule}

  /** The keyed hash behind the audit draw: the byte length of a salt and the draw itself. */
  datatype DrawEngine = DrawEngine(bytes: string -> nat, draw: (string, string) -> real)

  const MAX_SALT_BYTES := 64

  /** Everything `decide` is handed besides the item. */
  datatype Setting = Setting(table: Table, risk: Risk, tier1Enabled: Option<bool>, clearCut: bool,
                             sources: set<Source>, salt: Option<string>, draws: DrawEngine)

  // ----- routing -----

  /** The suggestions a decision may be built on, in order. */
  function Admitted(routing: seq<Suggestion>, sources: set<Source>): seq<Suggestion> {
    if routing == [] then []
    else (if routing[0].source in sources then [routing[0]] else []) + Admitted(routing[1..], sources)
  }

  /** Index of the first suggestion with the highest confidence. */
  function BestIndex(routing: seq<Suggestion>): (i: nat)
    requires routing != []
    ensures i < |routing|
    ensures forall k | 0 <= k < |routing| :: routing[k].confidence <= routing[i].confidence
    ensures forall k | 0 <= k < i :: routing[k].confidence < routing[i].confidence
  {
    if |routing| == 1 then 0
    else
      var i := BestIndex(routing[..|routing|-1]);
      if routing[|routing|-1].confidence > routing[i].confidence then |routing| - 1 else i
  }

  function RoutedUnit(routing: seq<Suggestion>, sources: set<Source>): Option<string> {
    var admitted := Admitted(routing, sources);
    if admitted == [] then None else Some(admitted[BestIndex(admitted)].unitId)
  }

  lemma {:induction false} AdmittedHas(routing: seq<Suggestion>, sources: set<Source>, x: Suggestion)
    ensures x in Admitted(routing, sources) <==> x in routing && x.source in sources
  {
    if routing != [] {
      AdmittedHas(routing[1..], sources, x);
      assert x in routing <==> x == routing[0] || x in routing[1..];
    }
  }

  lemma {:induction false} AdmittedAppend(routing: seq<Suggestion>, sources: set<Source>, last: Suggestion)
    ensures Admitted(routing + [last], sources) == Admitted(routing, sources) + if last.source in sources then [last] else []
  {
    var tail := if last.source in sources then [last] else [];
    if routing == [] {
      assert routing + [last] == [last];
      assert tail + [] == tail == [] + tail;
    } else {
      var head, rest := if routing[0].source in sources then [routing[0]] else [], routing[1..];
      assert (routing + [last])[1..] == rest + [last];
      AdmittedAppend(rest, sources, last);
      ConcatAssociates(head, Admitted(rest, sources), tail);
    }
  }

  /** `i` is the first of the admitted suggestions with the highest confidence. */
  ghost predicate IsBest(routing: seq<Suggestion>, sources: set<Source>, i: nat) {
    && i < |routing| && routing[i].source in sources
    && (forall k | 0 <= k < |routing| && routing[k].source in sources :: routing[k].confidence <= routing[i].confidence)
    && (forall k | 0 <= k < i && routing[k].source in sources :: routing[k].confidence < routing[i].confidence)
  }

  lemma {:induction false} BestIndexAppend(earlier: seq<Suggestion>, last: Suggestion)
    ensures (earlier + [last])[BestIndex(earlier + [last])] ==
            if earlier == [] || last.confidence > earlier[BestIndex(earlier)].confidence then last
            else earlier[BestIndex(earlier)]
  {
    assert (earlier + [last])[..|earlier|] == earlier;
  }

  lemma {:induction false} IsBestAppend(routing: seq<Suggestion>, sources: set<Source>, i: nat, last: Suggestion)
    requires IsBest(routing, sources, i)
    ensures if last.source in sources && last.confidence > routing[i].confidence
            then IsBest(routing + [last], sources, |routing|) else IsBest(routing + [last], sources, i)
  {
  }

  /** The admitted suggestion with the highest confidence, the earliest among equals, stands in the
      list itself. */
  lemma {:induction false} BestIsAdmitted(routing: seq<Suggestion>, sources: set<Source>) returns (i: nat)
    ensures var admitted := Admitted(routing, sources);
      if admitted == [] then forall k | 0 <= k < |routing| :: routing[k].source !in sources
      else IsBest(routing, sources, i) && routing[i] == admitted[BestIndex(admitted)]
  {
    hide BestIndex, Admitted;
    i := 0;
    AdmittedNone(sources);
    if routing != [] {
      var n := |routing| - 1;
      var before, last := routing[..n], routing[n];
      assert routing == before + [last];
      AdmittedAppend(before, sources, last);
      i := BestIsAdmitted(before, sources);
      var earlier := Admitted(before, sources);
      if last.source in sources {
        BestIndexAppend(earlier, last);
        if earlier == [] {
          i := n;
        } else {
          IsBestAppend(before, sources, i, last);
          i := if last.confidence > before[i].confidence then n else i;
        }
      } else if earlier != [] {
        assert earlier + [] == earlier;
        IsBestAppend(before, sources, i, last);
      }
    }
  }

  lemma {:induction false} AdmittedNone(sources: set<Source>)
    ensures Admitted([], sources) == []
  {
  }

  /** The addressee and the two routing fields, said of the list as it came: no suggestion from a
      source that is not admitted counts, and among the admitted the best one decides. */
  lemma {:induction false} RoutingIsTheBestAdmitted(e: Evidence, s: Setting) returns (i: nat)
    ensures if forall k | 0 <= k < |e.routing| :: e.routing[k].source !in s.sources then
              RoutedUnit(e.routing, s.sources) == None && Get(FieldsFor(e, s), "routing.confidence") == Num(0.0)
            else
              && IsBest(e.routing, s.sources, i)
              && RoutedUnit(e.routing, s.sources) == Some(e.routing[i].unitId)
              && Get(FieldsFor(e, s), "routing.confidence") == Num(e.routing[i].confidence)
    ensures Get(FieldsFor(e, s), "routing.rule_hit") ==
            Bool(Rule in s.sources && exists k | 0 <= k < |e.routing| :: e.routing[k].source == Rule)
  {
    i := BestIsAdmitted(e.routing, s.sources);
    var admitted := Admitted(e.routing, s.sources);
    forall x
      ensures x in admitted <==> x in e.routing && x.source in s.sources
    {
      AdmittedHas(e.routing, s.sources, x);
    }
    FieldValues(e, s);
    RuleHits(e.routing, admitted, s.sources);
  }

  lemma {:induction false} FieldValues(e: Evidence, s: Setting)
    ensures var routing := Admitted(e.routing, s.sources);
      && Get(FieldsFor(e, s), "routing.confidence")
           == Num(if routing == [] then 0.0 else routing[BestIndex(routing)].confidence)
      && Get(FieldsFor(e, s), "routing.rule_hit") == Bool(exists i | 0 <= i < |routing| :: routing[i].source == Rule)
  {
    hide Admitted, BestIndex;
    assert "routing.confidence"[8] == 'c' && "routing.rule_hit"[8] == 'r';
    assert "routing.rule_hit"[0] == 'r';
  }

  lemma {:induction false} RuleHits(routing: seq<Suggestion>, admitted: seq<Suggestion>, sources: set<Source>)
    requires forall x :: x in admitted <==> x in routing && x.source in sources
    ensures (exists i | 0 <= i < |admitted| :: admitted[i].source == Rule)
            <==> Rule in sources && exists k | 0 <= k < |routing| :: routing[k].source == Rule
  {
    if i :| 0 <= i < |admitted| && admitted[i].source == Rule {
      assert admitted[i] in routing;
    }
    if k :| Rule in sources && 0 <= k < |routing| && routing[k].source == Rule {
      assert routing[k] in admitted;
    }
  }

  lemma {:induction false} LoneSuggestion(lone: Suggestion, sources: set<Source>)
    ensures RoutedUnit([lone], sources) == if lone.source in sources then Some(lone.unitId) else None
  {
    AdmittedNone(sources);
    assert [lone][1..] == [];
    assert Admitted([lone], sources) == if lone.source in sources then [lone] else [];
  }

  function VerdictName(v: Verdict): string {
    match v case Complete => "complete" case Incomplete => "incomplete" case NotEvaluable => "not_evaluable"
  }

  const CONFIDENCE_FIELD := "extraction.min_confidence"

  /** The fields that can always be resolved. */
  function ResolvedFields(e: Evidence, tier1Enabled: Option<bool>, clearCut: bool, sources: set<Source>): Context {
    var routing := Admitted(e.routing, sources);
    map[
      "routing.confidence" := Num(if routing == [] then 0.0 else routing[BestIndex(routing)].confidence),
      "routing.rule_hit" := Bool(exists i | 0 <= i < |routing| :: routing[i].source == Rule),
      "completeness.verdict" := Str(VerdictName(e.verdict)),
      "completeness.gap_count" := Num(e.gapCount as real),
      "extraction.discarded_count" := Num(e.discardedCount as real),
      "procedure.tier1_enabled" := Bool(tier1Enabled.Some? && tier1Enabled.value),
      "procedure.clear_cut" := Bool(clearCut)
    ]
  }

  /** Every field a qualifying condition may reference. */
  function QualifyingFields(e: Evidence, tier1Enabled: Option<bool>, clearCut: bool, sources: set<Source>): Context {
    ResolvedFields(e, tier1Enabled, clearCut, sources)[
      CONFIDENCE_FIELD := if e.minConfidence.Some? then Num(e.minConfidence.value) else Null]
  }

  /** The extraction confidence is the only qualifying field that can be unresolvable. */
  lemma {:induction false} OnlyConfidenceCanBeMissing(e: Evidence, tier1Enabled: Option<bool>, clearCut: bool,
                                                     sources: set<Source>, field: string)
    requires field in QUALIFYING_FIELDS
    ensures Get(QualifyingFields(e, tier1Enabled, clearCut, sources), field) == Null <==>
            field == CONFIDENCE_FIELD && e.minConfidence.None?
  {
    assert "extraction.min_confidence"[11] == 'm' && "extraction.discarded_count"[11] == 'd';
    assert "extraction.min_confidence"[0] == 'e';
  }

  // ----- rows -----

  predicate ConditionHolds(c: Condition, fields: Context) {
    Get(fields, c.field) != Null && CompareOp(c.op, Get(fields, c.field), c.value)
  }

  predicate RowHolds(row: Row, fields: Context) {
    forall i | 0 <= i < |row.whenAll| :: ConditionHolds(row.whenAll[i], fields)
  }

  /** Each remaining qualifying field carries the piece of evidence, or of config, that it is named for. */
  lemma {:induction false} FieldsCarryEvidence(e: Evidence, s: Setting)
    ensures Get(FieldsFor(e, s), "completeness.gap_count") == Num(e.gapCount as real)
    ensures Get(FieldsFor(e, s), "extraction.discarded_count") == Num(e.discardedCount as real)
    ensures Get(FieldsFor(e, s), "extraction.min_confidence") == if e.minConfidence.Some? then Num(e.minConfidence.value) else Null
    ensures Get(FieldsFor(e, s), "procedure.tier1_enabled") == Bool(s.tier1Enabled == Some(true))
    ensures Get(FieldsFor(e, s), "procedure.clear_cut") == Bool(s.clearCut)
    ensures Get(FieldsFor(e, s), "completeness.verdict") == Str(
              match e.verdict case Complete => "complete" case Incomplete => "incomplete" case NotEvaluable => "not_evaluable")
  {
    hide Admitted, BestIndex;
    assert "completeness.gap_count"[13] == 'g' && "completeness.verdict"[13] == 'v' && "completeness.gap_count"[0] == 'c';
    assert "extraction.discarded_count"[0] == 'e' && "extraction.discarded_count"[11] == 'd' && CONFIDENCE_FIELD[11] == 'm';
    assert "procedure.tier1_enabled"[10] == 't' && "procedure.clear_cut"[10] == 'c' && "procedure.clear_cut"[0] == 'p';
    assert CONFIDENCE_FIELD[0] == 'e';
  }

  /** A condition may qualify a row exactly when it asks for one of the fields that are resolved for every
      item, and none of those is an anomaly field. */
  lemma {:induction false} QualifyingFieldsMatch(c: Condition, e: Evidence, s: Setting)
    ensures ValidQualifying(c) <==> c.field in FieldsFor(e, s)
    ensures ValidQualifying(c) ==> !("anomaly." <= c.field) && c.field != SCORE_FIELD && c.field != FLAGGED_FIELD
  {
    hide Admitted, BestIndex;
    NoQualifyingAnomaly(c.field);
    assert "anomaly." <= SCORE_FIELD && "anomaly." <= FLAGGED_FIELD;
    assert FieldsFor(e, s).Keys == QUALIFYING_FIELDS;
  }

  lemma {:induction false} NoQualifyingAnomaly(field: string)
    ensures field in QUALIFYING_FIELDS ==> !("anomaly." <= field)
  {
    assert forall f | f in QUALIFYING_FIELDS :: f[0] in {'r', 'c', 'e', 'p'};
  }

  /** What the usual conditions ask of an item: the counts, the confidence, the two flags and the verdict. */
  lemma {:induction false} ConditionsAsk(e: Evidence, s: Setting, bound: real)
    ensures ConditionHolds(Condition("completeness.gap_count", Le, Num(bound)), FieldsFor(e, s)) <==> e.gapCount as real <= bound
    ensures ConditionHolds(Condition("extraction.discarded_count", Eq, Num(bound)), FieldsFor(e, s)) <==>
            e.discardedCount as real == bound
    ensures ConditionHolds(Condition("extraction.min_confidence", Ge, Num(bound)), FieldsFor(e, s)) <==>
            e.minConfidence.Some? && e.minConfidence.value >= bound
    ensures ConditionHolds(Condition("procedure.tier1_enabled", Eq, Bool(true)), FieldsFor(e, s)) <==> s.tier1Enabled == Some(true)
    ensures ConditionHolds(Condition("procedure.clear_cut", Eq, Bool(true)), FieldsFor(e, s)) <==> s.clearCut
  {
    hide FieldsFor;
    FieldsCarryEvidence(e, s);
  }

  /** A row asks for all of its conditions. */
  lemma {:induction false} RowAsksAll(rowId: string, tier: Tier, conditions: seq<Condition>, last: Condition, fields: Context)
    ensures RowHolds(Row(rowId, tier, []), fields)
    ensures RowHolds(Row(rowId, tier, conditions + [last]), fields) <==>
            RowHolds(Row(rowId, tier, conditions), fields) && ConditionHolds(last, fields)
  {
    hide ConditionHolds;
    var all := conditions + [last];
    assert all[|conditions|] == last && forall i | 0 <= i < |conditions| :: all[i] == conditions[i];
  }

  /** The least index whose row holds, or the number of rows. */
  function FirstMatch(rows: seq<Row>, fields: Context): (i: nat)
    ensures i <= |rows|
    ensures i < |rows| ==> RowHolds(rows[i], fields)
    ensures forall k | 0 <= k < i :: !RowHolds(rows[k], fields)
  {
    if rows == [] then 0
    else if RowHolds(rows[0], fields) then 0
    else 1 + FirstMatch(rows[1..], fields)
  }

  const DEFAULT_TIER: Tier := 3
  const DEFAULT_ROW_ID := "default"
  const ERROR_ROW_ID := "error"
  const AUDIT_SAMPLE_RULE_ID := "audit_sample"

  function RowTier(rows: seq<Row>, fields: Context): Tier {
    var i := FirstMatch(rows, fields);
    if i < |rows| then rows[i].tier else DEFAULT_TIER
  }

  datatype ReasonKind = QUALIFIED | FAILED | DOWNGRADED | DEFAULTED | ERROR | SAMPLED
  datatype Reason = Reason(kind: ReasonKind, ruleId: string)

  function RowReasons(rows: seq<Row>, fields: Context): (r: seq<Reason>)
    ensures |r| == FirstMatch(rows, fields) + 1
  {
    var i := FirstMatch(rows, fields);
    seq(i, k requires 0 <= k < i => Reason(FAILED, rows[k].rowId))
    + [if i < |rows| then Reason(QUALIFIED, rows[i].rowId) else Reason(DEFAULTED, DEFAULT_ROW_ID)]
  }

  method EvaluateRows(table: Table, fields: Context) returns (tier: Tier, reasons: seq<Reason>)
    ensures tier == RowTier(table.rows, fields) && reasons == RowReasons(table.rows, fields)
  {
    reasons := [];
    for i := 0 to |table.rows|
      invariant forall k | 0 <= k < i :: !RowHolds(table.rows[k], fields)
      invariant reasons == seq(i, k requires 0 <= k < i => Reason(FAILED, table.rows[k].rowId))
    {
      var row := table.rows[i];
      var failed: seq<Condition> := [];
      for j := 0 to |row.whenAll|
        invariant failed == [] <==> forall k | 0 <= k < j :: ConditionHolds(row.whenAll[k], fields)
      {
        if !ConditionHolds(row.whenAll[j], fields) {
          failed := failed + [row.whenAll[j]];
        }
      }
      if failed == [] {
        return row.tier, reasons + [Reason(QUALIFIED, row.rowId)];
      }
      reasons := reasons + [Reason(FAILED, row.rowId)];
    }
    return DEFAULT_TIER, reasons + [Reason(DEFAULTED, DEFAULT_ROW_ID)];
  }

  // ----- downgrades -----

  function AnomalyFields(a: Anomaly): Context {
    map[SCORE_FIELD := Num(a.score), FLAGGED_FIELD := Bool(a.flagged)]
  }

  predicate Fired(rule: DowngradeRule, a: Anomaly) {
    forall i | 0 <= i < |rule.whenAll| ::
      CompareOp(rule.whenAll[i].op, Get(AnomalyFields(a), rule.whenAll[i].field), rule.whenAll[i].value)
  }

  /** What the downgrade conditions ask of an anomaly, and that a rule asks for all of its conditions. */
  lemma {:induction false} DowngradesAsk(ruleId: string, conditions: seq<Condition>, last: Condition, a: Anomaly, bound: real)
    ensures Fired(DowngradeRule(ruleId, []), a)
    ensures Fired(DowngradeRule(ruleId, [Condition(SCORE_FIELD, Ge, Num(bound))]), a) <==> a.score >= bound
    ensures Fired(DowngradeRule(ruleId, [Condition(SCORE_FIELD, Gt, Num(bound))]), a) <==> a.score > bound
    ensures Fired(DowngradeRule(ruleId, [Condition(FLAGGED_FIELD, Eq, Bool(true))]), a) <==> a.flagged
    ensures Fired(DowngradeRule(ruleId, conditions + [last]), a) <==>
            Fired(DowngradeRule(ruleId, conditions), a) && Fired(DowngradeRule(ruleId, [last]), a)
  {
    hide CompareOp, AnomalyFields;
    AnomalyFieldsAre(a);
    NumbersCompare(a.score, bound);
    FiredOne(ruleId, Condition(SCORE_FIELD, Ge, Num(bound)), a);
    FiredOne(ruleId, Condition(SCORE_FIELD, Gt, Num(bound)), a);
    FiredOne(ruleId, Condition(FLAGGED_FIELD, Eq, Bool(true)), a);
    FlagsCompare(a.flagged);
    var all := conditions + [last];
    assert all[|conditions|] == last && forall i | 0 <= i < |conditions| :: all[i] == conditions[i];
    assert [last][0] == last;
  }

  lemma {:induction false} FiredOne(ruleId: string, c: Condition, a: Anomaly)
    ensures Fired(DowngradeRule(ruleId, [c]), a) <==> CompareOp(c.op, Get(AnomalyFields(a), c.field), c.value)
  {
    hide CompareOp, AnomalyFields;
    assert [c][0] == c;
  }

  lemma {:induction false} AnomalyFieldsAre(a: Anomaly)
    ensures Get(AnomalyFields(a), SCORE_FIELD) == Num(a.score)
    ensures Get(AnomalyFields(a), FLAGGED_FIELD) == Bool(a.flagged)
  {
    assert FLAGGED_FIELD[8] != SCORE_FIELD[8];
  }

  lemma {:induction false} NumbersCompare(x: real, y: real)
    ensures CompareOp(Ge, Num(x), Num(y)) <==> x >= y
    ensures CompareOp(Gt, Num(x), Num(y)) <==> x > y
  {
  }

  lemma {:induction false} FlagsCompare(b: bool)
    ensures CompareOp(Eq, Bool(b), Bool(true)) <==> b
  {
  }

  /** On the score, the validator lets through exactly the conditions on a number that a higher score can
      never switch off, membership aside. */
  lemma {:induction false} ScoreConditionsValidIff(op: Op, bound: real)
    requires op != In
    ensures ValidDowngrade(Condition(SCORE_FIELD, op, Num(bound))) <==>
            forall low: real, high: real | low <= high ::
              CompareOp(op, Num(low), Num(bound)) ==> CompareOp(op, Num(high), Num(bound))
  {
    assert FLAGGED_FIELD[8] != SCORE_FIELD[8];
    var low, high := Num(bound - 1.0), Num(bound + 1.0);
    match op
    case Eq => assert CompareOp(op, Num(bound), Num(bound)) && !CompareOp(op, high, Num(bound));
    case Ne => assert CompareOp(op, low, Num(bound)) && !CompareOp(op, Num(bound), Num(bound));
    case Lt => assert CompareOp(op, low, Num(bound)) && !CompareOp(op, high, Num(bound));
    case Le => assert CompareOp(op, low, Num(bound)) && !CompareOp(op, high, Num(bound));
    case _ =>
  }

  datatype DowngradeOutcome = DowngradeOutcome(ruleId: string, toTier: Tier, fired: bool, applied: bool)

  function Outcomes(a: Option<Anomaly>, rules: seq<DowngradeRule>, enforcing: bool): (r: seq<DowngradeOutcome>)
    ensures |r| == if a.None? then 0 else |rules|
    ensures forall i | 0 <= i < |r| ::
              var fired := Fired(rules[i], a.value);
              r[i] == DowngradeOutcome(rules[i].rowId, 3, fired, fired && enforcing)
  {
    if a.None? then []
    else seq(|rules|, i requires 0 <= i < |rules| =>
           var fired := Fired(rules[i], a.value);
           DowngradeOutcome(rules[i].rowId, 3, fired, fired && enforcing))
  }

  method EvaluateDowngrades(a: Option<Anomaly>, table: Table, enforcing: bool) returns (r: seq<DowngradeOutcome>)
    ensures r == Outcomes(a, table.downgrades, enforcing)
  {
    r := [];
    if a.None? {
      return;
    }
    for i := 0 to |table.downgrades|
      invariant r == Outcomes(a, table.downgrades, enforcing)[..i]
    {
      var rule := table.downgrades[i];
      var fired := Fired(rule, a.value);
      r := r + [DowngradeOutcome(rule.rowId, 3, fired, fired && enforcing)];
    }
  }

  /** Rule ids of the applied outcomes, in table order. */
  function Applied(outcomes: seq<DowngradeOutcome>): seq<string> {
    if outcomes == [] then []
    else
      var n := |outcomes| - 1;
      Applied(outcomes[..n]) + if outcomes[n].applied then [outcomes[n].ruleId] else []
  }

  function DowngradeReasons(ids: seq<string>): (r: seq<Reason>)
    ensures |r| == |ids| && forall i | 0 <= i < |r| :: r[i] == Reason(DOWNGRADED, ids[i])
  {
    seq(|ids|, i requires 0 <= i < |ids| => Reason(DOWNGRADED, ids[i]))
  }

  // ----- the audit draw -----

  datatype AuditSample = AuditSample(draw: real, sampled: bool)
  datatype Fault = SaltTooLong

  predicate SamplingOn(risk: Risk, salt: Option<string>) {
    risk.rate > 0.0 && salt.Some? && salt.value != ""
  }

  /** Sampling is off, or the salt fits the keyed hash. */
  predicate SaltUsable(s: Setting) {
    SamplingOn(s.risk, s.salt) ==> s.draws.bytes(s.salt.value) <= MAX_SALT_BYTES
  }

  function Draw(caseId: string, s: Setting): Result<Option<AuditSample>, Fault> {
    if !SamplingOn(s.risk, s.salt) then Ok(None)
    else if s.draws.bytes(s.salt.value) > MAX_SALT_BYTES then Err(SaltTooLong)
    else
      var draw := s.draws.draw(caseId, s.salt.value);
      Ok(Some(AuditSample(draw, draw < s.risk.rate)))
  }

  /** Sampling is off without a rate above 0 and a salt; a salt of up to 64 bytes draws by case id and salt
      alone, and the item is taken when its draw lies below the rate; a longer salt is refused. */
  lemma {:induction false} DrawIs(caseId: string, s: Setting)
    ensures (s.risk.rate <= 0.0 || s.salt == None || s.salt == Some("")) <==> Draw(caseId, s) == Ok(None)
    ensures s.risk.rate > 0.0 && s.salt.Some? && s.salt.value != "" ==>
              if s.draws.bytes(s.salt.value) <= 64
              then Draw(caseId, s) == Ok(Some(AuditSample(s.draws.draw(caseId, s.salt.value),
                                                          s.draws.draw(caseId, s.salt.value) < s.risk.rate)))
              else Draw(caseId, s) == Err(SaltTooLong)
    ensures SaltUsable(s) <==> Draw(caseId, s).Ok?
  {
  }

  // ----- the decision -----

  datatype Record = Record(tier: Tier, preDowngradeTier: Tier, routedUnit: Option<string>, reasons: seq<Reason>)

  const ERROR_RECORD := Record(3, 3, None, [Reason(ERROR, ERROR_ROW_ID)])

  predicate Sampled(caseId: string, s: Setting) {
    Draw(caseId, s).Ok? && Draw(caseId, s).value.Some? && Draw(caseId, s).value.value.sampled
  }

  function AppliedRules(a: Option<Anomaly>, s: Setting): seq<string> {
    Applied(Outcomes(a, s.table.downgrades, s.risk.enforcing))
  }

  /** The decision once the qualifying fields and the addressee are known. */
  function DecideOn(fields: Context, unit: Option<string>, caseId: string, a: Option<Anomaly>, s: Setting): Record {
    if Draw(caseId, s).Err? then ERROR_RECORD
    else
      var pre := RowTier(s.table.rows, fields);
      var applied := AppliedRules(a, s);
      var downgraded: Tier := if applied == [] then pre else 3;
      var drawn := Sampled(caseId, s) && downgraded < 3;
      Record(if drawn then 3 else downgraded, pre, unit,
             RowReasons(s.table.rows, fields) + DowngradeReasons(applied)
             + if drawn then [Reason(SAMPLED, AUDIT_SAMPLE_RULE_ID)] else [])
  }

  function FieldsFor(e: Evidence, s: Setting): Context {
    QualifyingFields(e, s.tier1Enabled, s.clearCut, s.sources)
  }

  function Decide(e: Evidence, a: Option<Anomaly>, s: Setting): Record {
    DecideOn(FieldsFor(e, s), RoutedUnit(e.routing, s.sources), e.caseId, a, s)
  }

  lemma {:induction false} AppliedNone(outcomes: seq<DowngradeOutcome>)
    ensures Applied(outcomes[..0]) == [] && DowngradeReasons([]) == []
  {
  }

  lemma {:induction false} AppliedStep(outcomes: seq<DowngradeOutcome>, i: nat)
    requires i < |outcomes|
    ensures Applied(outcomes[..i+1]) ==
            Applied(outcomes[..i]) + if outcomes[i].applied then [outcomes[i].ruleId] else []
    ensures DowngradeReasons(Applied(outcomes[..i+1])) ==
            DowngradeReasons(Applied(outcomes[..i]))
            + if outcomes[i].applied then [Reason(DOWNGRADED, outcomes[i].ruleId)] else []
  {
    assert outcomes[..i+1][..i] == outcomes[..i];
  }

  method DecideItem(e: Evidence, a: Option<Anomaly>, s: Setting) returns (r: Record)
    ensures r == Decide(e, a, s)
  {
    hide QualifyingFields, ResolvedFields, FirstMatch, RowTier, RowReasons, RoutedUnit, Outcomes, Applied, DowngradeReasons;
    var fields := QualifyingFields(e, s.tier1Enabled, s.clearCut, s.sources);
    var pre, reasons := EvaluateRows(s.table, fields);
    ghost var rowReasons := reasons;
    var tier: Tier := pre;
    var outcomes := EvaluateDowngrades(a, s.table, s.risk.enforcing);
    AppliedNone(outcomes);
    for i := 0 to |outcomes|
      invariant reasons == rowReasons + DowngradeReasons(Applied(outcomes[..i]))
      invariant tier == if Applied(outcomes[..i]) == [] then pre else 3
    {
      AppliedStep(outcomes, i);
      if outcomes[i].applied {
        tier := MaxTier(tier, outcomes[i].toTier);
        reasons := reasons + [Reason(DOWNGRADED, outcomes[i].ruleId)];
      }
    }
    assert outcomes[..|outcomes|] == outcomes;
    match Draw(e.caseId, s) {
      case Err(_) =>
        return ERROR_RECORD;
      case Ok(sample) =>
        if sample.Some? && sample.value.sampled && tier in {1, 2} {
          tier := 3;
          reasons := reasons + [Reason(SAMPLED, AUDIT_SAMPLE_RULE_ID)];
        }
    }
    r := Record(tier, pre, RoutedUnit(e.routing, s.sources), reasons);
  }

  // ----- the one-way valve -----

  /** `b` is at least as alarming as `a`; no anomaly evidence is the weakest of all. */
  ghost predicate AtLeastAsStrong(b: Option<Anomaly>, a: Option<Anomaly>) {
    a.Some? ==> b.Some? && a.value.score <= b.value.score && (a.value.flagged ==> b.value.flagged)
  }

  lemma {:induction false} FiredIsMonotone(rule: DowngradeRule, a: Anomaly, b: Anomaly)
    requires forall c | c in rule.whenAll :: ValidDowngrade(c)
    requires a.score <= b.score && (a.flagged ==> b.flagged)
    requires Fired(rule, a)
    ensures Fired(rule, b)
  {
    assert SCORE_FIELD[8] != FLAGGED_FIELD[8];
    forall i | 0 <= i < |rule.whenAll|
      ensures CompareOp(rule.whenAll[i].op, Get(AnomalyFields(b), rule.whenAll[i].field), rule.whenAll[i].value)
    {
      var c := rule.whenAll[i];
      assert ValidDowngrade(c);
      assert CompareOp(c.op, Get(AnomalyFields(a), c.field), c.value);
    }
  }

  lemma {:induction false} AppliedNonEmptyIff(outcomes: seq<DowngradeOutcome>)
    ensures Applied(outcomes) != [] <==> exists i | 0 <= i < |outcomes| :: outcomes[i].applied
  {
    if outcomes != [] {
      var n := |outcomes| - 1;
      AppliedNonEmptyIff(outcomes[..n]);
      assert forall i | 0 <= i < n :: outcomes[..n][i] == outcomes[i];
    }
  }

  lemma {:induction false} AppliedIsMonotone(a: Option<Anomaly>, b: Option<Anomaly>, s: Setting)
    requires ValidTable(s.table) && AtLeastAsStrong(b, a) && AppliedRules(a, s) != []
    ensures AppliedRules(b, s) != []
  {
    var rules := s.table.downgrades;
    AppliedNonEmptyIff(Outcomes(a, rules, s.risk.enforcing));
    AppliedNonEmptyIff(Outcomes(b, rules, s.risk.enforcing));
    var i :| 0 <= i < |rules| && Outcomes(a, rules, s.risk.enforcing)[i].applied;
    FiredIsMonotone(rules[i], a.value, b.value);
    assert Outcomes(b, rules, s.risk.enforcing)[i].applied;
  }

  /** More anomaly evidence never means less oversight. */
  lemma {:induction false} OneWayValve(e: Evidence, a: Option<Anomaly>, b: Option<Anomaly>, s: Setting)
    requires ValidTable(s.table) && AtLeastAsStrong(b, a)
    ensures Decide(e, a, s).tier <= Decide(e, b, s).tier
  {
    hide QualifyingFields, ResolvedFields;
    if AppliedRules(a, s) != [] {
      AppliedIsMonotone(a, b, s);
    }
  }

  /** Sampling more items never lowers a tier. */
  lemma {:induction false} SamplingOnlyAdds(e: Evidence, a: Option<Anomaly>, s: Setting, rate: real)
    requires s.risk.rate <= rate
    ensures Decide(e, a, s).tier <= Decide(e, a, s.(risk := s.risk.(rate := rate))).tier
  {
    hide QualifyingFields, ResolvedFields;
    var s' := s.(risk := s.risk.(rate := rate));
    assert FieldsFor(e, s) == FieldsFor(e, s');
    assert AppliedRules(a, s) == AppliedRules(a, s');
    if Draw(e.caseId, s').Ok? {
      assert Sampled(e.caseId, s) ==> Sampled(e.caseId, s');
    }
  }

  /** Nothing ever moves an item below the tier its rows gave it, and outside the error path
      that tier and the addressee are the rows' and the rules' alone. */
  lemma {:induction false} RowsGovern(e: Evidence, a: Option<Anomaly>, s: Setting)
    ensures Decide(e, a, s).tier >= Decide(e, a, s).preDowngradeTier
    ensures Decide(e, a, s) == ERROR_RECORD <==> !SaltUsable(s)
    ensures SaltUsable(s) ==>
              forall b: Option<Anomaly>, risk: Risk, salt: Option<string> ::
                var other := s.(risk := risk, salt := salt);
                SaltUsable(other) ==>
                  && Decide(e, b, other).preDowngradeTier == Decide(e, a, s).preDowngradeTier
                  && Decide(e, b, other).routedUnit == Decide(e, a, s).routedUnit
  {
    hide QualifyingFields, ResolvedFields;
    if SaltUsable(s) {
      assert Decide(e, a, s).reasons[|RowReasons(s.table.rows, FieldsFor(e, s))| - 1].kind != ERROR;
      forall b: Option<Anomaly>, risk: Risk, salt: Option<string> | SaltUsable(s.(risk := risk, salt := salt))
        ensures Decide(e, b, s.(risk := risk, salt := salt)).preDowngradeTier == Decide(e, a, s).preDowngradeTier
        ensures Decide(e, b, s.(risk := risk, salt := salt)).routedUnit == Decide(e, a, s).routedUnit
      {
        assert FieldsFor(e, s.(risk := risk, salt := salt)) == FieldsFor(e, s);
      }
    }
  }

  /** Log-only means log-only: the whole record is the one without a scorer. */
  lemma {:induction false} LogOnlyIsInert(e: Evidence, a: Option<Anomaly>, s: Setting)
    requires !s.risk.enforcing
    ensures Decide(e, a, s) == Decide(e, None, s)
  {
    hide QualifyingFields, ResolvedFields;
    AppliedNonEmptyIff(Outcomes(a, s.table.downgrades, false));
  }

  // ----- missing evidence -----

  /** The same fields with `lost` no longer resolvable. */
  ghost function Without(fields: Context, lost: set<string>): Context {
    map f | f in fields && f !in lost :: fields[f]
  }

  lemma {:induction false} RowHoldsWithout(row: Row, fields: Context, lost: set<string>)
    ensures RowHolds(row, Without(fields, lost)) <==>
            RowHolds(row, fields) && forall i | 0 <= i < |row.whenAll| :: row.whenAll[i].field !in lost
  {
    if RowHolds(row, Without(fields, lost)) {
      forall i | 0 <= i < |row.whenAll|
        ensures ConditionHolds(row.whenAll[i], fields) && row.whenAll[i].field !in lost
      {
        assert ConditionHolds(row.whenAll[i], Without(fields, lost));
      }
    }
    if RowHolds(row, fields) && forall i | 0 <= i < |row.whenAll| :: row.whenAll[i].field !in lost {
      forall i | 0 <= i < |row.whenAll|
        ensures ConditionHolds(row.whenAll[i], Without(fields, lost))
      {
        assert ConditionHolds(row.whenAll[i], fields);
      }
    }
  }

  function FieldsOf(row: Row): (r: set<string>)
    ensures forall i | 0 <= i < |row.whenAll| :: row.whenAll[i].field in r
  {
    set i | 0 <= i < |row.whenAll| :: row.whenAll[i].field
  }

  /** Row `j` holds, gives a better tier than the table does, and every row before it that
      holds rests on a field that row `j` does not need. */
  predicate Undercuts(rows: seq<Row>, fields: Context, j: nat) {
    && j < |rows|
    && RowHolds(rows[j], fields)
    && rows[j].tier < RowTier(rows, fields)
    && forall k | 0 <= k < j && RowHolds(rows[k], fields) :: !(FieldsOf(rows[k]) <= FieldsOf(rows[j]))
  }

  predicate Undercut(rows: seq<Row>, fields: Context) {
    exists j | 0 <= j < |rows| :: Undercuts(rows, fields, j)
  }

  predicate RisingTiers(rows: seq<Row>) {
    forall i, j | 0 <= i < j < |rows| :: rows[i].tier <= rows[j].tier
  }

  /** Losing fields can better the row tier exactly when some later row undercuts. */
  lemma {:induction false} LosingFieldsIff(rows: seq<Row>, fields: Context)
    ensures (forall lost: set<string> :: RowTier(rows, Without(fields, lost)) >= RowTier(rows, fields))
            <==> !Undercut(rows, fields)
  {
    if Undercut(rows, fields) {
      var j :| 0 <= j < |rows| && Undercuts(rows, fields, j);
      var lost := fields.Keys - FieldsOf(rows[j]);
      LostLeavesRow(rows, fields, j, lost);
      assert RowTier(rows, Without(fields, lost)) < RowTier(rows, fields);
    } else {
      forall lost: set<string>
        ensures RowTier(rows, Without(fields, lost)) >= RowTier(rows, fields)
      {
        BetterNeedsUndercut(rows, fields, lost);
      }
    }
  }

  lemma {:induction false} LostLeavesRow(rows: seq<Row>, fields: Context, j: nat, lost: set<string>)
    requires j < |rows| && Undercuts(rows, fields, j) && lost == fields.Keys - FieldsOf(rows[j])
    ensures FirstMatch(rows, Without(fields, lost)) == j
  {
    RowHoldsWithout(rows[j], fields, lost);
    forall k | 0 <= k < j
      ensures !RowHolds(rows[k], Without(fields, lost))
    {
      RowHoldsWithout(rows[k], fields, lost);
      if RowHolds(rows[k], fields) {
        var f :| f in FieldsOf(rows[k]) && f !in FieldsOf(rows[j]);
        var i :| 0 <= i < |rows[k].whenAll| && rows[k].whenAll[i].field == f;
        assert ConditionHolds(rows[k].whenAll[i], fields);
        assert f in lost;
      }
    }
  }

  lemma {:induction false} BetterNeedsUndercut(rows: seq<Row>, fields: Context, lost: set<string>)
    ensures RowTier(rows, Without(fields, lost)) < RowTier(rows, fields) ==> Undercut(rows, fields)
  {
    var j := FirstMatch(rows, Without(fields, lost));
    if j < |rows| && rows[j].tier < RowTier(rows, fields) {
      RowHoldsWithout(rows[j], fields, lost);
      forall k | 0 <= k < j && RowHolds(rows[k], fields)
        ensures !(FieldsOf(rows[k]) <= FieldsOf(rows[j]))
      {
        RowHoldsWithout(rows[k], fields, lost);
        var i :| 0 <= i < |rows[k].whenAll| && rows[k].whenAll[i].field in lost;
        assert rows[k].whenAll[i].field in FieldsOf(rows[k]);
      }
      assert Undercuts(rows, fields, j);
    }
  }

  /** The full decision: unless an error, an applied downgrade or the draw already sends the
      item to tier 3, missing evidence can only add oversight exactly when no row undercuts. */
  lemma {:induction false} MissingEvidenceIff(fields: Context, unit: Option<string>, caseId: string,
                                             a: Option<Anomaly>, s: Setting)
    ensures (forall lost: set<string> ::
               DecideOn(Without(fields, lost), unit, caseId, a, s).tier >= DecideOn(fields, unit, caseId, a, s).tier)
            <==> !SaltUsable(s) || AppliedRules(a, s) != [] || Sampled(caseId, s) || !Undercut(s.table.rows, fields)
  {
    LosingFieldsIff(s.table.rows, fields);
    if SaltUsable(s) && AppliedRules(a, s) == [] && !Sampled(caseId, s) {
      forall lost: set<string>
        ensures DecideOn(Without(fields, lost), unit, caseId, a, s).tier == RowTier(s.table.rows, Without(fields, lost))
      {
      }
      assert DecideOn(fields, unit, caseId, a, s).tier == RowTier(s.table.rows, fields);
    }
  }

  /** With `lost` unresolvable, row `j` becomes the first that holds, and it has a better tier. */
  predicate BettersWithout(rows: seq<Row>, fields: Context, lost: set<string>, j: nat) {
    && j < |rows| && RowHolds(rows[j], fields) && rows[j].tier < RowTier(rows, fields)
    && FieldsOf(rows[j]) !! lost
    && forall k | 0 <= k < j && RowHolds(rows[k], fields) :: !(FieldsOf(rows[k]) !! lost)
  }

  lemma {:induction false} StaysWithout(row: Row, fields: Context, lost: set<string>)
    ensures RowHolds(row, Without(fields, lost)) <==> RowHolds(row, fields) && FieldsOf(row) !! lost
  {
    RowHoldsWithout(row, fields, lost);
    if i :| 0 <= i < |row.whenAll| && row.whenAll[i].field in lost {
      assert row.whenAll[i].field in FieldsOf(row);
    }
  }

  /** Losing just these fields betters the row tier exactly when some row betters without them. */
  lemma {:induction false} LosingTheseIff(rows: seq<Row>, fields: Context, lost: set<string>)
    ensures RowTier(rows, Without(fields, lost)) < RowTier(rows, fields)
            <==> exists j | 0 <= j < |rows| :: BettersWithout(rows, fields, lost, j)
  {
    hide RowHolds, Without, FieldsOf;
    var first := FirstMatch(rows, Without(fields, lost));
    forall k | 0 <= k < |rows|
      ensures RowHolds(rows[k], Without(fields, lost)) <==> RowHolds(rows[k], fields) && FieldsOf(rows[k]) !! lost
    {
      StaysWithout(rows[k], fields, lost);
    }
    if j :| 0 <= j < |rows| && BettersWithout(rows, fields, lost, j) {
      assert first == j;
    }
    if RowTier(rows, Without(fields, lost)) < RowTier(rows, fields) {
      assert BettersWithout(rows, fields, lost, first);
    }
  }

  lemma {:induction false} SameFieldsSameMatch(rows: seq<Row>, fields: Context, fields': Context)
    requires forall f :: Get(fields, f) == Get(fields', f)
    ensures FirstMatch(rows, fields) == FirstMatch(rows, fields')
  {
    hide Get;
    forall k | 0 <= k < |rows|
      ensures RowHolds(rows[k], fields) <==> RowHolds(rows[k], fields')
    {
    }
  }

  /** An item without extraction confidence has the fields of the item with it, less that one. */
  lemma {:induction false} LostConfidence(e: Evidence, s: Setting, f: string)
    ensures Get(FieldsFor(e.(minConfidence := None), s), f) == Get(Without(FieldsFor(e, s), {CONFIDENCE_FIELD}), f)
  {
    hide ResolvedFields, CONFIDENCE_FIELD;
    SameResolved(e, s);
  }

  lemma {:induction false} SameResolved(e: Evidence, s: Setting)
    ensures ResolvedFields(e.(minConfidence := None), s.tier1Enabled, s.clearCut, s.sources)
            == ResolvedFields(e, s.tier1Enabled, s.clearCut, s.sources)
  {
    hide Admitted, BestIndex;
  }

  /** The evidence the code can receive: for any table and setting, an item does better without its
      extraction confidence exactly when nothing else decides the tier and some row with a better
      tier holds without asking for it, while every row before it that holds asks. */
  lemma {:induction false} ConfidenceLossIff(e: Evidence, a: Option<Anomaly>, s: Setting)
    ensures Decide(e.(minConfidence := None), a, s).tier < Decide(e, a, s).tier <==>
            && SaltUsable(s) && AppliedRules(a, s) == [] && !Sampled(e.caseId, s)
            && exists j | 0 <= j < |s.table.rows| :: BettersWithout(s.table.rows, FieldsFor(e, s), {CONFIDENCE_FIELD}, j)
  {
    hide QualifyingFields, ResolvedFields, BettersWithout, FirstMatch, Without;
    var e' := e.(minConfidence := None);
    var without := Without(FieldsFor(e, s), {CONFIDENCE_FIELD});
    forall f
      ensures Get(FieldsFor(e', s), f) == Get(without, f)
    {
      LostConfidence(e, s, f);
    }
    SameFieldsSameMatch(s.table.rows, FieldsFor(e', s), without);
    LosingTheseIff(s.table.rows, FieldsFor(e, s), {CONFIDENCE_FIELD});
    assert RowTier(s.table.rows, FieldsFor(e', s)) == RowTier(s.table.rows, without);
  }

  /** Tables whose tiers never fall from row to row are always safe. */
  lemma {:induction false} OrderedTablesAreSafe(fields: Context, lost: set<string>, unit: Option<string>,
                                               caseId: string, a: Option<Anomaly>, s: Setting)
    requires RisingTiers(s.table.rows)
    ensures DecideOn(Without(fields, lost), unit, caseId, a, s).tier >= DecideOn(fields, unit, caseId, a, s).tier
  {
    var rows := s.table.rows;
    forall j | 0 <= j < |rows|
      ensures !Undercuts(rows, fields, j)
    {
      if RowHolds(rows[j], fields) {
        assert FirstMatch(rows, fields) <= j;
      }
    }
    assert !Undercut(rows, fields);
    MissingEvidenceIff(fields, unit, caseId, a, s);
  }

  /** The order of the tiers matters and the schema does not check it: a valid table, and an
      item that reaches tier 1 only because its extraction confidence went missing. */
  lemma {:induction false} UnorderedTableBetters(s: Setting, e: Evidence)
    requires s.table == Table([
      Row("careful", 2, [Condition(CONFIDENCE_FIELD, Ge, Num(0.0))]),
      Row("clear", 1, [Condition("procedure.clear_cut", Eq, Bool(true))])], [])
    requires s.clearCut && s.salt == None && e.minConfidence == Some(1.0)
    ensures ValidTable(s.table)
    ensures Decide(e, None, s).tier == 2 && Decide(e.(minConfidence := None), None, s).tier == 1
  {
    var rows := s.table.rows;
    var e' := e.(minConfidence := None);
    var f, f' := FieldsFor(e, s), FieldsFor(e', s);
    assert "extraction.min_confidence"[0] == 'e' && "procedure.clear_cut"[0] == 'p';
    assert ANOMALY_FIELD_PREFIX[0] == 'a';
    assert Get(f, "extraction.min_confidence") == Num(1.0);
    assert ConditionHolds(rows[0].whenAll[0], f);
    assert Get(f', "extraction.min_confidence") == Null;
    assert !ConditionHolds(rows[0].whenAll[0], f');
    assert Get(f', "procedure.clear_cut") == Bool(true);
    assert ConditionHolds(rows[1].whenAll[0], f');
    assert FirstMatch(rows, f) == 0;
    assert FirstMatch(rows, f') == 1;
  }

  // ----- reasons -----

  /** How many reasons at the front say a row failed. */
  function FailedPrefix(reasons: seq<Reason>): nat {
    if reasons == [] || reasons[0].kind != FAILED then 0 else 1 + FailedPrefix(reasons[1..])
  }

  /** The row tier as an auditor reads it off the reasons and the table. */
  function ReplayedRowTier(table: Table, reasons: seq<Reason>): Tier {
    var i := FailedPrefix(reasons);
    if i < |reasons| && i < |table.rows| && reasons[i].kind == QUALIFIED then table.rows[i].tier else 3
  }

  /** The final tier likewise: any downgrade, draw or error means tier 3. */
  function ReplayedTier(table: Table, reasons: seq<Reason>): Tier {
    if exists i | 0 <= i < |reasons| :: reasons[i].kind in {DOWNGRADED, SAMPLED, ERROR} then 3
    else ReplayedRowTier(table, reasons)
  }

  lemma {:induction false} FailedPrefixOf(n: nat, reasons: seq<Reason>)
    requires n < |reasons| && (forall k | 0 <= k < n :: reasons[k].kind == FAILED) && reasons[n].kind != FAILED
    ensures FailedPrefix(reasons) == n
  {
    if n > 0 {
      FailedPrefixOf(n - 1, reasons[1..]);
    }
  }

  /** The reasons are a complete account: with the table, they determine both tiers. */
  lemma {:induction false} ReasonsReplay(e: Evidence, a: Option<Anomaly>, s: Setting)
    ensures var r := Decide(e, a, s);
      r.preDowngradeTier == ReplayedRowTier(s.table, r.reasons) && r.tier == ReplayedTier(s.table, r.reasons)
  {
    hide QualifyingFields, ResolvedFields;
    var r := Decide(e, a, s);
    if SaltUsable(s) {
      var fields := FieldsFor(e, s);
      var i := FirstMatch(s.table.rows, fields);
      var rowReasons, applied := RowReasons(s.table.rows, fields), AppliedRules(a, s);
      assert forall k | 0 <= k <= i :: r.reasons[k] == rowReasons[k];
      FailedPrefixOf(i, r.reasons);
      if applied != [] {
        assert r.reasons[i + 1] == DowngradeReasons(applied)[0];
      } else if Sampled(e.caseId, s) && r.preDowngradeTier < 3 {
        assert r.reasons[i + 1] == Reason(SAMPLED, AUDIT_SAMPLE_RULE_ID);
      } else {
        assert r.reasons == rowReasons;
      }
    } else {
      assert r.reasons[0].kind == ERROR;
    }
  }

  /** Rule ids of the reasons of one kind, in order. */
  function IdsOfKind(reasons: seq<Reason>, kind: ReasonKind): seq<string> {
    if reasons == [] then []
    else (if reasons[0].kind == kind then [reasons[0].ruleId] else []) + IdsOfKind(reasons[1..], kind)
  }

  lemma {:induction false} IdsOfKindHead(first: Reason, rest: seq<Reason>, kind: ReasonKind)
    ensures IdsOfKind([first] + rest, kind) == (if first.kind == kind then [first.ruleId] else []) + IdsOfKind(rest, kind)
  {
    assert ([first] + rest)[1..] == rest;
  }

  lemma {:induction false} IdsOfKindConcat(x: seq<Reason>, y: seq<Reason>, kind: ReasonKind)
    ensures IdsOfKind(x + y, kind) == IdsOfKind(x, kind) + IdsOfKind(y, kind)
  {
    hide IdsOfKind;
    IdsOfKindNone(kind);
    if x == [] {
      assert x + y == y;
    } else {
      IdsOfKindConcat(x[1..], y, kind);
      IdsOfKindHead(x[0], x[1..], kind);
      IdsOfKindHead(x[0], x[1..] + y, kind);
      assert x == [x[0]] + x[1..] && x + y == [x[0]] + (x[1..] + y);
    }
  }

  lemma {:induction false} IdsOfKindNone(kind: ReasonKind)
    ensures IdsOfKind([], kind) == []
  {
  }

  lemma {:induction false} IdsOfUniform(x: seq<Reason>, kind: ReasonKind)
    requires forall i | 0 <= i < |x| :: x[i].kind == kind
    ensures IdsOfKind(x, kind) == seq(|x|, i requires 0 <= i < |x| => x[i].ruleId)
  {
    if x != [] {
      IdsOfUniform(x[1..], kind);
    }
  }

  lemma {:induction false} IdsOfAbsent(x: seq<Reason>, kind: ReasonKind)
    requires forall i | 0 <= i < |x| :: x[i].kind != kind
    ensures IdsOfKind(x, kind) == []
  {
    if x != [] {
      IdsOfAbsent(x[1..], kind);
    }
  }

  /** Every raise is explained and every explanation is true: the downgrades named are exactly
      the applied rules in table order, a draw is named exactly when it moved the item out of
      tier 1 or 2, and a tier above the rows' has one of the two beside it. */
  lemma {:induction false} ReasonsTellTheTruth(e: Evidence, a: Option<Anomaly>, s: Setting)
    requires SaltUsable(s)
    ensures var r := Decide(e, a, s);
      && IdsOfKind(r.reasons, DOWNGRADED) == AppliedRules(a, s)
      && (IdsOfKind(r.reasons, SAMPLED) == [AUDIT_SAMPLE_RULE_ID] <==>
          Sampled(e.caseId, s) && AppliedRules(a, s) == [] && r.preDowngradeTier < 3)
      && (IdsOfKind(r.reasons, SAMPLED) == [] || IdsOfKind(r.reasons, SAMPLED) == [AUDIT_SAMPLE_RULE_ID])
      && IdsOfKind(r.reasons, ERROR) == []
      && (r.tier > r.preDowngradeTier ==>
          IdsOfKind(r.reasons, DOWNGRADED) != [] || IdsOfKind(r.reasons, SAMPLED) != [])
  {
    hide QualifyingFields, ResolvedFields, FirstMatch, Applied, IdsOfKind;
    var r := Decide(e, a, s);
    var rowReasons, down := RowReasons(s.table.rows, FieldsFor(e, s)), DowngradeReasons(AppliedRules(a, s));
    var drawn := r.reasons[|rowReasons + down|..];
    assert r.reasons == rowReasons + down + drawn;
    assert drawn == [] || drawn == [Reason(SAMPLED, AUDIT_SAMPLE_RULE_ID)];
    ThreeParts(rowReasons, down, drawn);
    assert AppliedRules(a, s) == seq(|down|, i requires 0 <= i < |down| => down[i].ruleId);
  }

  lemma {:induction false} ThreeParts(rows: seq<Reason>, down: seq<Reason>, drawn: seq<Reason>)
    requires forall i | 0 <= i < |rows| :: rows[i].kind in {FAILED, QUALIFIED, DEFAULTED}
    requires forall i | 0 <= i < |down| :: down[i].kind == DOWNGRADED
    requires drawn == [] || drawn == [Reason(SAMPLED, AUDIT_SAMPLE_RULE_ID)]
    ensures IdsOfKind(rows + down + drawn, DOWNGRADED) == seq(|down|, i requires 0 <= i < |down| => down[i].ruleId)
    ensures IdsOfKind(rows + down + drawn, SAMPLED) == if drawn == [] then [] else [AUDIT_SAMPLE_RULE_ID]
    ensures IdsOfKind(rows + down + drawn, ERROR) == []
  {
    PartsOfKind(rows, down, drawn, DOWNGRADED);
    PartsOfKind(rows, down, drawn, SAMPLED);
    PartsOfKind(rows, down, drawn, ERROR);
    IdsOfUniform(down, DOWNGRADED);
    IdsOfAbsent(down, SAMPLED);
    IdsOfAbsent(down, ERROR);
    IdsOfAbsent(drawn, DOWNGRADED);
    IdsOfAbsent(drawn, ERROR);
    IdsOfUniform(drawn, SAMPLED);
  }

  lemma {:induction false} PartsOfKind(rows: seq<Reason>, down: seq<Reason>, drawn: seq<Reason>, kind: ReasonKind)
    requires forall i | 0 <= i < |rows| :: rows[i].kind != kind
    ensures IdsOfKind(rows + down + drawn, kind) == IdsOfKind(down, kind) + IdsOfKind(drawn, kind)
  {
    IdsOfKindConcat(rows + down, drawn, kind);
    IdsOfKindConcat(rows, down, kind);
    IdsOfAbsent(rows, kind);
    assert [] + IdsOfKind(down, kind) == IdsOfKind(down, kind);
  }

  /** The reader's test for an audit draw, in the shape journals have now or had before. */
  predicate IsAuditSampleReason(reason: Reason) {
    reason.kind == SAMPLED || (reason.kind == DOWNGRADED && reason.ruleId == AUDIT_SAMPLE_RULE_ID)
  }

  /** Readers tell draws from scorer findings exactly when no applied downgrade rule carries the
      draw's reserved rule id, which no schema forbids. */
  lemma {:induction false} AuditReadersAreRightIff(e: Evidence, a: Option<Anomaly>, s: Setting)
    requires SaltUsable(s)
    ensures (forall reason | reason in Decide(e, a, s).reasons ::
               IsAuditSampleReason(reason) <==> reason.kind == SAMPLED)
            <==> AUDIT_SAMPLE_RULE_ID !in AppliedRules(a, s)
  {
    hide QualifyingFields, ResolvedFields;
    hide FirstMatch, Applied;
    var r := Decide(e, a, s);
    var rowReasons, applied := RowReasons(s.table.rows, FieldsFor(e, s)), AppliedRules(a, s);
    var drawn := r.reasons[|rowReasons| + |applied|..];
    assert r.reasons == rowReasons + DowngradeReasons(applied) + drawn;
    AuditParts(rowReasons, applied, drawn);
  }

  /** A valid table whose downgrade rule carries the reserved id: the reader sees an audit draw where
      a scorer finding moved the item and nothing was ever drawn. */
  lemma {:induction false} FindingReadAsDraw(s: Setting, e: Evidence)
    requires s.table == Table([Row("clear", 1, [Condition("procedure.clear_cut", Eq, Bool(true))])],
                              [DowngradeRule(AUDIT_SAMPLE_RULE_ID, [Condition(FLAGGED_FIELD, Eq, Bool(true))])])
    requires s.risk == Risk(true, 0.0)
    ensures ValidTable(s.table)
    ensures var reasons := Decide(e, Some(Anomaly(1.0, true)), s).reasons;
      && Reason(DOWNGRADED, AUDIT_SAMPLE_RULE_ID) in reasons
      && IsAuditSampleReason(Reason(DOWNGRADED, AUDIT_SAMPLE_RULE_ID))
      && forall reason | reason in reasons :: reason.kind != SAMPLED
  {
    hide QualifyingFields, ResolvedFields, FirstMatch, ValidTable, AppliedRules;
    ClearTableIsValid(s.table);
    ReservedIdApplies(s);
    var rowReasons, down := RowReasons(s.table.rows, FieldsFor(e, s)), DowngradeReasons([AUDIT_SAMPLE_RULE_ID]);
    assert down[0] == Reason(DOWNGRADED, AUDIT_SAMPLE_RULE_ID);
    assert Decide(e, Some(Anomaly(1.0, true)), s).reasons == rowReasons + down;
  }

  lemma {:induction false} ReservedIdApplies(s: Setting)
    requires s.table.downgrades == [DowngradeRule(AUDIT_SAMPLE_RULE_ID, [Condition(FLAGGED_FIELD, Eq, Bool(true))])]
    requires s.risk.enforcing
    ensures AppliedRules(Some(Anomaly(1.0, true)), s) == [AUDIT_SAMPLE_RULE_ID]
  {
    hide Fired;
    var a := Anomaly(1.0, true);
    FlagFires(s.table.downgrades[0], a);
    var outcomes := Outcomes(Some(a), s.table.downgrades, true);
    assert outcomes == [DowngradeOutcome(AUDIT_SAMPLE_RULE_ID, 3, true, true)];
    AppliedStep(outcomes, 0);
    AppliedNone(outcomes);
    assert outcomes[..1] == outcomes;
  }

  lemma {:induction false} ClearTableIsValid(table: Table)
    requires table == Table([Row("clear", 1, [Condition("procedure.clear_cut", Eq, Bool(true))])],
                            [DowngradeRule(AUDIT_SAMPLE_RULE_ID, [Condition(FLAGGED_FIELD, Eq, Bool(true))])])
    ensures ValidTable(table)
  {
    assert "procedure.clear_cut"[0] != ANOMALY_FIELD_PREFIX[0];
  }

  lemma {:induction false} FlagFires(rule: DowngradeRule, a: Anomaly)
    requires rule.whenAll == [Condition(FLAGGED_FIELD, Eq, Bool(true))] && a.flagged
    ensures Fired(rule, a)
  {
    assert FLAGGED_FIELD[8] != SCORE_FIELD[8];
  }

  lemma {:induction false} AuditParts(rows: seq<Reason>, applied: seq<string>, drawn: seq<Reason>)
    requires forall i | 0 <= i < |rows| :: rows[i].kind in {FAILED, QUALIFIED, DEFAULTED}
    requires drawn == [] || drawn == [Reason(SAMPLED, AUDIT_SAMPLE_RULE_ID)]
    ensures (forall reason | reason in rows + DowngradeReasons(applied) + drawn ::
               IsAuditSampleReason(reason) <==> reason.kind == SAMPLED)
            <==> AUDIT_SAMPLE_RULE_ID !in applied
  {
    var down := DowngradeReasons(applied);
    if AUDIT_SAMPLE_RULE_ID in applied {
      var i :| 0 <= i < |applied| && applied[i] == AUDIT_SAMPLE_RULE_ID;
      assert down[i] in down;
      assert Reason(DOWNGRADED, AUDIT_SAMPLE_RULE_ID) in rows + down + drawn;
    } else {
      forall reason | reason in rows + down + drawn
        ensures IsAuditSampleReason(reason) <==> reason.kind == SAMPLED
      {
        if reason in down {
          var i :| 0 <= i < |down| && down[i] == reason;
          assert applied[i] in applied;
        }
      }
    }
  }

  // ----- admission -----

  /** `merged` is `base` with the suggestions of `extra` put in anywhere, in order. */
  ghost predicate Interleaves(merged: seq<Suggestion>, base: seq<Suggestion>, extra: seq<Suggestion>) {
    if merged == [] then base == [] && extra == []
    else
      || (base != [] && merged[0] == base[0] && Interleaves(merged[1..], base[1..], extra))
      || (extra != [] && merged[0] == extra[0] && Interleaves(merged[1..], base, extra[1..]))
  }

  lemma {:induction false} AdmittedIgnores(merged: seq<Suggestion>, base: seq<Suggestion>, extra: seq<Suggestion>,
                                          sources: set<Source>)
    requires Interleaves(merged, base, extra)
    requires forall x | x in extra :: x.source !in sources
    ensures Admitted(merged, sources) == Admitted(base, sources)
  {
    if merged != [] {
      if base != [] && merged[0] == base[0] && Interleaves(merged[1..], base[1..], extra) {
        AdmittedIgnores(merged[1..], base[1..], extra, sources);
      } else {
        assert extra[0] in extra;
        AdmittedIgnores(merged[1..], base, extra[1..], sources);
      }
    }
  }

  /** Suggestions from sources nobody admitted change nothing in the record, wherever they
      stand in the list and whatever confidence they claim. */
  lemma {:induction false} UnadmittedCannotInterfere(e: Evidence, merged: seq<Suggestion>, extra: seq<Suggestion>,
                                                    a: Option<Anomaly>, s: Setting)
    requires Interleaves(merged, e.routing, extra)
    requires forall x | x in extra :: x.source !in s.sources
    ensures Decide(e.(routing := merged), a, s) == Decide(e, a, s)
  {
    AdmittedIgnores(merged, e.routing, extra, s.sources);
  }
}
