/** One item through both planes (engine/pipeline.py), writing the append-only case journal
    (engine/journal/store.py). */
module Pipeline {
  import opened Predicates
  import opened Decision
  import opened Wrappers

  // ----- the journal -----

  datatype EventType = RECEIVED | REDACTED | EXTRACTED | EVIDENCE_ASSEMBLED | ANOMALY_SCORED | TIER_DECIDED | ROUTED

  datatype Payload =
    | Plain
    | Scored(anomaly: Anomaly)
    | Degraded
    | Decided(record: Record, downgrades: seq<DowngradeOutcome>, sample: Option<AuditSample>)
    | RoutedTo(unitId: string, tier: Tier)

  /** What an event says, without its id and position. */
  datatype Entry = Entry(kind: EventType, payload: Payload)

  datatype Event = Event(eventId: nat, caseId: string, sequence: nat, entry: Entry)

  datatype JournalError = SequenceConflict | DuplicateEvent

  function Entries(events: seq<Event>): (r: seq<Entry>)
    ensures |r| == |events| && forall i | 0 <= i < |r| :: r[i] == events[i].entry
  {
    seq(|events|, i requires 0 <= i < |events| => events[i].entry)
  }

  /** One case's log: numbered from 0 without gaps, no id twice, every id below the bound. */
  ghost predicate Numbered(log: seq<Event>, caseId: string, bound: nat) {
    && (forall i | 0 <= i < |log| :: log[i].sequence == i && log[i].caseId == caseId && log[i].eventId < bound)
    && (forall i, j | 0 <= i < j < |log| :: log[i].eventId != log[j].eventId)
  }

  lemma {:induction false} NumberedAppend(log: seq<Event>, event: Event, bound: nat)
    requires Numbered(log, event.caseId, bound) && event.sequence == |log| && event.eventId < bound
    requires forall i | 0 <= i < |log| :: log[i].eventId != event.eventId
    ensures Numbered(log + [event], event.caseId, bound)
  {
  }

  lemma {:induction false} NumberedWiden(log: seq<Event>, caseId: string, bound: nat, wider: nat)
    requires Numbered(log, caseId, bound) && bound <= wider
    ensures Numbered(log, caseId, wider)
  {
  }

  lemma {:induction false} AppendKeepsNumbered(log: seq<Event>, event: Event, bound: nat, wider: nat)
    requires log == [] || Numbered(log, event.caseId, bound)
    requires event.sequence == |log| && event.eventId < wider && bound <= wider
    requires forall i | 0 <= i < |log| :: log[i].eventId != event.eventId
    ensures Numbered(log + [event], event.caseId, wider)
  {
    if log == [] {
      assert Numbered([], event.caseId, wider);
    } else {
      NumberedWiden(log, event.caseId, bound, wider);
    }
    NumberedAppend(log, event, wider);
  }

  class JournalStore {
    var events: map<string, seq<Event>>
    /** Stands for the random ids: every id from here on is unused. */
    var nextId: nat

    ghost predicate Valid()
      reads this
    {
      forall c | c in events :: Numbered(events[c], c, nextId)
    }

    constructor ()
      ensures Valid() && forall c :: Read(c) == []
    {
      events := map[];
      nextId := 0;
    }

    function Read(caseId: string): seq<Event>
      reads this
    {
      if caseId in events then events[caseId] else []
    }

    function Log(caseId: string): seq<Entry>
      reads this
    {
      Entries(Read(caseId))
    }

    /** Refuses anything but the next sequence number and a new id; otherwise only appends. */
    method Append(event: Event) returns (r: Result<Event, JournalError>)
      requires Valid()
      modifies this
      ensures Valid()
      ensures r == if event.sequence != |old(Read(event.caseId))| then Err(SequenceConflict)
                   else if exists i | 0 <= i < |old(Read(event.caseId))| ::
                             old(Read(event.caseId))[i].eventId == event.eventId then Err(DuplicateEvent)
                   else Ok(event)
      ensures forall c :: Read(c) == if r.Ok? && c == event.caseId then old(Read(c)) + [event] else old(Read(c))
    {
      hide Numbered;
      var known := Read(event.caseId);
      if event.sequence != |known| {
        return Err(SequenceConflict);
      }
      if exists i | 0 <= i < |known| :: known[i].eventId == event.eventId {
        return Err(DuplicateEvent);
      }
      var bound := if nextId <= event.eventId then event.eventId + 1 else nextId;
      AppendKeepsNumbered(known, event, nextId, bound);
      forall c | c in events
        ensures Numbered(events[c], c, bound)
      {
        NumberedWiden(events[c], c, nextId, bound);
      }
      events, nextId := events[event.caseId := known + [event]], bound;
      r := Ok(event);
    }

    /** Appends the next event of a case under a fresh id. */
    method Emit(caseId: string, kind: EventType, payload: Payload)
      requires Valid()
      modifies this
      ensures Valid()
      ensures Log(caseId) == old(Log(caseId)) + [Entry(kind, payload)]
      ensures old(Read(caseId)) <= Read(caseId)
      ensures forall c | c != caseId :: Read(c) == old(Read(c))
    {
      var event := Event(nextId, caseId, |Read(caseId)|, Entry(kind, payload));
      var r := Append(event);
      assert Read(caseId) == old(Read(caseId)) + [event];
    }
  }

  // ----- scoring -----

  /** How a configured scorer behaves on the item. */
  datatype Scorer = Unavailable | Degrades | Scores(anomaly: Anomaly)

  datatype Scoring = Scoring(scorer: Scorer, salt: string)

  datatype Config = Config(table: Table, risk: Risk, tier1Enabled: Option<bool>, classifierEnabled: bool,
                           scoring: Option<Scoring>, draws: DrawEngine)

  /** What the earlier stages produced for one item; `given` is anomaly evidence handed in. */
  datatype Item = Item(evidence: Evidence, clearCut: bool, given: Option<Anomaly>)

  datatype ScoringOutcome = ScoringOutcome(evidence: Option<Anomaly>, degraded: bool)

  /** None means no scorer exists; a scorer that cannot run is a degradation. */
  function Score(config: Config): Option<ScoringOutcome> {
    if config.scoring.None? then None
    else
      match config.scoring.value.scorer
      case Unavailable => Some(ScoringOutcome(None, true))
      case Degrades => Some(ScoringOutcome(None, true))
      case Scores(a) => Some(ScoringOutcome(Some(a), false))
  }

  function AdmittedSources(config: Config): set<Source> {
    if config.classifierEnabled then {Rule, Classifier} else ADMITTED_ROUTING_SOURCES
  }

  function SettingOf(item: Item, config: Config): Setting {
    Setting(config.table, config.risk, config.tier1Enabled, item.clearCut, AdmittedSources(config),
            if config.scoring.Some? then Some(config.scoring.value.salt) else None, config.draws)
  }

  /** The anomaly evidence the decision gets to see. */
  function EffectiveAnomaly(item: Item, config: Config): Option<Anomaly> {
    if item.given.Some? then item.given
    else if Score(config).Some? then Score(config).value.evidence
    else None
  }

  // ----- what a run writes -----

  function AnomalyEntries(item: Item, config: Config): seq<Entry> {
    var a := EffectiveAnomaly(item, config);
    if a.Some? then [Entry(ANOMALY_SCORED, Scored(a.value))]
    else if Score(config).Some? then [Entry(ANOMALY_SCORED, Degraded)]
    else []
  }

  function DecisionEntries(item: Item, config: Config): seq<Entry>
    requires SaltUsable(SettingOf(item, config))
  {
    var s, a := SettingOf(item, config), EffectiveAnomaly(item, config);
    var record := Decide(item.evidence, a, s);
    [Entry(TIER_DECIDED, Decided(record, Outcomes(a, s.table.downgrades, s.risk.enforcing),
                                 Draw(item.evidence.caseId, s).value))]
    + if record.routedUnit.Some? then [Entry(ROUTED, RoutedTo(record.routedUnit.value, record.tier))] else []
  }

  const EVIDENCE_ENTRIES: seq<Entry> := [
    Entry(RECEIVED, Plain), Entry(REDACTED, Plain), Entry(EXTRACTED, Plain), Entry(EVIDENCE_ASSEMBLED, Plain)]

  /** The entries of one run; with an unusable salt it dies after the decision, before saying so. */
  function Trace(item: Item, config: Config): seq<Entry> {
    EVIDENCE_ENTRIES
    + AnomalyEntries(item, config)
    + if SaltUsable(SettingOf(item, config)) then DecisionEntries(item, config) else []
  }

  datatype RunResult = Completed(record: Record, anomaly: Option<Anomaly>) | Raised(fault: Fault)

  /** Ingest, text layer, extraction and evidence assembly each leave one event. */
  method JournalEvidence(caseId: string, journal: JournalStore)
    requires journal.Valid()
    modifies journal
    ensures journal.Valid()
    ensures journal.Log(caseId) == old(journal.Log(caseId)) + EVIDENCE_ENTRIES
    ensures old(journal.Read(caseId)) <= journal.Read(caseId)
    ensures forall c | c != caseId :: journal.Read(c) == old(journal.Read(c))
  {
    hide Entries, JournalStore.Valid, JournalStore.Read, JournalStore.Log;
    journal.Emit(caseId, RECEIVED, Plain);
    journal.Emit(caseId, REDACTED, Plain);
    journal.Emit(caseId, EXTRACTED, Plain);
    journal.Emit(caseId, EVIDENCE_ASSEMBLED, Plain);
  }

  /** Scores the item unless anomaly evidence was handed in, and journals what came of it. */
  method JournalAnomaly(item: Item, config: Config, journal: JournalStore) returns (anomaly: Option<Anomaly>)
    requires journal.Valid()
    modifies journal
    ensures journal.Valid()
    ensures anomaly == EffectiveAnomaly(item, config)
    ensures journal.Log(item.evidence.caseId) == old(journal.Log(item.evidence.caseId)) + AnomalyEntries(item, config)
    ensures old(journal.Read(item.evidence.caseId)) <= journal.Read(item.evidence.caseId)
    ensures forall c | c != item.evidence.caseId :: journal.Read(c) == old(journal.Read(c))
  {
    var caseId := item.evidence.caseId;
    anomaly := item.given;
    var scoring := if anomaly.None? then Score(config) else None;
    if scoring.Some? && scoring.value.evidence.Some? {
      anomaly := scoring.value.evidence;
    }
    if anomaly.Some? {
      journal.Emit(caseId, ANOMALY_SCORED, Scored(anomaly.value));
    } else if scoring.Some? && scoring.value.degraded {
      journal.Emit(caseId, ANOMALY_SCORED, Degraded);
    }
  }

  method JournalDecision(record: Record, a: Option<Anomaly>, caseId: string, s: Setting, journal: JournalStore)
    returns (r: Result<(), Fault>)
    requires journal.Valid()
    modifies journal
    ensures journal.Valid()
    ensures r.Ok? <==> SaltUsable(s)
    ensures journal.Log(caseId) == old(journal.Log(caseId)) +
              if !SaltUsable(s) then []
              else [Entry(TIER_DECIDED, Decided(record, Outcomes(a, s.table.downgrades, s.risk.enforcing),
                                                Draw(caseId, s).value))]
                   + if record.routedUnit.Some? then [Entry(ROUTED, RoutedTo(record.routedUnit.value, record.tier))]
                     else []
    ensures forall c | c != caseId :: journal.Read(c) == old(journal.Read(c))
    ensures old(journal.Read(caseId)) <= journal.Read(caseId)
  {
    var outcomes := EvaluateDowngrades(a, s.table, s.risk.enforcing);
    match Draw(caseId, s) {
      case Err(fault) =>
        return Err(fault);
      case Ok(sample) =>
        journal.Emit(caseId, TIER_DECIDED, Decided(record, outcomes, sample));
    }
    if record.routedUnit.Some? {
      journal.Emit(caseId, ROUTED, RoutedTo(record.routedUnit.value, record.tier));
    }
    return Ok(());
  }

  /** One item through the pipeline: nothing is rewritten, other cases are not touched. */
  method RunPipeline(item: Item, config: Config, journal: JournalStore) returns (r: RunResult)
    requires journal.Valid()
    modifies journal
    ensures journal.Valid()
    ensures journal.Log(item.evidence.caseId) == old(journal.Log(item.evidence.caseId)) + Trace(item, config)
    ensures old(journal.Read(item.evidence.caseId)) <= journal.Read(item.evidence.caseId)
    ensures forall c | c != item.evidence.caseId :: journal.Read(c) == old(journal.Read(c))
    ensures r.Completed? <==> SaltUsable(SettingOf(item, config))
    ensures r.Completed? ==>
              && r.anomaly == EffectiveAnomaly(item, config)
              && r.record == Decide(item.evidence, r.anomaly, SettingOf(item, config))
  {
    hide Decide, Outcomes, EffectiveAnomaly, AnomalyEntries, SettingOf, SaltUsable, Draw, Entries;
    hide JournalStore.Valid, JournalStore.Read, JournalStore.Log;
    var caseId := item.evidence.caseId;
    JournalEvidence(caseId, journal);
    var anomaly := JournalAnomaly(item, config, journal);
    var s := SettingOf(item, config);
    var record := DecideItem(item.evidence, anomaly, s);
    var done := JournalDecision(record, anomaly, caseId, s, journal);
    match done {
      case Ok(_) => r := Completed(record, anomaly);
      case Err(fault) => r := Raised(fault);
    }
  }

  // ----- what the journal can be trusted for -----

  function Rank(kind: EventType): nat {
    match kind
    case RECEIVED => 0
    case REDACTED => 1
    case EXTRACTED => 2
    case EVIDENCE_ASSEMBLED => 3
    case ANOMALY_SCORED => 4
    case TIER_DECIDED => 5
    case ROUTED => 6
  }

  /** Stages appear in the documented order, none twice. */
  lemma {:induction false} StagesInOrder(item: Item, config: Config)
    ensures forall i, j | 0 <= i < j < |Trace(item, config)| ::
              Rank(Trace(item, config)[i].kind) < Rank(Trace(item, config)[j].kind)
  {
    hide Decide, Outcomes, Draw, SaltUsable, SettingOf, EffectiveAnomaly;
    var t := Trace(item, config);
    forall i | 0 <= i < |t| - 1
      ensures Rank(t[i].kind) < Rank(t[i+1].kind)
    {
    }
    RanksRise(t);
  }

  lemma {:induction false} RanksRise(t: seq<Entry>)
    requires forall i | 0 <= i < |t| - 1 :: Rank(t[i].kind) < Rank(t[i+1].kind)
    ensures forall i, j | 0 <= i < j < |t| :: Rank(t[i].kind) < Rank(t[j].kind)
  {
    forall i, j | 0 <= i < j < |t|
      ensures Rank(t[i].kind) < Rank(t[j].kind)
    {
      RankRises(t, i, j);
    }
  }

  lemma {:induction false} RankRises(t: seq<Entry>, i: nat, j: nat)
    requires forall k | 0 <= k < |t| - 1 :: Rank(t[k].kind) < Rank(t[k+1].kind)
    requires i < j < |t|
    ensures Rank(t[i].kind) < Rank(t[j].kind)
    decreases j
  {
    if i < j - 1 {
      RankRises(t, i, j - 1);
    }
  }

  ghost predicate Mentions(t: seq<Entry>, kind: EventType) {
    exists i | 0 <= i < |t| :: t[i].kind == kind
  }

  /** The evidence stages always appear, a tier is decided exactly when the salt is usable, a unit
      is named exactly when one was chosen, and silence about anomalies means nobody looked. */
  lemma {:induction false} StagesPresent(item: Item, config: Config)
    ensures var t, s := Trace(item, config), SettingOf(item, config);
      && (forall kind | Rank(kind) <= 3 :: Mentions(t, kind))
      && (Mentions(t, ANOMALY_SCORED) <==> item.given.Some? || config.scoring.Some?)
      && (Mentions(t, TIER_DECIDED) <==> SaltUsable(s))
      && (Mentions(t, ROUTED) <==>
          SaltUsable(s) && Decide(item.evidence, EffectiveAnomaly(item, config), s).routedUnit.Some?)
  {
    hide Decide, Outcomes, Draw, SaltUsable, SettingOf;
    var t := Trace(item, config);
    assert t[0].kind == RECEIVED && t[1].kind == REDACTED && t[2].kind == EXTRACTED && t[3].kind == EVIDENCE_ASSEMBLED;
    var n := 4 + |AnomalyEntries(item, config)|;
    assert n == 5 ==> t[4].kind == ANOMALY_SCORED;
    if SaltUsable(SettingOf(item, config)) {
      assert t[n].kind == TIER_DECIDED;
      assert |t| == n + 2 ==> t[n+1].kind == ROUTED;
    }
  }

  /** What is recomputed for the journal is what the decision did: the applied outcomes are the
      downgrades among the reasons, the draw is recorded exactly when sampling is on, it is among
      the reasons exactly when it moved the item, and the entry replays to its own tiers. */
  lemma {:induction false} JournalAgreesWithDecision(item: Item, config: Config)
    requires SaltUsable(SettingOf(item, config))
    ensures var s := SettingOf(item, config);
      var t := Trace(item, config);
      var p := t[4 + |AnomalyEntries(item, config)|].payload;
      && p.Decided?
      && Applied(p.downgrades) == IdsOfKind(p.record.reasons, DOWNGRADED)
      && (p.sample.Some? <==> SamplingOn(s.risk, s.salt))
      && (IdsOfKind(p.record.reasons, SAMPLED) != [] <==>
          p.sample.Some? && p.sample.value.sampled && Applied(p.downgrades) == [] && p.record.preDowngradeTier < 3)
      && (p.sample.Some? ==> (p.sample.value.sampled <==> p.sample.value.draw < s.risk.rate))
      && p.record.tier == ReplayedTier(s.table, p.record.reasons)
      && p.record.preDowngradeTier == ReplayedRowTier(s.table, p.record.reasons)
  {
    var s, a := SettingOf(item, config), EffectiveAnomaly(item, config);
    ReasonsTellTheTruth(item.evidence, a, s);
    ReasonsReplay(item.evidence, a, s);
    hide Decide;
    var entries := DecisionEntries(item, config);
    assert Trace(item, config)[4 + |AnomalyEntries(item, config)|] == entries[0];
  }

  /** Whose anomaly evidence decides: what was handed in, else what the scorer returned, unchanged, else
      none.  A run with a working scorer writes what a run handed the scorer's evidence writes. */
  lemma {:induction false} AnomalyThatDecides(item: Item, config: Config, a: Anomaly)
    ensures item.given == Some(a) ==> EffectiveAnomaly(item, config) == Some(a)
    ensures item.given == None && config.scoring.Some? && config.scoring.value.scorer == Scores(a) ==>
              && EffectiveAnomaly(item, config) == Some(a)
              && Trace(item, config) == Trace(item.(given := Some(a)), config)
    ensures item.given == None && (config.scoring == None || !config.scoring.value.scorer.Scores?) ==>
              EffectiveAnomaly(item, config) == None
  {
    hide Decide, Outcomes, Draw;
  }

  /** What a decision is handed: the config's table, risk and draw, the salt of its scoring, and in the
      fields the flags of the procedure and the item. */
  lemma {:induction false} SettingCarriesConfig(item: Item, config: Config)
    ensures var s := SettingOf(item, config);
      && s.table == config.table && s.risk == config.risk && s.draws == config.draws
      && s.salt == (if config.scoring == None then None else Some(config.scoring.value.salt))
      && Get(FieldsFor(item.evidence, s), "procedure.clear_cut") == Bool(item.clearCut)
      && Get(FieldsFor(item.evidence, s), "procedure.tier1_enabled") == Bool(config.tier1Enabled == Some(true))
  {
    hide FieldsFor;
    FieldsCarryEvidence(item.evidence, SettingOf(item, config));
  }

  /** Rules are always admitted, the classifier exactly when it is enabled: its lone suggestion is followed
      then, and otherwise any number of its suggestions between the rules' leaves the whole run as it is. */
  lemma {:induction false} ClassifierMattersIff(item: Item, config: Config, merged: seq<Suggestion>, extra: seq<Suggestion>,
                                               lone: Suggestion)
    requires Interleaves(merged, item.evidence.routing, extra) && forall x | x in extra :: x.source == Classifier
    ensures !config.classifierEnabled ==>
              Trace(item.(evidence := item.evidence.(routing := merged)), config) == Trace(item, config)
    ensures RoutedUnit([lone], SettingOf(item, config).sources) ==
            if lone.source == Rule || config.classifierEnabled then Some(lone.unitId) else None
  {
    hide Decide, Outcomes, Draw, SaltUsable, Interleaves, EVIDENCE_ENTRIES;
    if !config.classifierEnabled {
      UnadmittedCannotInterfere(item.evidence, merged, extra, EffectiveAnomaly(item, config), SettingOf(item, config));
    }
    LoneSuggestion(lone, SettingOf(item, config).sources);
  }

  /** The entries up to the decision, and the decision's own. */
  lemma {:induction false} TraceParts(item: Item, config: Config)
    requires SaltUsable(SettingOf(item, config))
    requires item.given.Some? || config.scoring.Some?
    ensures var t, s := Trace(item, config), SettingOf(item, config);
      && |t| >= 6 && t[..4] == EVIDENCE_ENTRIES
      && t[4] == AnomalyEntries(item, config)[0]
      && t[5].payload.Decided? && t[5].payload.record == Decide(item.evidence, EffectiveAnomaly(item, config), s)
      && t[5].payload.sample == Draw(item.evidence.caseId, s).value
  {
    hide Decide, Outcomes, Draw, SaltUsable, SettingOf, EVIDENCE_ENTRIES;
    assert |EVIDENCE_ENTRIES| == 4 by { FourEvidenceEntries(); }
  }

  lemma {:induction false} FourEvidenceEntries()
    ensures |EVIDENCE_ENTRIES| == 4
  {
  }

  /** A scorer that raises or degrades decides like no anomaly evidence and says so in the journal.
      Which of the two happened cannot be told from the run. */
  lemma {:induction false} FailingScorerIsHarmless(item: Item, config: Config)
    requires item.given.None? && config.scoring.Some? && !config.scoring.value.scorer.Scores?
    ensures Decide(item.evidence, EffectiveAnomaly(item, config), SettingOf(item, config)) ==
            Decide(item.evidence, None, SettingOf(item, config))
    ensures Trace(item, config)[4] == Entry(ANOMALY_SCORED, Degraded)
    ensures forall other: Scorer | !other.Scores? ::
              Trace(item, config.(scoring := Some(Scoring(other, config.scoring.value.salt)))) == Trace(item, config)
  {
    hide Decide, Outcomes, Draw, SaltUsable;
  }

  /** Against the same item with anomaly evidence of any strength: the same evidence entries, a
      degradation instead of the score, and a decision with the same row tier, addressee and draw whose
      tier is never higher - the same record altogether unless the evidence applies a downgrade. */
  lemma {:induction false} FailingScorerAgainstEvidence(item: Item, config: Config, a: Anomaly)
    requires item.given.None? && config.scoring.Some? && !config.scoring.value.scorer.Scores?
    requires SaltUsable(SettingOf(item, config)) && ValidTable(config.table)
    ensures var scored := item.(given := Some(a));
      var failed, seen, s := Trace(item, config), Trace(scored, config), SettingOf(item, config);
      && |failed| >= 6 && |seen| >= 6 && failed[..4] == seen[..4]
      && failed[4] == Entry(ANOMALY_SCORED, Degraded) && seen[4] == Entry(ANOMALY_SCORED, Scored(a))
      && failed[5].payload.Decided? && seen[5].payload.Decided?
      && failed[5].payload.sample == seen[5].payload.sample
      && var r, r' := failed[5].payload.record, seen[5].payload.record;
         && r.preDowngradeTier == r'.preDowngradeTier && r.routedUnit == r'.routedUnit && r.tier <= r'.tier
         && (AppliedRules(Some(a), s) == [] ==> r == r')
  {
    hide Decide, Outcomes, Draw, SaltUsable, EVIDENCE_ENTRIES, ValidTable;
    var scored, s := item.(given := Some(a)), SettingOf(item, config);
    assert SettingOf(scored, config) == s;
    TraceParts(item, config);
    TraceParts(scored, config);
    OneWayValve(item.evidence, None, Some(a), s);
    SameRows(item.evidence, None, Some(a), s);
    if AppliedRules(Some(a), s) == [] {
      NothingApplied(item.evidence, a, s);
    }
  }

  lemma {:induction false} SameRows(e: Evidence, a: Option<Anomaly>, b: Option<Anomaly>, s: Setting)
    requires SaltUsable(s)
    ensures Decide(e, a, s).preDowngradeTier == Decide(e, b, s).preDowngradeTier
    ensures Decide(e, a, s).routedUnit == Decide(e, b, s).routedUnit
  {
    hide Decide, SaltUsable;
    RowsGovern(e, a, s);
    assert s.(risk := s.risk, salt := s.salt) == s;
  }

  lemma {:induction false} NothingApplied(e: Evidence, a: Anomaly, s: Setting)
    requires AppliedRules(Some(a), s) == []
    ensures Decide(e, Some(a), s) == Decide(e, None, s)
  {
    hide QualifyingFields, RowTier, RowReasons, RoutedUnit, Draw;
    AppliedNone([]);
  }

  /** A failing scorer is not the same as none: the scoring config also carries the audit salt.
      Dropping it leaves the decision as it is exactly when the draw did not move the item. */
  lemma {:induction false} DroppingTheScorerIff(item: Item, config: Config)
    requires item.given.None? && config.scoring.Some? && !config.scoring.value.scorer.Scores?
    requires SaltUsable(SettingOf(item, config))
    ensures var s, none := SettingOf(item, config), SettingOf(item, config.(scoring := None));
      Decide(item.evidence, EffectiveAnomaly(item, config), s)
        == Decide(item.evidence, EffectiveAnomaly(item, config.(scoring := None)), none)
      <==> !(Sampled(item.evidence.caseId, s) && RowTier(config.table.rows, FieldsFor(item.evidence, s)) < 3)
  {
    hide QualifyingFields, RowTier, RowReasons, RoutedUnit;
    AppliedNone([]);
    var s, none := SettingOf(item, config), SettingOf(item, config.(scoring := None));
    assert FieldsFor(item.evidence, s) == FieldsFor(item.evidence, none);
    assert AppliedRules(None, s) == [] == AppliedRules(None, none);
  }

  /** The error rail does not reach the journal: with a salt the hash refuses, the decision is a
      tier-3 record, and the run dies recomputing the draw before it could be written. */
  lemma {:induction false} ErrorRecordIsNeverJournaled(item: Item, config: Config)
    requires !SaltUsable(SettingOf(item, config))
    ensures Decide(item.evidence, EffectiveAnomaly(item, config), SettingOf(item, config)) == ERROR_RECORD
    ensures forall i | 0 <= i < |Trace(item, config)| :: Trace(item, config)[i].kind !in {TIER_DECIDED, ROUTED}
  {
  }

  /** A config no loader would let through: half of all items audited, under a salt of 65 bytes. */
  const OVERLONG: Config := Config(
    Table([Row("clear", 1, [Condition("procedure.clear_cut", Eq, Bool(true))])], []), Risk(false, 0.5), None, false,
    Some(Scoring(Degrades, seq(65, _ => 'x'))), DrawEngine((salt: string) => |salt|, (_: string, _: string) => 0.0))

  /** Every item then ends without a journaled tier, although a tier 3 was decided. */
  lemma {:induction false} OverlongSaltLosesTheRecord(item: Item)
    ensures Decide(item.evidence, EffectiveAnomaly(item, OVERLONG), SettingOf(item, OVERLONG)).tier == 3
    ensures forall i | 0 <= i < |Trace(item, OVERLONG)| :: Trace(item, OVERLONG)[i].kind != TIER_DECIDED
  {
    hide Decide, Trace, EffectiveAnomaly;
    OverlongIsUnusable(item);
    ErrorRecordIsNeverJournaled(item, OVERLONG);
  }

  lemma {:induction false} OverlongIsUnusable(item: Item)
    ensures !SaltUsable(SettingOf(item, OVERLONG))
  {
    assert |OVERLONG.scoring.value.salt| == 65;
  }
}
