/** The whole engine: its rankings, its source index and runs of engine operations. */
module EngineSpec {
  import opened Common
  import opened Model
  import opened Boards
  import opened Rankings
  import opened RankingInvariant
  import opened Checkpoints
  import opened RestoredBehaviour
  import opened RankingRuns

  // ---- the source index ----------------------------------------------------

  type SourceIndex = map<string, seq<string>>

  function Without(ids: seq<string>, id: string): (r: seq<string>)
    ensures forall x :: x in r <==> x in ids && x != id
  {
    if ids == [] then []
    else (if ids[0] == id then [] else [ids[0]]) + Without(ids[1..], id)
  }

  /** Takes a ranking out of every list and drops the lists that become empty. */
  function DropId(index: SourceIndex, id: string): SourceIndex {
    map source | source in index && Without(index[source], id) != [] :: Without(index[source], id)
  }

  function AddSource(index: SourceIndex, source: string, id: string): SourceIndex {
    var ids := if source in index then index[source] else [];
    index[source := if id in ids then ids else ids + [id]]
  }

  /** Lists a ranking under each of its sources, once. */
  function AddSources(index: SourceIndex, rules: seq<SourceRule>, id: string): SourceIndex {
    if rules == [] then index
    else AddSource(AddSources(index, rules[..|rules| - 1], id), rules[|rules| - 1].source, id)
  }

  predicate NoDuplicates(ids: seq<string>) {
    forall i, j :: 0 <= i < j < |ids| ==> ids[i] != ids[j]
  }

  predicate Indexed(index: SourceIndex, source: string, id: string) {
    source in index && id in index[source]
  }

  /** No list of the index is empty or names a ranking twice. */
  predicate WellListed(index: SourceIndex) {
    forall source :: source in index ==> index[source] != [] && NoDuplicates(index[source])
  }

  /** The index lists exactly the rankings with a rule for each source, each once. */
  ghost predicate IndexExact(index: SourceIndex, definitions: map<string, Definition>) {
    && (forall source, id :: Indexed(index, source, id) <==> id in definitions && HasSource(definitions[id], source))
    && WellListed(index)
  }

  lemma {:induction false} WithoutKeepsDistinct(ids: seq<string>, id: string)
    requires NoDuplicates(ids)
    ensures NoDuplicates(Without(ids, id))
  {
    if ids != [] {
      WithoutKeepsDistinct(ids[1..], id);
      assert forall j :: 0 <= j < |ids[1..]| ==> ids[1..][j] == ids[j + 1];
      assert ids[0] !in ids[1..];
    }
  }

  lemma DropIdExact(index: SourceIndex, definitions: map<string, Definition>, id: string)
    requires IndexExact(index, definitions)
    ensures IndexExact(DropId(index, id), definitions - {id})
  {
    var after := DropId(index, id);
    forall source, x
      ensures Indexed(after, source, x) <==> x in definitions - {id} && HasSource((definitions - {id})[x], source)
    {
      assert Indexed(index, source, x) <==> x in definitions && HasSource(definitions[x], source);
    }
    forall source | source in after ensures after[source] != [] && NoDuplicates(after[source]) {
      WithoutKeepsDistinct(index[source], id);
    }
  }

  lemma RuledNext(rules: seq<SourceRule>, source: string)
    requires rules != []
    ensures Ruled(rules, source) <==>
      Ruled(rules[..|rules| - 1], source) || rules[|rules| - 1].source == source
  {
    var front, last := rules[..|rules| - 1], rules[|rules| - 1];
    assert rules == front + [last];
  }

  lemma AddSourceIndexes(index: SourceIndex, source: string, id: string)
    requires WellListed(index)
    ensures var after := AddSource(index, source, id);
      && WellListed(after)
      && (forall s, x :: Indexed(after, s, x) <==> Indexed(index, s, x) || (x == id && s == source))
  {
  }

  /** Partway through a definition's rules the new ranking is listed under the rules seen so far. */
  lemma {:induction false} AddSourcesIndexes(index: SourceIndex, rules: seq<SourceRule>, id: string)
    requires WellListed(index)
    ensures var after := AddSources(index, rules, id);
      && WellListed(after)
      && (forall source, x ::
           Indexed(after, source, x) <==> Indexed(index, source, x) || (x == id && Ruled(rules, source)))
  {
    hide AddSource, WellListed, Indexed, Ruled;
    if rules != [] {
      var front, last := rules[..|rules| - 1], rules[|rules| - 1];
      AddSourcesIndexes(index, front, id);
      AddSourceIndexes(AddSources(index, front, id), last.source, id);
      forall source { RuledNext(rules, source); }
    } else {
      forall source ensures !Ruled(rules, source) { NoRules(source); }
    }
  }

  lemma NoRules(source: string)
    ensures !Ruled([], source)
  {
  }

  lemma AddSourcesExact(index: SourceIndex, definitions: map<string, Definition>, d: Definition)
    requires IndexExact(index, definitions) && d.id !in definitions
    ensures IndexExact(AddSources(index, d.sources, d.id), definitions[d.id := d])
  {
    hide AddSources, WellListed, Indexed, Ruled;
    AddSourcesIndexes(index, d.sources, d.id);
    var after, all := AddSources(index, d.sources, d.id), definitions[d.id := d];
    forall source, x ensures Indexed(after, source, x) <==> x in all && HasSource(all[x], source) {
      assert Indexed(index, source, x) <==> x in definitions && HasSource(definitions[x], source);
    }
  }

  /** A creation that runs out of instance numbers has already listed the ranking it does not create. */
  lemma ExhaustedCreationLeavesIndexDangling(index: SourceIndex, definitions: map<string, Definition>, d: Definition)
    requires IndexExact(index, definitions) && d.id !in definitions && d.sources != []
    ensures !IndexExact(AddSources(index, d.sources, d.id), definitions)
  {
    AddSourcesIndexes(index, d.sources, d.id);
    assert Ruled(d.sources, d.sources[0].source);
    assert Indexed(AddSources(index, d.sources, d.id), d.sources[0].source, d.id);
  }

  // ---- engine states -------------------------------------------------------

  const MAX_RANKINGS := 128

  datatype EngineState = EngineState(rankings: map<string, RankState>, nextInstance: u64)

  datatype EngineOp =
    | Create(definition: Definition, instanceId: string)
    | Update(definition: Definition, reset: bool)
    | Delete(id: string)
    | Contribute(c: Contribution, now: u64, user: Option<Metadata>, gift: Option<Metadata>)
    | PassTime(now: u64)
    | LoseInput(count: u64)
    | MissSource(creator: string, room: string, source: string)
    | MissMetric(creator: string, room: string, source: string, metric: string)
    | On(id: string, op: RankOp)

  ghost predicate ValidRanking(e: EngineState, id: string)
    requires id in e.rankings
  {
    var r := e.rankings[id];
    Consistent(r) && r.definition.id == id && 0 < r.instance <= e.nextInstance
  }

  ghost predicate ValidEngine(e: EngineState) {
    && (forall id :: id in e.rankings ==> ValidRanking(e, id))
    && (forall i, j :: i in e.rankings && j in e.rankings && i != j ==>
      e.rankings[i].instance != e.rankings[j].instance)
  }

  /** What an engine-wide operation does to one ranking; nothing, unless it concerns its sources. */
  function Concerns(op: EngineOp, r: RankState): Option<RankOp> {
    match op
    case Contribute(c, now, user, gift) =>
      if HasSource(r.definition, c.source) then Some(Fed(Arrival(c, now, user, gift))) else None
    case PassTime(now) => Some(Fed(Tick(now)))
    case LoseInput(count) => Some(Loss(count))
    case MissSource(creator, room, source) => Some(SourceGap(creator, room, source))
    case MissMetric(creator, room, source, metric) => Some(MetricGap(creator, room, source, metric))
    case Update(d, reset) => if r.definition.id == d.id then Some(Redefined(d, reset)) else None
    case On(id, rankOp) => if r.definition.id == id && !rankOp.Redefined? && !rankOp.Fed? then Some(rankOp) else None
    case _ => None
  }

  ghost function StepIf(r: RankState, op: Option<RankOp>): RankState
  {
    if op.Some? then Step(r, op.value) else r
  }

  /** Why a definition cannot be added, if it cannot. */
  function CreateError(e: EngineState, d: Definition): Option<DefinitionError> {
    if |e.rankings| >= MAX_RANKINGS then Some(FullEngine)
    else if !ValidDefinition(d) then Some(Invalid)
    else if d.id in e.rankings then Some(Duplicate)
    else if e.nextInstance == U64_MAX then Some(RevisionOverflow)
    else None
  }

  ghost function EngineStep(e: EngineState, op: EngineOp): EngineState {
    match op
    case Create(d, instanceId) =>
      if CreateError(e, d).Some? || !ValidInstanceId(instanceId) then e
      else EngineState(e.rankings[d.id := Fresh(d, e.nextInstance + 1, instanceId)], e.nextInstance + 1)
    case Delete(id) => e.(rankings := e.rankings - {id})
    case _ =>
      e.(rankings := map id | id in e.rankings :: StepIf(e.rankings[id], Concerns(op, e.rankings[id])))
  }

  ghost predicate SameIdentity(a: RankState, b: RankState) {
    a.definition == b.definition && a.instance == b.instance && a.instanceId == b.instanceId
  }

  lemma FeedKeepsIdentity(r: RankState, feed: Feed)
    requires Consistent(r)
    ensures SameIdentity(r, FeedRanking(r, feed).0)
  {
    hide Sound, WindowConsistent, UsersConsistent, ValidDefinition, ValidInstanceId, Drain, Account, IsCompetition,
         LocalDay;
    var current := Advance(r, feed.now).0;
    assert SameIdentity(r, current);
    if feed.Arrival? { AccountKeepsIdentity(current, feed.c); }
  }

  lemma AccountKeepsIdentity(r: RankState, c: Contribution)
    ensures forall key: string, score: u64, metadata: Option<Metadata> ::
      SameIdentity(r, Account(r, c, key, score, metadata).0)
  {
    hide UserDecision, Boards.Apply, WithMetadata;
  }

  /** A step keeps a ranking's identity and its instance number. */
  lemma StepKeepsIdentity(r: RankState, op: RankOp)
    requires Consistent(r) && (op.Redefined? ==> op.definition.id == r.definition.id)
    ensures Step(r, op).definition.id == r.definition.id
    ensures Step(r, op).instance == r.instance
    ensures !op.CheckpointRestored? ==> Step(r, op).instanceId == r.instanceId
    ensures !op.Redefined? ==> Step(r, op).definition == r.definition
  {
    hide Sound, WindowConsistent, UsersConsistent, ValidDefinition, ValidInstanceId, FeedRanking, AssignOnBoard,
         Rebuilt, Boards.Apply, AssignmentWeight, MoveOverflows, RestoreEntries, WindowError, UsersFit, IsCompetition,
         DependsOn;
    match op {
      case Fed(feed) => FeedKeepsIdentity(r, feed);
      case Voted(_, _) =>
      case VotesRestored(_, _) =>
      case Redefined(_, _) =>
      case CheckpointRestored(_) =>
      case _ =>
    }
  }

  /** A ranking found after a step is in order, under its own id. */
  lemma RankingStaysValid(e: EngineState, op: EngineOp, id: string)
    requires ValidEngine(e) && id in EngineStep(e, op).rankings
    ensures ValidRanking(EngineStep(e, op), id)
  {
    hide Consistent, Step, Fresh, Concerns, ValidDefinition, ValidInstanceId;
    InstanceAfterStep(e, op, id);
    var after := EngineStep(e, op).rankings[id];
    if id in e.rankings && after.instance == e.rankings[id].instance {
      assert ValidRanking(e, id);
      var rankOp := Concerns(op, e.rankings[id]);
      if rankOp.Some? {
        StepConsistent(e.rankings[id], rankOp.value);
        RedefinesItself(op, e.rankings[id]);
        StepKeepsIdentity(e.rankings[id], rankOp.value);
      }
    } else {
      FreshConsistent(op.definition, after.instance, op.instanceId);
      FreshIdentity(op.definition, after.instance, op.instanceId);
    }
  }

  /** No operation gives a ranking a definition of another name. */
  lemma RedefinesItself(op: EngineOp, r: RankState)
    ensures var rankOp := Concerns(op, r);
      rankOp.Some? && rankOp.value.Redefined? ==> rankOp.value.definition.id == r.definition.id
  {
  }

  lemma EngineStepValid(e: EngineState, op: EngineOp)
    requires ValidEngine(e)
    ensures ValidEngine(EngineStep(e, op))
  {
    hide Consistent, Step, Fresh, Concerns, ValidDefinition, ValidInstanceId;
    var after := EngineStep(e, op);
    forall id | id in after.rankings ensures ValidRanking(after, id) { RankingStaysValid(e, op, id); }
    forall i, j | i in after.rankings && j in after.rankings && i != j
      ensures after.rankings[i].instance != after.rankings[j].instance
    {
      InstanceAfterStep(e, op, i);
      InstanceAfterStep(e, op, j);
      if i in e.rankings { assert ValidRanking(e, i); }
      if j in e.rankings { assert ValidRanking(e, j); }
    }
  }

  lemma FreshIdentity(d: Definition, instance: u64, instanceId: string)
    ensures var r := Fresh(d, instance, instanceId);
      r.instance == instance && r.instanceId == instanceId && r.definition == d
  {
  }

  /** Where a ranking found after a step comes from: it was there before, or it is brand new. */
  lemma InstanceAfterStep(e: EngineState, op: EngineOp, id: string)
    requires ValidEngine(e) && id in EngineStep(e, op).rankings
    ensures var after := EngineStep(e, op).rankings[id];
      if id in e.rankings && after.instance == e.rankings[id].instance
      then after == StepIf(e.rankings[id], Concerns(op, e.rankings[id]))
      else after.instance == e.nextInstance + 1 && op.Create? && ValidDefinition(op.definition)
           && ValidInstanceId(op.instanceId) && after == Fresh(op.definition, after.instance, op.instanceId)
  {
    hide Consistent, Step, Fresh, ValidDefinition, ValidInstanceId;
    if id in e.rankings {
      assert ValidRanking(e, id);
      var r := e.rankings[id];
      if Concerns(op, r).Some? { StepKeepsIdentity(r, Concerns(op, r).value); }
    } else {
      FreshIdentity(op.definition, (e.nextInstance + 1) % (U64_MAX + 1), op.instanceId);
    }
  }

  const Empty := EngineState(map[], 0)

  ghost function EngineRun(e: EngineState, ops: seq<EngineOp>): (r: EngineState)
    requires ValidEngine(e)
    ensures ValidEngine(r)
    decreases |ops|
  {
    if ops == [] then e
    else
      var before := EngineRun(e, ops[..|ops| - 1]);
      EngineStepValid(before, ops[|ops| - 1]);
      EngineStep(before, ops[|ops| - 1])
  }

  /**
   * Every ranking of every engine run is a run of its own, from its creation: whatever holds of
   * ranking runs holds of the engine's rankings.
   */
  lemma {:induction false} RankingsAreRuns(ops: seq<EngineOp>, id: string)
    returns (d: Definition, instance: u64, instanceId: string, steps: seq<RankOp>)
    requires id in EngineRun(Empty, ops).rankings
    ensures ValidDefinition(d) && ValidInstanceId(instanceId)
    ensures EngineRun(Empty, ops).rankings[id] == Run(Start(d, instance, instanceId), steps)
    decreases |ops|
  {
    hide Consistent, Step, ValidDefinition, ValidInstanceId;
    assert ops != [];
    var before, op := EngineRun(Empty, ops[..|ops| - 1]), ops[|ops| - 1];
    InstanceAfterStep(before, op, id);
    var after := EngineStep(before, op).rankings[id];
    if id in before.rankings && after.instance == before.rankings[id].instance {
      d, instance, instanceId, steps := RankingsAreRuns(ops[..|ops| - 1], id);
      if Concerns(op, before.rankings[id]).Some? {
        var next := steps + [Concerns(op, before.rankings[id]).value];
        assert next[..|next| - 1] == steps;
        steps := next;
      }
    } else {
      d, instance, instanceId, steps := op.definition, after.instance, op.instanceId, [];
    }
  }
}
