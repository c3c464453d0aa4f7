/** Runs of one ranking, with the history of what it accepted since it was last cleared. */
module RankingRuns {
  import opened Common
  import opened Totals
  import opened Model
  import opened Boards
  import opened Rankings
  import opened RankingInvariant
  import opened Checkpoints
  import opened RestoredBehaviour

  datatype RankOp =
    | Fed(feed: Feed)
    | Reset
    | Pause(paused: bool)
    | Describe(key: string, metadata: Metadata)
    | Redefined(definition: Definition, reset: bool)
    | Gap
    | RecoveryGap
    | SourceGap(creator: string, room: string, source: string)
    | MetricGap(creator: string, room: string, source: string, metric: string)
    | Loss(count: u64)
    | Voted(previous: Option<Vote>, next: Vote)
    | Committed(option: string, score: u64)
    | VotesRestored(totals: seq<Vote>, scored: seq<Vote>)
    | CheckpointRestored(checkpoint: Checkpoint)

  ghost function Step(r: RankState, op: RankOp): RankState
  {
    match op
    case Fed(feed) => FeedRanking(r, feed).0
    case Reset => ResetRanking(r).0
    case Pause(paused) => SetPaused(r, paused).0
    case Describe(key, metadata) => SetMetadata(r, key, metadata).0
    case Redefined(d, reset) => Redefine(r, d, reset).0
    case Gap => MarkGap(r)
    case RecoveryGap => MarkRecoveryGap(r).0
    case SourceGap(creator, room, source) => MarkSourceGap(r, creator, room, source)
    case MetricGap(creator, room, source, metric) => MarkMetricGap(r, creator, room, source, metric)
    case Loss(count) => MarkLoss(r, count)
    case Voted(previous, next) => Assign(r, previous, next).0
    case Committed(option, score) => CommitScore(r, option, score).0
    case VotesRestored(totals, scored) => RestoreVotes(r, totals, scored).0
    case CheckpointRestored(cp) => if Restore(r, cp).Ok? then Restore(r, cp).value else r
  }

  /** The invariant survives every operation, restores of arbitrary checkpoints included. */
  lemma StepConsistent(r: RankState, op: RankOp)
    requires Consistent(r)
    ensures Consistent(Step(r, op))
  {
    hide Sound, WindowConsistent, UsersConsistent, Restore, FeedRanking, ResetRanking, SetMetadata, Redefine, Assign,
         CommitScore, RestoreVotes, ValidDefinition, ValidInstanceId, IsCompetition, DependsOn;
    match op {
      case Fed(feed) => FeedConsistent(r, feed);
      case Reset => ResetConsistent(r);
      case Pause(paused) => PauseAndMarksConsistent(r, paused, 0);
      case Describe(key, metadata) => SetMetadataConsistent(r, key, metadata);
      case Redefined(d, reset) => RedefineConsistent(r, d, reset);
      case Gap => PauseAndMarksConsistent(r, false, 0);
      case RecoveryGap => PauseAndMarksConsistent(r, false, 0);
      case SourceGap(_, _, _) => MarkRejectedConsistent(r);
      case MetricGap(_, _, _, _) => MarkRejectedConsistent(r);
      case Loss(count) => PauseAndMarksConsistent(r, false, count);
      case Voted(previous, next) => AssignConsistent(r, previous, next);
      case Committed(option, score) => CommitScoreConsistent(r, option, score);
      case VotesRestored(totals, scored) => RestoreVotesConsistent(r, totals, scored);
      case CheckpointRestored(cp) => AcceptedCheckpointIsConsistent(r, cp);
    }
  }

  /** A newly created ranking. */
  ghost function Start(d: Definition, instance: u64, instanceId: string): (r: RankState)
    requires ValidDefinition(d) && ValidInstanceId(instanceId)
    ensures Consistent(r) && r == Fresh(d, instance, instanceId)
  {
    FreshConsistent(d, instance, instanceId);
    Fresh(d, instance, instanceId)
  }

  ghost function Run(r: RankState, ops: seq<RankOp>): RankState
    requires Consistent(r)
    ensures Consistent(Run(r, ops))
    decreases |ops|
  {
    if ops == [] then r
    else
      var before := Run(r, ops[..|ops| - 1]);
      StepConsistent(before, ops[|ops| - 1]);
      Step(before, ops[|ops| - 1])
  }

  // ---- history -------------------------------------------------------------

  /** An accepted packet: the contribution and the user it came from. */
  datatype Accepted = Accepted(event: Event, user: Option<string>)

  datatype Traced = Traced(ranking: RankState, history: seq<Accepted>)

  function Events(history: seq<Accepted>): (events: seq<Event>)
    ensures |events| == |history|
    ensures forall i :: 0 <= i < |events| ==> events[i] == history[i].event
  {
    seq(|history|, i requires 0 <= i < |history| => history[i].event)
  }

  /** Whether advancing to `now` starts a new day. */
  predicate DayEnds(r: RankState, now: u64) {
    && r.definition.window.Daily?
    && r.lastTime != 0
    && LocalDay(Max(r.lastTime, now), r.definition.window.utcOffsetMinutes)
       != LocalDay(r.lastTime, r.definition.window.utcOffsetMinutes)
    && r.board.revision < U64_MAX
  }

  predicate Reached(r: RankState, feed: Feed) {
    feed.Tick? || InScope(r, feed.c)
  }

  /** What is still held of the past when a feed arrives. */
  function Kept(t: Traced, feed: Feed): seq<Accepted> {
    if Reached(t.ranking, feed) && DayEnds(t.ranking, feed.now) then [] else t.history
  }

  ghost function FeedHistory(t: Traced, feed: Feed): seq<Accepted>
  {
    var verdict := FeedRanking(t.ranking, feed).1;
    if feed.Arrival? && verdict.Counted?
    then Kept(t, feed) + [Accepted(Event(Max(t.ranking.lastTime, feed.now), verdict.key, verdict.score), feed.c.user)]
    else Kept(t, feed)
  }

  /** What a checkpoint brings: the events of its window, or each of its scores as of the checkpoint's clock. */
  function Carried(window: Window, cp: Checkpoint): (events: seq<Event>)
    ensures window.Rolling? ==> events == cp.windowEvents
  {
    if window.Rolling? then cp.windowEvents
    else
      var entries := cp.snapshot.entries;
      seq(|entries|, i requires 0 <= i < |entries| => Event(cp.lastTime, entries[i].key, entries[i].score))
  }

  /** Events whose user is not known. */
  function Anonymous(events: seq<Event>): (history: seq<Accepted>)
    ensures Events(history) == events
    ensures forall i :: 0 <= i < |history| ==> history[i].user.None?
  {
    seq(|events|, i requires 0 <= i < |events| => Accepted(events[i], None))
  }

  ghost function NextHistory(t: Traced, op: RankOp): seq<Accepted>
  {
    match op
    case Fed(feed) => FeedHistory(t, feed)
    case Reset => if ResetRanking(t.ranking).1.Ok? then [] else t.history
    case Redefined(d, reset) => if Redefine(t.ranking, d, reset).1.None? && reset then [] else t.history
    case CheckpointRestored(cp) =>
      if Restore(t.ranking, cp).Ok? then Anonymous(Carried(t.ranking.definition.window, cp)) else t.history
    case _ => t.history
  }

  ghost function Trace(r: RankState, ops: seq<RankOp>): (t: Traced)
    requires Consistent(r)
    ensures t.ranking == Run(r, ops)
    decreases |ops|
  {
    if ops == [] then Traced(r, [])
    else
      var before := Trace(r, ops[..|ops| - 1]);
      Traced(Step(before.ranking, ops[|ops| - 1]), NextHistory(before, ops[|ops| - 1]))
  }

  // ---- what operations other than packets leave alone ----------------------

  /** Operations that only touch counters, the revision, display fields or the configured limit. */
  predicate Bookkeeping(op: RankOp) {
    op.Pause? || op.Describe? || op.Gap? || op.RecoveryGap? || op.SourceGap? || op.MetricGap? || op.Loss?
  }

  /** The accounting part of a ranking: what contributions and expiry have made of it. */
  ghost predicate SameLedger(a: RankState, b: RankState) {
    && a.definition.(limit := 0) == b.definition.(limit := 0)
    && a.board.scores == b.board.scores
    && a.windowEvents == b.windowEvents
    && a.lastTime == b.lastTime
    && a.users == b.users
    && a.board.revision <= b.board.revision
  }

  lemma BookkeepingKeepsLedger(r: RankState, op: RankOp)
    requires Consistent(r)
    requires Bookkeeping(op) || (op.Redefined? && !(Redefine(r, op.definition, op.reset).1.None? && op.reset))
    ensures SameLedger(r, Step(r, op))
  {
    hide Sound, WindowConsistent, UsersConsistent, ValidDefinition, ValidInstanceId, IsCompetition, DependsOn;
    if op.Redefined? && Redefine(r, op.definition, op.reset).1.None? {
      assert op.definition == r.definition.(limit := op.definition.limit);
    }
  }

  /** Durable votes never touch a window, a clock or user limits, and only session rankings take them. */
  lemma VotesNeedSession(r: RankState, op: RankOp)
    requires Consistent(r) && (op.Voted? || op.Committed? || op.VotesRestored?)
    ensures var after := Step(r, op);
      && after.definition == r.definition && after.windowEvents == r.windowEvents
      && after.lastTime == r.lastTime && after.users == r.users
    ensures r.definition.window != Session || r.definition.userLimits.Some? ==> Step(r, op) == r
  {
    hide Sound, WindowConsistent, UsersConsistent, ValidDefinition, ValidInstanceId, AssignOnBoard, Rebuilt,
         Boards.Apply, AssignmentWeight, MoveOverflows;
    AssignmentNeedsSession(r.definition);
  }
}
