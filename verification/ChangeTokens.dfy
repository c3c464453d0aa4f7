/** A publisher that skips rankings whose change token did not move misses nothing. */
module ChangeTokens {
  import opened Common
  import opened Totals
  import opened Model
  import opened Boards
  import opened Rankings
  import opened RankingInvariant
  import opened Checkpoints
  import opened CheckpointRoundTrip
  import opened RestoredBehaviour
  import opened RankingRuns
  import opened EngineSpec

  /** What a publisher compares: the ranking's name, its instance and its revision. */
  datatype Token = Token(id: string, instance: u64, revision: u64)

  function TokenOf(r: RankState): Token {
    Token(r.definition.id, r.instance, r.board.revision)
  }

  /** Equal in everything a snapshot shows. */
  predicate ShowsTheSame(a: RankState, b: RankState) {
    b == a.(lastTime := b.lastTime, users := b.users, windowEvents := b.windowEvents)
  }

  /** `b` is a later state of the same ranking: it looks different only if its revision moved. */
  predicate Later(a: RankState, b: RankState) {
    && a.instance == b.instance
    && a.board.revision <= b.board.revision
    && (a.board.revision == b.board.revision < U64_MAX ==> ShowsTheSame(a, b))
  }

  lemma {:induction false} DrainMovesRevision(b: Board, events: seq<Event>, last: u64, duration: u64)
    requires WindowBacks(b.scores, events)
    ensures var d := Drain(b, events, last, duration);
      d.board.revision >= b.revision && (d.board.revision == b.revision ==> d.board == b)
    decreases |events|
  {
    hide IsTally;
    if events != [] && SaturatingSub(last, events[0].at) >= duration {
      TailIsBacked(b, events);
      var r := Boards.Expire(b, events[0].key, events[0].score);
      if r.Ok? { DrainMovesRevision(r.value, events[1..], last, duration); }
    }
  }

  lemma AdvanceIsLater(r: RankState, now: u64)
    requires Consistent(r)
    ensures Later(r, Advance(r, now).0)
    ensures Advance(r, now).1.Err? ==> Advance(r, now).0.board.revision == U64_MAX
  {
    hide Sound, UsersConsistent, ValidDefinition, ValidInstanceId, Drain, LocalDay, IsTally;
    if r.definition.window.Rolling? {
      var last, duration := Max(r.lastTime, now), r.definition.window.durationMs;
      DrainMovesRevision(r.board, r.windowEvents, last, duration);
      DrainStops(r.board, r.windowEvents, last, duration);
    }
  }

  /** Accounting a positive score always advances the revision while it can. */
  lemma AccountAdvances(r: RankState, c: Contribution, key: string, score: u64, metadata: Option<Metadata>)
    requires score > 0
    ensures var after := Account(r, c, key, score, metadata).0;
      after.instance == r.instance && after.board.revision >= r.board.revision
      && (r.board.revision < U64_MAX ==> after.board.revision > r.board.revision)
  {
    hide Bytes, Sum, UserDecision;
    assert score * 1 == score;
  }

  lemma LaterTransitive(a: RankState, b: RankState, c: RankState)
    requires Later(a, b) && Later(b, c)
    ensures Later(a, c)
  {
  }

  lemma FeedIsLater(r: RankState, feed: Feed)
    requires Consistent(r)
    ensures Later(r, FeedRanking(r, feed).0)
  {
    hide Sound, WindowConsistent, UsersConsistent, ValidDefinition, ValidInstanceId, Advance, Account, IsCompetition;
    AdvanceIsLater(r, feed.now);
    var current := Advance(r, feed.now).0;
    forall c: Contribution, key: string, score: u64, metadata: Option<Metadata> | score > 0
      ensures Later(current, Account(current, c, key, score, metadata).0)
    {
      AccountAdvances(current, c, key, score, metadata);
    }
    assert Later(current, MarkRejected(current));
    LaterThroughFeed(r, current, FeedRanking(r, feed).0);
  }

  lemma LaterThroughFeed(r: RankState, current: RankState, after: RankState)
    requires Later(r, current)
    ensures Later(current, after) ==> Later(r, after)
  {
  }

  lemma AssignIsLater(r: RankState, previous: Option<Vote>, next: Vote)
    ensures Later(r, Assign(r, previous, next).0)
  {
    hide AssignmentWeight, Bytes, Sum, MoveOverflows;
  }

  /** Before its first revision a ranking holds no scores. */
  predicate Untouched(r: RankState) {
    r.board.revision == 0 ==> r.board.scores == map[]
  }

  /** The checkpoint shows the paused flag, the counters and the identity that the ranking shows already. */
  predicate KeepsHeader(r: RankState, cp: Checkpoint) {
    var s := cp.snapshot;
    && s.paused == r.paused
    && s.rejected == r.rejected
    && s.dropped == r.dropped
    && s.limited == r.limited
    && s.cooldownRejected == r.cooldownRejected
    && (s.instanceId.Some? ==> s.instanceId.value == r.instanceId)
  }

  /** Restoring the checkpoint moves the revision, or it changes nothing that is shown. */
  predicate RestoreShows(r: RankState, cp: Checkpoint) {
    cp.snapshot.revision > 0 || KeepsHeader(r, cp)
  }

  lemma ApplyMovesRevision(b: Board, key: string, delta: u64)
    requires delta > 0 && Boards.Apply(b, key, delta, 1).Ok?
    ensures Boards.Apply(b, key, delta, 1).value.revision > b.revision
  {
    hide Bytes, Sum;
    assert delta * 1 == delta;
  }

  lemma {:induction false} EntriesMoveRevision(b: Board, entries: seq<Entry>)
    ensures var r := RestoreEntries(b, entries);
      r.Ok? ==> r.value.revision >= b.revision && (entries != [] ==> r.value.revision > b.revision)
    decreases |entries|
  {
    hide Boards.Apply;
    if entries != [] && RestoreEntries(b, entries).Ok? {
      var front, last := entries[..|entries| - 1], entries[|entries| - 1];
      EntriesMoveRevision(b, front);
      ApplyMovesRevision(RestoreEntries(b, front).value, last.key, last.score);
    }
  }

  /** An accepted checkpoint of revision 0 lists no entries. */
  lemma RestoredUntouched(r: RankState, cp: Checkpoint)
    requires Restore(r, cp).Ok?
    ensures Untouched(Restore(r, cp).value)
    ensures cp.snapshot.revision == 0 ==> Restore(r, cp).value.board == EmptyBoard(r.definition.capacity)
  {
    hide RestoreEntries, WindowError, UsersFit, ValidInstanceId, Sum;
    EntriesMoveRevision(EmptyBoard(r.definition.capacity), cp.snapshot.entries);
    if cp.snapshot.revision == 0 { NoEntries(EmptyBoard(r.definition.capacity)); }
  }

  lemma NoEntries(b: Board)
    ensures RestoreEntries(b, []) == Ok(b)
  {
  }

  /**
   * Only rankings at revision 0 take checkpoints, and an accepted checkpoint of revision 0 lists no
   * entries, so what it says of itself decides whether restoring it shows.
   */
  lemma RestoreIsLaterExactly(r: RankState, cp: Checkpoint)
    requires Consistent(r) && Untouched(r) && Restore(r, cp).Ok?
    ensures Later(r, Step(r, CheckpointRestored(cp))) <==> RestoreShows(r, cp)
  {
    hide RestoreEntries, WindowError, UsersFit, ValidInstanceId, Sum, ValidDefinition, UsersConsistent,
         WindowConsistent;
    RestoredUntouched(r, cp);
    assert r.board == EmptyBoard(r.definition.capacity);
  }

  /** Every operation shows its effect in the revision, accepted restores as far as they do. */
  lemma StepIsLater(r: RankState, op: RankOp)
    requires Consistent(r) && Untouched(r)
    requires op.CheckpointRestored? && Restore(r, op.checkpoint).Ok? ==> RestoreShows(r, op.checkpoint)
    ensures Later(r, Step(r, op))
  {
    hide Sound, WindowConsistent, UsersConsistent, ValidDefinition, ValidInstanceId, FeedRanking, Assign, Rebuilt,
         Bytes, Sum, AssignmentWeight, IsCompetition, DependsOn, Restore, RestoreShows, Untouched;
    match op {
      case Fed(feed) => FeedIsLater(r, feed);
      case Voted(previous, next) => AssignIsLater(r, previous, next);
      case CheckpointRestored(cp) => if Restore(r, cp).Ok? { RestoreIsLaterExactly(r, cp); }
      case Committed(_, _) =>
      case VotesRestored(_, _) =>
      case Redefined(_, _) =>
      case Describe(_, _) =>
      case _ =>
    }
  }

  lemma StepKeepsUntouched(r: RankState, op: RankOp)
    requires Consistent(r) && Untouched(r)
    ensures Untouched(Step(r, op))
  {
    hide Consistent, Restore;
    if op.CheckpointRestored? {
      if Restore(r, op.checkpoint).Ok? { RestoredUntouched(r, op.checkpoint); }
    } else {
      hide Step;
      StepIsLater(r, op);
    }
  }

  lemma {:induction false} RunUntouched(r: RankState, ops: seq<RankOp>)
    requires Consistent(r) && Untouched(r)
    ensures Untouched(Run(r, ops))
    decreases |ops|
  {
    hide Consistent, Untouched, Step;
    if ops != [] {
      RunUntouched(r, ops[..|ops| - 1]);
      StepKeepsUntouched(Run(r, ops[..|ops| - 1]), ops[|ops| - 1]);
    }
  }

  // ---- engine runs ---------------------------------------------------------

  /** No ranking holds scores before its first revision. */
  ghost predicate AllUntouched(e: EngineState) {
    forall id :: id in e.rankings ==> Untouched(e.rankings[id])
  }

  lemma RankingsStartUntouched(ops: seq<EngineOp>)
    ensures AllUntouched(EngineRun(Empty, ops))
  {
    hide Consistent, Untouched, EngineRun, ValidDefinition, ValidInstanceId;
    forall id | id in EngineRun(Empty, ops).rankings ensures Untouched(EngineRun(Empty, ops).rankings[id]) {
      var d, instance, instanceId, steps := RankingsAreRuns(ops, id);
      FreshUntouched(d, instance, instanceId);
      RunUntouched(Start(d, instance, instanceId), steps);
    }
  }

  lemma FreshUntouched(d: Definition, instance: u64, instanceId: string)
    ensures Untouched(Fresh(d, instance, instanceId))
  {
  }

  /** Checkpoints are accepted only where that shows. */
  ghost predicate Shows(e: EngineState, op: EngineOp) {
    op.On? && op.op.CheckpointRestored? && op.id in e.rankings ==>
      Restore(e.rankings[op.id], op.op.checkpoint).Err? || RestoreShows(e.rankings[op.id], op.op.checkpoint)
  }

  ghost predicate AllShow(ops: seq<EngineOp>, from: nat, to: nat)
    requires to <= |ops|
  {
    forall k :: from <= k < to ==> Shows(EngineRun(Empty, ops[..k]), ops[k])
  }

  /** Each ranking of the later engine was created since, or is a later state of the same one. */
  ghost predicate Follows(e: EngineState, later: EngineState) {
    && e.nextInstance <= later.nextInstance
    && forall id :: id in later.rankings ==>
         later.rankings[id].instance > e.nextInstance || (id in e.rankings && Later(e.rankings[id], later.rankings[id]))
  }

  lemma StepFollows(e: EngineState, middle: EngineState, op: EngineOp)
    requires ValidEngine(e) && ValidEngine(middle) && AllUntouched(middle)
    requires Follows(e, middle) && Shows(middle, op)
    ensures Follows(e, EngineStep(middle, op))
  {
    hide Consistent, Step, Fresh, Later, ValidDefinition, ValidInstanceId, RestoreShows, Restore, Untouched;
    var after := EngineStep(middle, op);
    forall id | id in after.rankings
      ensures after.rankings[id].instance > e.nextInstance
        || (id in e.rankings && Later(e.rankings[id], after.rankings[id]))
    {
      InstanceAfterStep(middle, op, id);
      if id in middle.rankings && after.rankings[id].instance == middle.rankings[id].instance {
        assert ValidRanking(middle, id);
        var r := middle.rankings[id];
        var rankOp := Concerns(op, r);
        if rankOp.Some? {
          StepIsLater(r, rankOp.value);
          if id in e.rankings && Later(e.rankings[id], r) { LaterTransitive(e.rankings[id], r, after.rankings[id]); }
        }
      }
    }
  }

  lemma {:induction false} RunFollows(ops: seq<EngineOp>, i: nat, j: nat)
    requires i <= j <= |ops| && AllShow(ops, i, j)
    ensures Follows(EngineRun(Empty, ops[..i]), EngineRun(Empty, ops[..j]))
    decreases j
  {
    hide Consistent, Step, EngineStep, Concerns, Shows;
    if i < j {
      RunFollows(ops, i, j - 1);
      RankingsStartUntouched(ops[..j - 1]);
      assert Shows(EngineRun(Empty, ops[..j - 1]), ops[j - 1]);
      assert ops[..j][..j - 1] == ops[..j - 1] && ops[..j][j - 1] == ops[j - 1];
      StepFollows(EngineRun(Empty, ops[..i]), EngineRun(Empty, ops[..j - 1]), ops[j - 1]);
    } else {
      FollowsItself(EngineRun(Empty, ops[..i]));
    }
  }

  lemma FollowsItself(e: EngineState)
    ensures Follows(e, e)
  {
  }

  /**
   * Change tokens are sound: in any run of the engine, including removing and re-creating rankings under
   * the same name, two moments at which a ranking has the same token, below the last revision, publish
   * equal snapshots of every size, unless between them a checkpoint of revision 0 was accepted that
   * differs from the ranking in the paused flag, a counter or the identity.
   */
  lemma EqualTokensPublishEqualSnapshots(ops: seq<EngineOp>, i: nat, j: nat, id: string, limit: nat)
    requires i <= j <= |ops| && AllShow(ops, i, j)
    requires var e, later := EngineRun(Empty, ops[..i]), EngineRun(Empty, ops[..j]);
      && id in e.rankings && id in later.rankings
      && TokenOf(e.rankings[id]) == TokenOf(later.rankings[id])
      && later.rankings[id].board.revision < U64_MAX
    ensures var a, b := EngineRun(Empty, ops[..i]).rankings[id], EngineRun(Empty, ops[..j]).rankings[id];
      View(a, limit) == View(b, limit) && Published(a) == Published(b)
  {
    hide Consistent, EngineRun;
    var e := EngineRun(Empty, ops[..i]);
    RunFollows(ops, i, j);
    assert ValidRanking(e, id);
  }

  /** Once the revision is spent, a failure changes the snapshot under an unchanged token. */
  lemma SpentRevisionHidesFailures(r: RankState, limit: nat)
    requires r.board.revision == U64_MAX && !r.paused && r.rejected < U64_MAX
    ensures TokenOf(MarkGap(r)) == TokenOf(r)
    ensures View(MarkGap(r), limit) != View(r, limit)
  {
  }

  /** Restoring a checkpoint of revision 0 can change what is shown without moving the token. */
  lemma RestoreCanKeepToken(d: Definition, instance: u64, instanceId: string, limit: nat)
    requires ValidDefinition(d) && ValidInstanceId(instanceId)
    ensures var r := Start(d, instance, instanceId);
      var exported := Export(r);
      var restored := Restore(r, exported.(snapshot := exported.snapshot.(paused := true)));
      && restored.Ok? && TokenOf(restored.value) == TokenOf(r)
      && View(restored.value, limit) != View(r, limit)
  {
    hide Consistent, ValidDefinition, ValidInstanceId, RestoreEntries, Ranking;
    var r := Start(d, instance, instanceId);
    ExportedEntriesRestore(r);
    ExportedEvidenceFits(r);
    assert Part(r.board, r.board.scores.Keys).scores == map[];
  }
}
