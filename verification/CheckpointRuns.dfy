/** Every ranking that did not rebuild its votes can be checkpointed and restored at any time. */
module CheckpointRuns {
  import opened Common
  import opened Totals
  import opened Model
  import opened Boards
  import opened Scoring
  import opened Rankings
  import opened RankingInvariant
  import opened Checkpoints
  import opened RestoredBehaviour
  import opened RankingRuns
  import opened PacketAccounting

  /** The revision counts at least one step for every participant. */
  predicate Covered(b: Board) {
    |b.scores| <= b.revision
  }

  lemma CoveredAfterApply(b: Board, key: string, delta: u64, weight: u64)
    requires Covered(b)
    ensures var r := Boards.Apply(b, key, delta, weight);
      r.Ok? ==> Covered(r.value) && r.value.revision >= b.revision
  {
    hide Bytes, Sum;
    if Boards.Apply(b, key, delta, weight).Ok? && delta * weight > 0 {
      SumBoundsParts(b.scores, key, key);
      WithScoreSize(b, key, Get(b.scores, key) + delta * weight);
    }
  }

  lemma CoveredAfterReassign(b: Board, from: string, to: string, amount: u64, additional: u64)
    requires Covered(b) && Reassign(b, from, to, amount, additional).Ok?
    ensures Covered(Reassign(b, from, to, amount, additional).value)
  {
    hide Bytes, Sum;
    WithScoreSize(b, from, b.scores[from] - amount);
    WithScoreSize(WithScore(b, from, b.scores[from] - amount), to, Get(b.scores, to) + amount + additional);
  }

  lemma {:induction false} CoveredAfterDrain(b: Board, events: seq<Event>, last: u64, duration: u64)
    requires WindowBacks(b.scores, events) && Covered(b)
    ensures Covered(Drain(b, events, last, duration).board)
    decreases |events|
  {
    hide IsTally, KeySum;
    if events != [] && SaturatingSub(last, events[0].at) >= duration {
      TailIsBacked(b, events);
      var r := Boards.Expire(b, events[0].key, events[0].score);
      if r.Ok? {
        WithScoreSize(b, events[0].key, b.scores[events[0].key] - events[0].score);
        CoveredAfterDrain(r.value, events[1..], last, duration);
      }
    }
  }

  lemma CoveredAfterFeed(r: RankState, feed: Feed)
    requires Consistent(r) && Covered(r.board)
    ensures Covered(FeedRanking(r, feed).0.board)
  {
    hide Sound, UsersConsistent, ValidDefinition, ValidInstanceId, Packet, Drain, LocalDay, IsTally, Boards.Apply;
    var current := Advance(r, feed.now).0;
    if r.definition.window.Rolling? {
      CoveredAfterDrain(r.board, r.windowEvents, current.lastTime, r.definition.window.durationMs);
    }
    assert Covered(current.board);
    if !Reached(r, feed) {
      OutOfScopeIsIgnored(r, feed.c, feed.now, feed.user, feed.gift);
    } else if FeedRanking(r, feed).1.Counted? {
      var verdict := FeedRanking(r, feed).1;
      CountedEffect(r, feed.c, feed.now, feed.user, feed.gift);
      CoveredAfterApply(current.board, verdict.key, verdict.score, 1);
      CountedRevision(r, feed);
    } else {
      UncountedEffect(r, feed);
    }
  }

  lemma CountedRevision(r: RankState, feed: Feed)
    requires Consistent(r) && feed.Arrival? && FeedRanking(r, feed).1.Counted?
    ensures var verdict := FeedRanking(r, feed).1;
      var applied := Boards.Apply(Advance(r, feed.now).0.board, verdict.key, verdict.score, 1);
      applied.Ok? && FeedRanking(r, feed).0.board.revision == applied.value.revision
  {
    hide Sound, WindowConsistent, UsersConsistent, ValidDefinition, ValidInstanceId, Score, Advance, IsCompetition,
         Bytes, Sum, Boards.Apply, UserDecision;
    AdvanceConsistent(r, feed.now);
  }

  lemma {:induction false} CoveredAfterEntries(b: Board, entries: seq<Entry>)
    requires Covered(b)
    ensures var r := RestoreEntries(b, entries); r.Ok? ==> Covered(r.value)
    decreases |entries|
  {
    hide Boards.Apply;
    if entries != [] {
      var front, last := entries[..|entries| - 1], entries[|entries| - 1];
      CoveredAfterEntries(b, front);
      var before := RestoreEntries(b, front);
      if before.Ok? { CoveredAfterApply(before.value, last.key, last.score, 1); }
    }
  }

  lemma CoveredAfterStep(r: RankState, op: RankOp)
    requires Consistent(r) && Covered(r.board) && !op.VotesRestored?
    ensures Covered(Step(r, op).board)
  {
    hide Sound, WindowConsistent, UsersConsistent, ValidDefinition, ValidInstanceId, FeedRanking, Boards.Apply,
         Reassign, RestoreEntries, AssignmentWeight, WindowError, UsersFit, IsCompetition;
    match op {
      case Fed(feed) => CoveredAfterFeed(r, feed);
      case Voted(previous, next) => CoveredAfterAssign(r, previous, next);
      case Committed(option, score) => CoveredAfterApply(r.board, option, score, 1);
      case CheckpointRestored(cp) =>
        CoveredAfterEntries(EmptyBoard(r.definition.capacity), cp.snapshot.entries);
      case _ =>
    }
  }

  lemma CoveredAfterAssign(r: RankState, previous: Option<Vote>, next: Vote)
    requires Consistent(r) && Covered(r.board)
    ensures Covered(Assign(r, previous, next).0.board)
  {
    hide Sound, WindowConsistent, UsersConsistent, ValidDefinition, ValidInstanceId, Boards.Apply, Reassign,
         AssignmentWeight;
    var held, weight := PreviousVote(previous, next), AssignmentWeight(r.definition);
    if weight.Ok? && held.votes <= next.votes && !MoveOverflows(weight.value, held, next)
       && AssignOnBoard(r.board, weight.value, held, next).Ok? {
      if held.option == next.option {
        CoveredAfterApply(r.board, next.option, next.votes - held.votes, weight.value);
      } else if weight.value != 0 {
        CoveredAfterReassign(r.board, held.option, next.option, held.votes * weight.value,
                             (next.votes - held.votes) * weight.value);
      }
    }
  }

  lemma {:induction false} CoveredRun(r: RankState, ops: seq<RankOp>)
    requires Consistent(r) && Covered(r.board)
    requires forall op :: op in ops ==> !op.VotesRestored?
    ensures Covered(Run(r, ops).board)
    decreases |ops|
  {
    hide Sound, WindowConsistent, UsersConsistent, ValidDefinition, ValidInstanceId, Step, Covered;
    if ops != [] {
      var front, last := ops[..|ops| - 1], ops[|ops| - 1];
      assert last in ops;
      assert forall op :: op in front ==> op in ops;
      CoveredRun(r, front);
      CoveredAfterStep(Run(r, front), last);
    }
  }

  /**
   * At any point of any run without a vote rebuild, restoring the checkpoint into a fresh
   * instance succeeds, shows equal snapshots, and from then on answers every sequence of
   * contributions and expiries identically.
   */
  lemma EveryCheckpointRestores(d: Definition, instance: u64, instanceId: string, ops: seq<RankOp>,
                                otherInstance: u64, otherId: string, feeds: seq<Feed>, limit: nat)
    requires ValidDefinition(d) && ValidInstanceId(instanceId) && ValidInstanceId(otherId)
    requires forall op :: op in ops ==> !op.VotesRestored?
    ensures var r := Run(Start(d, instance, instanceId), ops);
      var restored := Restore(Fresh(r.definition, otherInstance, otherId), Export(r));
      && restored.Ok? && Consistent(restored.value)
      && View(restored.value, limit) == View(r, limit)
      && Answers(restored.value, feeds).1 == Answers(r, feeds).1
      && View(Answers(restored.value, feeds).0, limit) == View(Answers(r, feeds).0, limit)
  {
    hide Sound, WindowConsistent, UsersConsistent, ValidDefinition, ValidInstanceId, Step, Restore, Export, View,
         Answers, Run;
    CoveredRun(Start(d, instance, instanceId), ops);
    RestoredAnswersIdentically(Run(Start(d, instance, instanceId), ops), otherInstance, otherId, feeds, limit);
  }
}
