/** The clock of a ranking: the latest time it was fed since it was last cleared or restored. */
module ClockHistory {
  import opened Common
  import opened Totals
  import opened Model
  import opened Scoring
  import opened Rankings
  import opened RankingInvariant
  import opened Checkpoints
  import opened RestoredBehaviour
  import opened RankingRuns
  import opened PacketAccounting

  /**
   * The latest time among the feeds that reached a ranking. Clearing it starts over from zero, and a restored
   * checkpoint brings its own time.
   */
  ghost function Clock(r: RankState, ops: seq<RankOp>): u64
    requires Consistent(r)
    decreases |ops|
  {
    if ops == [] then r.lastTime
    else
      var front := ops[..|ops| - 1];
      var before, was := Run(r, front), Clock(r, front);
      match ops[|ops| - 1]
      case Fed(feed) => if Reached(before, feed) && feed.now > was then feed.now else was
      case Reset => if ResetRanking(before).1.Ok? then 0 else was
      case Redefined(d, reset) => if Redefine(before, d, reset).1.None? && reset then 0 else was
      case CheckpointRestored(cp) => if Restore(before, cp).Ok? then cp.lastTime else was
      case _ => was
  }

  /** Whatever the window, a feed that reaches a ranking moves its clock to the feed's time, never backwards. */
  lemma FeedMovesClock(r: RankState, feed: Feed)
    requires Consistent(r)
    ensures FeedRanking(r, feed).0.lastTime ==
      if Reached(r, feed) && feed.now > r.lastTime then feed.now else r.lastTime
  {
    hide Consistent, Packet, LocalDay, Drain;
    if !Reached(r, feed) {
      OutOfScopeIsIgnored(r, feed.c, feed.now, feed.user, feed.gift);
    } else {
      assert Advance(r, feed.now).0.lastTime == Max(r.lastTime, feed.now);
      if FeedRanking(r, feed).1.Counted? {
        CountedClock(r, feed);
      } else {
        UncountedEffect(r, feed);
      }
    }
  }

  lemma CountedClock(r: RankState, feed: Feed)
    requires Consistent(r) && FeedRanking(r, feed).1.Counted?
    ensures FeedRanking(r, feed).0.lastTime == Advance(r, feed.now).0.lastTime
  {
    hide Consistent, Packet, Advance;
    CountedEffect(r, feed.c, feed.now, feed.user, feed.gift);
  }

  lemma StepMovesClock(r: RankState, op: RankOp)
    requires Consistent(r)
    ensures Step(r, op).lastTime == match op
      case Fed(feed) => if Reached(r, feed) && feed.now > r.lastTime then feed.now else r.lastTime
      case Reset => if ResetRanking(r).1.Ok? then 0 else r.lastTime
      case Redefined(d, reset) => if Redefine(r, d, reset).1.None? && reset then 0 else r.lastTime
      case CheckpointRestored(cp) => if Restore(r, cp).Ok? then cp.lastTime else r.lastTime
      case _ => r.lastTime
  {
    hide Consistent, FeedRanking, RestoreEntries, WindowError, UsersFit, ValidDefinition, Assign, CommitScore,
         RestoreVotes, IsCompetition, DependsOn;
    match op {
      case Fed(feed) => FeedMovesClock(r, feed);
      case Voted(_, _) => VotesNeedSession(r, op);
      case Committed(_, _) => VotesNeedSession(r, op);
      case VotesRestored(_, _) => VotesNeedSession(r, op);
      case _ =>
    }
  }

  /** In every run, restores included, a ranking's clock is the latest time that reached it. */
  lemma {:induction false} ClockIsLatest(r: RankState, ops: seq<RankOp>)
    requires Consistent(r)
    ensures Run(r, ops).lastTime == Clock(r, ops)
    decreases |ops|
  {
    hide Consistent, Step, Reached, Restore, Redefine, ResetRanking;
    if ops != [] {
      ClockIsLatest(r, ops[..|ops| - 1]);
      StepMovesClock(Run(r, ops[..|ops| - 1]), ops[|ops| - 1]);
    }
  }

  /** An accepted packet enters the history last, at the clock after it, under its key, with its exact score. */
  lemma AcceptedAtTheClock(r: RankState, front: seq<RankOp>, feed: Feed)
    requires Consistent(r) && feed.Arrival? && FeedRanking(Run(r, front), feed).1.Counted?
    ensures var (before, all) := (Run(r, front), front + [Fed(feed)]);
      var history := Trace(r, all).history;
      && history != []
      && GroupingKey(before.definition.groupBy, feed.c).Some?
      && ExactScore(before.definition.sources, feed.c) <= U64_MAX
      && history[|history| - 1] == Accepted(
           Event(Clock(r, all), GroupingKey(before.definition.groupBy, feed.c).value,
                 ExactScore(before.definition.sources, feed.c)), feed.c.user)
  {
    hide Consistent, FeedRanking, ExactScore, Clock, Run, FeedHistory;
    var all := front + [Fed(feed)];
    assert all[..|all| - 1] == front && all[|all| - 1] == Fed(feed);
    CountedExactly(Run(r, front), feed);
    ClockAfterFeed(r, front, feed);
    AcceptedLast(Trace(r, front), feed);
  }

  lemma ClockAfterFeed(r: RankState, front: seq<RankOp>, feed: Feed)
    requires Consistent(r) && Reached(Run(r, front), feed)
    ensures Clock(r, front + [Fed(feed)]) == Max(Run(r, front).lastTime, feed.now)
  {
    hide Consistent, Run, Reached;
    var all := front + [Fed(feed)];
    assert all[..|all| - 1] == front && all[|all| - 1] == Fed(feed);
    ClockIsLatest(r, front);
  }

  lemma AcceptedLast(t: Traced, feed: Feed)
    requires feed.Arrival? && FeedRanking(t.ranking, feed).1.Counted?
    ensures var (history, verdict) := (FeedHistory(t, feed), FeedRanking(t.ranking, feed).1);
      && history != []
      && history[|history| - 1]
         == Accepted(Event(Max(t.ranking.lastTime, feed.now), verdict.key, verdict.score), feed.c.user)
  {
    hide FeedRanking;
  }

  lemma CountedExactly(r: RankState, feed: Feed)
    requires Consistent(r) && feed.Arrival? && FeedRanking(r, feed).1.Counted?
    ensures var verdict := FeedRanking(r, feed).1;
      && Reached(r, feed) && GroupingKey(r.definition.groupBy, feed.c) == Some(verdict.key)
      && ExactScore(r.definition.sources, feed.c) == verdict.score
  {
    hide Consistent, Packet, ExactScore, Advance, Added;
    OutOfScopeIsIgnored(r, feed.c, feed.now, feed.user, feed.gift);
    PacketIsAccountedOnce(r, feed.c, feed.now, feed.user, feed.gift);
    AdvanceConsistent(r, feed.now);
  }
}
