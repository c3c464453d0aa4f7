/** A rolling ranking holds exactly what it accepted within the last `durationMs`. */
module RollingHistory {
  import opened Common
  import opened Totals
  import opened Model
  import opened Boards
  import opened Scoring
  import opened Rankings
  import opened RankingInvariant
  import opened Checkpoints
  import opened RestoredBehaviour
  import opened RankingRuns
  import opened PacketAccounting
  import opened ClockHistory

  /** The events that have not reached the age limit at a given time. */
  function Younger(events: seq<Event>, now: u64, duration: u64): seq<Event> {
    if events == [] then []
    else (if events[0].at + duration > now then [events[0]] else []) + Younger(events[1..], now, duration)
  }

  lemma {:induction false} YoungerOfSplit(events: seq<Event>, n: nat, now: u64, duration: u64)
    requires n <= |events|
    requires forall i :: 0 <= i < n ==> events[i].at + duration <= now
    requires forall i :: n <= i < |events| ==> events[i].at + duration > now
    ensures Younger(events, now, duration) == events[n..]
    decreases |events|
  {
    if events != [] {
      YoungerOfSplit(events[1..], if n == 0 then 0 else n - 1, now, duration);
      assert n == 0 ==> [events[0]] + events[1..] == events;
    }
  }

  /** How many accepted contributions have left the window. */
  function Gone(t: Traced): int {
    |t.history| - |t.ranking.windowEvents|
  }

  /** The window is the history without a prefix of contributions that are too old. */
  ghost predicate RollingTrace(t: Traced) {
    && TimeSorted(Events(t.history), t.ranking.lastTime)
    && (t.ranking.definition.window.Rolling? ==>
         && Gone(t) >= 0
         && t.ranking.windowEvents == Events(t.history)[Gone(t)..]
         && forall i :: 0 <= i < Gone(t) ==>
              SaturatingSub(t.ranking.lastTime, t.history[i].event.at) >= t.ranking.definition.window.durationMs)
  }

  lemma RollingAfterAdvance(t: Traced, now: u64)
    requires Consistent(t.ranking) && RollingTrace(t)
    ensures RollingTrace(Traced(Advance(t.ranking, now).0, t.history))
  {
    hide Sound, IsTally, UsersConsistent, ValidDefinition, ValidInstanceId, LocalDay, Drain;
    var r := t.ranking;
    if r.definition.window.Rolling? {
      var last, duration := Max(r.lastTime, now), r.definition.window.durationMs;
      DrainStops(r.board, r.windowEvents, last, duration);
      var after := Advance(r, now).0;
      var gone := Gone(Traced(after, t.history));
      var all := Events(t.history);
      assert after.windowEvents == r.windowEvents[|r.windowEvents| - |after.windowEvents|..];
      assert after.windowEvents == all[gone..];
      forall i | 0 <= i < gone ensures SaturatingSub(last, t.history[i].event.at) >= duration {
        if i >= Gone(t) { assert r.windowEvents[i - Gone(t)] == all[i]; }
      }
    }
  }

  lemma EventsAppend(history: seq<Accepted>, a: Accepted)
    ensures Events(history + [a]) == Events(history) + [a.event]
  {
  }

  lemma RollingAfterFeed(t: Traced, feed: Feed)
    requires Consistent(t.ranking) && RollingTrace(t)
    ensures RollingTrace(Traced(FeedRanking(t.ranking, feed).0, FeedHistory(t, feed)))
  {
    hide Sound, WindowConsistent, UsersConsistent, ValidDefinition, ValidInstanceId, Packet, Advance, Score, LocalDay;
    var r := t.ranking;
    if !Reached(r, feed) {
      OutOfScopeIsIgnored(r, feed.c, feed.now, feed.user, feed.gift);
    } else {
      AdvanceConsistent(r, feed.now);
      RollingAfterAdvance(t, feed.now);
      var current := Advance(r, feed.now).0;
      if FeedRanking(r, feed).1.Counted? {
        CountedEffect(r, feed.c, feed.now, feed.user, feed.gift);
        FeedMovesClock(r, feed);
        var after, verdict := FeedRanking(r, feed).0, FeedRanking(r, feed).1;
        var accepted := Accepted(Event(after.lastTime, verdict.key, verdict.score), feed.c.user);
        EventsAppend(Kept(t, feed), accepted);
        RollingAfterAppend(Traced(current, Kept(t, feed)), after, accepted);
      } else {
        UncountedEffect(r, feed);
      }
    }
  }

  lemma RollingAfterAppend(t: Traced, after: RankState, accepted: Accepted)
    requires RollingTrace(t) && accepted.event.at == after.lastTime == t.ranking.lastTime
    requires after.definition == t.ranking.definition
    requires after.windowEvents == t.ranking.windowEvents
             + (if t.ranking.definition.window.Rolling? then [accepted.event] else [])
    ensures RollingTrace(Traced(after, t.history + [accepted]))
  {
    EventsAppend(t.history, accepted);
    var all := Events(t.history);
    if t.ranking.definition.window.Rolling? {
      assert (all + [accepted.event])[Gone(t)..] == all[Gone(t)..] + [accepted.event];
    }
  }

  lemma RollingKeepsLedger(t: Traced, after: RankState)
    requires RollingTrace(t) && SameLedger(t.ranking, after)
    ensures RollingTrace(Traced(after, t.history))
  {
    assert after.definition.window == t.ranking.definition.window by {
      assert after.definition.(limit := 0).window == t.ranking.definition.(limit := 0).window;
    }
  }

  /** Votes leave windows and clocks alone. */
  lemma RollingIgnoresVotes(t: Traced, after: RankState)
    requires RollingTrace(t) && after.definition == t.ranking.definition
    requires after.windowEvents == t.ranking.windowEvents && after.lastTime == t.ranking.lastTime
    ensures RollingTrace(Traced(after, t.history))
  {
  }

  lemma NothingHeld(r: RankState)
    requires r.windowEvents == []
    ensures RollingTrace(Traced(r, []))
  {
  }

  lemma RollingAfterStep(t: Traced, op: RankOp)
    requires Consistent(t.ranking) && RollingTrace(t)
    ensures RollingTrace(Traced(Step(t.ranking, op), NextHistory(t, op)))
  {
    hide Consistent, FeedRanking, FeedHistory, RollingTrace, Restore, SameLedger, Assign, CommitScore, RestoreVotes;
    var after := Step(t.ranking, op);
    if op.Fed? {
      RollingAfterFeed(t, op.feed);
    } else if op.CheckpointRestored? {
      if Restore(t.ranking, op.checkpoint).Ok? { RollingAfterRestore(t, op.checkpoint); }
    } else if op.Voted? || op.Committed? || op.VotesRestored? {
      VotesNeedSession(t.ranking, op);
      RollingIgnoresVotes(t, after);
    } else if op.Reset? {
      if ResetRanking(t.ranking).1.Ok? { NothingHeld(after); }
    } else if op.Redefined? && Redefine(t.ranking, op.definition, op.reset).1.None? && op.reset {
      NothingHeld(after);
    } else {
      BookkeepingKeepsLedger(t.ranking, op);
      RollingKeepsLedger(t, after);
    }
  }

  lemma RollingAfterRestore(t: Traced, cp: Checkpoint)
    requires Restore(t.ranking, cp).Ok? && Consistent(t.ranking)
    ensures RollingTrace(Traced(Restore(t.ranking, cp).value, NextHistory(t, CheckpointRestored(cp))))
  {
    hide Sound, IsTally, UsersConsistent, ValidDefinition, ValidInstanceId, RestoreEntries;
    AcceptedCheckpointIsConsistent(t.ranking, cp);
  }

  lemma {:induction false} RollingRun(r: RankState, ops: seq<RankOp>)
    requires Consistent(r) && RollingTrace(Traced(r, []))
    ensures RollingTrace(Trace(r, ops))
    decreases |ops|
  {
    hide Sound, WindowConsistent, UsersConsistent, ValidDefinition, ValidInstanceId, Step, NextHistory, RollingTrace;
    if ops != [] {
      RollingRun(r, ops[..|ops| - 1]);
      RollingAfterStep(Trace(r, ops[..|ops| - 1]), ops[|ops| - 1]);
    }
  }

  /** What an expiry leaves of a window is what is young enough. */
  lemma ExpiryLeavesTheYoung(t: Traced, now: u64)
    requires Consistent(t.ranking) && RollingTrace(t) && t.ranking.definition.window.Rolling?
    ensures var (after, expiry) := Advance(t.ranking, now);
      && (expiry.Err? ==> after.board.revision == U64_MAX)
      && (expiry.Ok? ==>
           after.windowEvents == Younger(Events(t.history), after.lastTime, after.definition.window.durationMs))
  {
    hide Sound, IsTally, UsersConsistent, ValidInstanceId, Drain, Younger, AssignmentWeight, Bytes;
    RollingAfterAdvance(t, now);
    var (after, expiry) := Advance(t.ranking, now);
    var duration := t.ranking.definition.window.durationMs;
    DrainStops(t.ranking.board, t.ranking.windowEvents, after.lastTime, duration);
    if expiry.Ok? {
      var all, gone := Events(t.history), Gone(Traced(after, t.history));
      forall i | gone <= i < |all| ensures all[i].at + duration > after.lastTime {
        assert after.windowEvents[0] == all[gone];
        assert all[gone].at <= all[i].at <= after.lastTime;
      }
      YoungerOfSplit(all, gone, after.lastTime, duration);
    }
  }

  /**
   * Rolling windows are exact. In every run of a rolling ranking, the scores after an expiry are the tally
   * of precisely those accepted contributions that are younger than the window, counted back from the latest
   * time that reached the ranking; the expiry can only fail once the revision is spent.
   */
  lemma RollingScoresAreTheRecentTally(d: Definition, instance: u64, instanceId: string, ops: seq<RankOp>, now: u64)
    requires ValidDefinition(d) && ValidInstanceId(instanceId)
    requires Trace(Start(d, instance, instanceId), ops).ranking.definition.window.Rolling?
    ensures var t := Trace(Start(d, instance, instanceId), ops);
      var (after, expiry) := Advance(t.ranking, now);
      var clock := Clock(Start(d, instance, instanceId), ops);
      var latest := if now > clock then now else clock;
      && (expiry.Err? ==> after.board.revision == U64_MAX)
      && (expiry.Ok? ==>
           after.windowEvents == Younger(Events(t.history), latest, after.definition.window.durationMs)
           && IsTally(after.board.scores, after.windowEvents))
  {
    hide Sound, UsersConsistent, ValidDefinition, ValidInstanceId, Trace, Run, Advance, Younger, Clock, IsTally,
         RollingTrace, Consistent, WindowConsistent;
    var start := Start(d, instance, instanceId);
    NothingHeld(start);
    RollingRun(start, ops);
    ClockIsLatest(start, ops);
    var t := Trace(start, ops);
    ExpiryLeavesTheYoung(t, now);
    AdvanceConsistent(t.ranking, now);
    HeldIsTally(Advance(t.ranking, now).0);
    assert Advance(t.ranking, now).0.lastTime == Max(t.ranking.lastTime, now) by { AdvanceMovesClock(t.ranking, now); }
  }

  lemma HeldIsTally(r: RankState)
    requires Consistent(r) && r.definition.window.Rolling?
    ensures IsTally(r.board.scores, r.windowEvents)
  {
    hide IsTally, ValidDefinition, Sound, UsersConsistent;
  }

  lemma AdvanceMovesClock(r: RankState, now: u64)
    ensures Advance(r, now).0.lastTime == Max(r.lastTime, now)
  {
    hide Drain, LocalDay;
  }
}
