/** A daily ranking holds exactly what it accepted on the local day of its clock. */
module DailyHistory {
  import opened Common
  import opened Totals
  import opened Model
  import opened Boards
  import opened Scoring
  import opened Rankings
  import opened RankingInvariant
  import opened Checkpoints
  import opened RestoredBehaviour
  import opened RankingRuns
  import opened PacketAccounting
  import opened ClockHistory
  import opened RollingHistory

  /** Days never go backwards, and a day is a full 24 hours of local time. */
  lemma LocalDayIsADay(a: u64, b: u64, offset: int)
    requires -840 <= offset <= 840
    ensures a <= b ==> LocalDay(a, offset) <= LocalDay(b, offset)
    ensures a <= I64_MAX - 840 * 60_000 ==>
      LocalDay(a, offset) * DAY_MS <= a + offset * 60_000 < (LocalDay(a, offset) + 1) * DAY_MS
  {
  }

  /** A day change clears scores, users and counters; without one nothing is cleared. */
  lemma AdvanceClearsAtDayEnd(r: RankState, now: u64)
    requires Consistent(r) && r.definition.window.Daily? && r.board.revision < U64_MAX
    ensures var after := Advance(r, now).0;
      if DayEnds(r, now)
      then after.board.scores == map[] && after.users == map[] && CountersOf(after) == Counters(0, 0, 0, 0)
           && after.board.revision == r.board.revision + 1
      else after == r.(lastTime := Max(r.lastTime, now))
    ensures Advance(r, now).1.Ok?
  {
    hide Sound, UsersConsistent, ValidDefinition, ValidInstanceId, LocalDay;
  }

  // ---- what a feed clears --------------------------------------------------

  /** What a daily ranking accounts: its scores, users and counters. */
  datatype Accounts = Accounts(scores: map<string, u64>, users: map<string, UserState>, counters: Counters)

  function AccountsOf(r: RankState): Accounts {
    Accounts(r.board.scores, r.users, CountersOf(r))
  }

  const NONE := Accounts(map[], map[], Counters(0, 0, 0, 0))

  /** The ranking's clock, once it has been set, moved to a later local day. */
  predicate DayAdvanced(r: RankState, after: RankState)
    requires r.definition.window.Daily?
  {
    var offset := r.definition.window.utcOffsetMinutes;
    r.lastTime != 0 && LocalDay(after.lastTime, offset) > LocalDay(r.lastTime, offset)
  }

  /** One more packet was counted for a user, and nothing changed for the others. */
  predicate OneMore(before: map<string, UserState>, after: map<string, UserState>, user: Option<string>) {
    && user.Some? && user.value in after
    && after == before[user.value := after[user.value]]
    && after[user.value].count == (if user.value in before then before[user.value].count else 0) + 1
  }

  /** One verdict adds its score to one key and one packet to one user, or one to one counter, or nothing. */
  ghost predicate Grown(before: Accounts, after: Accounts, c: Contribution, verdict: Verdict) {
    match verdict
    case Counted(key, score) =>
      && Get(before.scores, key) + score <= U64_MAX
      && after.scores == before.scores[key := Get(before.scores, key) + score]
      && after.counters == before.counters
      && (after.users == before.users || OneMore(before.users, after.users, c.user))
    case OverLimit => after == before.(counters := before.counters.(
      limited := SaturatingAdd(before.counters.limited, 1)))
    case TooSoon => after == before.(counters := before.counters.(
      cooldown := SaturatingAdd(before.counters.cooldown, 1)))
    case Refused(_) => after == before.(counters := before.counters.(
      rejected := SaturatingAdd(before.counters.rejected, 1)))
    case ExpiryFailed(_) => false
    case _ => after == before
  }

  /**
   * A packet or tick at a daily ranking: everything accounted before is gone if the ranking's local day
   * advanced, and all of it is still there if it did not; what the packet itself adds comes on top.
   */
  lemma FeedClearsExactly(r: RankState, feed: Feed)
    requires Consistent(r) && r.definition.window.Daily? && r.board.revision < U64_MAX
    ensures var (after, verdict) := FeedRanking(r, feed);
      match feed
      case Arrival(c, _, _, _) =>
        Grown(if DayAdvanced(r, after) then NONE else AccountsOf(r), AccountsOf(after), c, verdict)
      case Tick(_) => AccountsOf(after) == (if DayAdvanced(r, after) then NONE else AccountsOf(r))
  {
    hide Sound, WindowConsistent, UsersConsistent, ValidDefinition, ValidInstanceId, Packet, Advance, Grown, LocalDay;
    AdvanceClearsAtDayEnd(r, feed.now);
    AdvanceConsistent(r, feed.now);
    var current := Advance(r, feed.now).0;
    DayEndsForward(r, feed.now);
    match feed {
      case Tick(_) =>
      case Arrival(c, now, user, gift) =>
        if InScope(r, c) {
          PacketGrows(r, c, now, user, gift);
        } else {
          OutOfScopeIsIgnored(r, c, now, user, gift);
          NothingGrows(AccountsOf(r), c);
        }
    }
  }

  lemma NothingGrows(accounts: Accounts, c: Contribution)
    ensures Grown(accounts, accounts, c, OutOfScope)
  {
  }

  /** Clocks only move forward, so another day is a later one. */
  lemma DayEndsForward(r: RankState, now: u64)
    requires Consistent(r) && r.definition.window.Daily? && r.board.revision < U64_MAX
    ensures DayEnds(r, now) <==> DayAdvanced(r, Advance(r, now).0)
    ensures !DayAdvanced(r, r)
  {
    hide Sound, UsersConsistent, ValidInstanceId, LocalDay;
    var offset := r.definition.window.utcOffsetMinutes;
    LocalDayIsADay(r.lastTime, Max(r.lastTime, now), offset);
  }

  lemma PacketGrows(r: RankState, c: Contribution, now: u64, user: Option<Metadata>, gift: Option<Metadata>)
    requires Consistent(r) && InScope(r, c) && Advance(r, now).1.Ok?
    ensures var (after, verdict) := Packet(r, c, now, user, gift);
      && after.lastTime == Advance(r, now).0.lastTime
      && Grown(AccountsOf(Advance(r, now).0), AccountsOf(after), c, verdict)
  {
    hide Consistent, Packet, Advance, ExactScore, IsCompetition, Sum, Bytes;
    PacketIsAccountedOnce(r, c, now, user, gift);
    if Packet(r, c, now, user, gift).1.Counted? {
      CountedEffect(r, c, now, user, gift);
      CountedUsers(Advance(r, now).0, c);
    } else {
      UncountedClock(r, c, now, user, gift);
    }
  }

  /** An accepted packet is counted for its user if users are limited, and for nobody otherwise. */
  lemma CountedUsers(r: RankState, c: Contribution)
    requires UserDecision(r, c.user) == Ok(Allowed)
    ensures r.definition.userLimits.Some? ==> c.user.Some?
    ensures r.definition.userLimits.Some? && c.user.value in r.users ==> r.users[c.user.value].count < U64_MAX
    ensures forall key: string, score: u64 ::
      var after := Accept(r, r.board, c, key, score, None).users;
      after == r.users || OneMore(r.users, after, c.user)
  {
  }

  lemma UncountedClock(r: RankState, c: Contribution, now: u64, user: Option<Metadata>, gift: Option<Metadata>)
    requires Consistent(r) && InScope(r, c) && !Packet(r, c, now, user, gift).1.Counted?
    ensures Packet(r, c, now, user, gift).0.lastTime == Advance(r, now).0.lastTime
    ensures NothingAdded(Advance(r, now).0, Packet(r, c, now, user, gift).0)
  {
    hide Consistent, Packet, Advance;
    UncountedEffect(r, Arrival(c, now, user, gift));
  }

  /** What a daily ranking still holds; after its last revision it can no longer clear. */
  ghost predicate DailyTrace(t: Traced) {
    t.ranking.definition.window.Daily? && t.ranking.board.revision < U64_MAX ==>
      && WindowBacks(t.ranking.board.scores, Events(t.history))
      && (t.ranking.lastTime == 0 ==> t.history == [])
      && forall i :: 0 <= i < |t.history| ==> SameDay(t, i)
  }

  ghost predicate SameDay(t: Traced, i: int)
    requires t.ranking.definition.window.Daily? && 0 <= i < |t.history|
  {
    var offset := t.ranking.definition.window.utcOffsetMinutes;
    LocalDay(t.history[i].event.at, offset) == LocalDay(t.ranking.lastTime, offset)
  }

  lemma DailyAfterAdvance(t: Traced, feed: Feed)
    requires Consistent(t.ranking) && DailyTrace(t) && feed.now >= 1 && Reached(t.ranking, feed)
    ensures DailyTrace(Traced(Advance(t.ranking, feed.now).0, Kept(t, feed)))
    ensures t.ranking.definition.window.Daily? ==> Advance(t.ranking, feed.now).0.lastTime >= 1
  {
    hide Sound, UsersConsistent, ValidDefinition, ValidInstanceId, LocalDay, IsTally;
    var r := t.ranking;
    if r.definition.window.Daily? && r.board.revision < U64_MAX {
      AdvanceClearsAtDayEnd(r, feed.now);
      EmptyIsBacked();
      var after := Traced(Advance(r, feed.now).0, Kept(t, feed));
      forall i | 0 <= i < |after.history| ensures SameDay(after, i) { assert SameDay(t, i); }
      assert Events([]) == [];
    }
  }

  lemma DailyAfterAppend(t: Traced, after: RankState, accepted: Accepted, score: u64)
    requires Consistent(t.ranking) && DailyTrace(t)
    requires after.definition == t.ranking.definition && after.lastTime == t.ranking.lastTime
    requires t.ranking.definition.window.Daily? ==> after.lastTime >= 1
    requires accepted.event.at == after.lastTime && accepted.event.score > 0
    requires after.board.revision > t.ranking.board.revision
    requires var applied := Boards.Apply(t.ranking.board, accepted.event.key, accepted.event.score, 1);
      applied.Ok? && after.board.scores == applied.value.scores
    ensures DailyTrace(Traced(after, t.history + [accepted]))
  {
    hide Sound, UsersConsistent, ValidDefinition, ValidInstanceId, LocalDay, IsTally, Boards.Apply;
    if t.ranking.definition.window.Daily? && after.board.revision < U64_MAX {
      AppendBacked(t.ranking.board, Events(t.history), accepted.event);
      EventsAppend(t.history, accepted);
      var next := Traced(after, t.history + [accepted]);
      forall i | 0 <= i < |next.history| ensures SameDay(next, i) {
        if i < |t.history| { assert SameDay(t, i); }
      }
    }
  }

  lemma DailyAfterFeed(t: Traced, feed: Feed)
    requires Consistent(t.ranking) && DailyTrace(t) && feed.now >= 1
    ensures DailyTrace(Traced(FeedRanking(t.ranking, feed).0, FeedHistory(t, feed)))
  {
    hide Sound, WindowConsistent, UsersConsistent, ValidDefinition, ValidInstanceId, Packet, Advance, Score, DailyTrace,
         Boards.Apply;
    var r := t.ranking;
    if !Reached(r, feed) {
      OutOfScopeIsIgnored(r, feed.c, feed.now, feed.user, feed.gift);
    } else {
      AdvanceConsistent(r, feed.now);
      DailyAfterAdvance(t, feed);
      var current := Traced(Advance(r, feed.now).0, Kept(t, feed));
      if FeedRanking(r, feed).1.Counted? {
        CountedEffect(r, feed.c, feed.now, feed.user, feed.gift);
        FeedMovesClock(r, feed);
        var after, verdict := FeedRanking(r, feed).0, FeedRanking(r, feed).1;
        DailyAfterAppend(current, after, Accepted(Event(after.lastTime, verdict.key, verdict.score), feed.c.user),
          verdict.score);
      } else {
        UncountedEffect(r, feed);
        DailyKeepsLedger(current, FeedRanking(r, feed).0);
      }
    }
  }

  lemma DailyKeepsLedger(t: Traced, after: RankState)
    requires DailyTrace(t) && SameLedger(t.ranking, after)
    ensures DailyTrace(Traced(after, t.history))
  {
    hide IsTally, LocalDay;
    assert after.definition.window == t.ranking.definition.window by {
      assert after.definition.(limit := 0).window == t.ranking.definition.(limit := 0).window;
    }
    if after.definition.window.Daily? && after.board.revision < U64_MAX {
      forall i | 0 <= i < |t.history| ensures SameDay(Traced(after, t.history), i) { assert SameDay(t, i); }
    }
  }

  /** Feeds carry real timestamps, and so do checkpoints with scores. */
  predicate Genuine(op: RankOp) {
    match op
    case Fed(feed) => feed.now >= 1
    case CheckpointRestored(cp) => cp.lastTime >= 1 || cp.snapshot.entries == []
    case _ => true
  }

  lemma {:induction false} RestoredTally(b: Board, entries: seq<Entry>, time: u64)
    requires b.scores == map[] && RestoreEntries(b, entries).Ok?
    ensures WindowBacks(RestoreEntries(b, entries).value.scores, Stamped(entries, time))
    decreases |entries|
  {
    hide Boards.Apply, IsTally, Bytes;
    if entries == [] {
      EmptyIsBacked();
      assert Stamped(entries, time) == [];
    } else {
      var front, last := entries[..|entries| - 1], entries[|entries| - 1];
      RestoredTally(b, front, time);
      var before := RestoreEntries(b, front).value;
      AppendBacked(before, Stamped(front, time), Event(time, last.key, last.score));
      assert Stamped(entries, time) == Stamped(front, time) + [Event(time, last.key, last.score)];
      DescribingKeepsScores(Boards.Apply(before, last.key, last.score, 1).value, last.key, EntryFields(last));
    }
  }

  function Stamped(entries: seq<Entry>, time: u64): seq<Event> {
    seq(|entries|, i requires 0 <= i < |entries| => Event(time, entries[i].key, entries[i].score))
  }

  /** Restored scores count as accepted at the checkpoint's clock. */
  lemma DailyAfterRestore(t: Traced, cp: Checkpoint)
    requires Restore(t.ranking, cp).Ok? && Genuine(CheckpointRestored(cp))
    ensures DailyTrace(Traced(Restore(t.ranking, cp).value, NextHistory(t, CheckpointRestored(cp))))
  {
    hide Sound, IsTally, UsersConsistent, ValidDefinition, ValidInstanceId, LocalDay, RestoreEntries;
    if t.ranking.definition.window.Daily? {
      RestoredTally(EmptyBoard(t.ranking.definition.capacity), cp.snapshot.entries, cp.lastTime);
      var next := Traced(Restore(t.ranking, cp).value, NextHistory(t, CheckpointRestored(cp)));
      assert Events(next.history) == Stamped(cp.snapshot.entries, cp.lastTime);
      forall i | 0 <= i < |next.history| ensures SameDay(next, i) {
        assert next.history[i].event == Events(next.history)[i];
      }
    }
  }

  lemma DailyAfterStep(t: Traced, op: RankOp)
    requires Consistent(t.ranking) && DailyTrace(t) && Genuine(op)
    ensures DailyTrace(Traced(Step(t.ranking, op), NextHistory(t, op)))
  {
    hide Sound, IsTally, UsersConsistent, ValidDefinition, ValidInstanceId, FeedRanking, FeedHistory, LocalDay, Restore;
    EmptyIsBacked();
    if op.Fed? {
      DailyAfterFeed(t, op.feed);
    } else if op.CheckpointRestored? {
      if Restore(t.ranking, op.checkpoint).Ok? { DailyAfterRestore(t, op.checkpoint); }
    } else if op.Voted? || op.Committed? || op.VotesRestored? {
      VotesNeedSession(t.ranking, op);
    } else if op.Reset? {
      if ResetRanking(t.ranking).1.Err? { DailyKeepsLedger(t, Step(t.ranking, op)); }
    } else if op.Redefined? && Redefine(t.ranking, op.definition, op.reset).1.None? && op.reset {
    } else {
      BookkeepingKeepsLedger(t.ranking, op);
      DailyKeepsLedger(t, Step(t.ranking, op));
    }
  }

  lemma {:induction false} DailyRun(r: RankState, ops: seq<RankOp>)
    requires Consistent(r) && DailyTrace(Traced(r, []))
    requires forall op :: op in ops ==> Genuine(op)
    ensures DailyTrace(Trace(r, ops))
    decreases |ops|
  {
    hide Sound, WindowConsistent, UsersConsistent, ValidDefinition, ValidInstanceId, Step, NextHistory, DailyTrace,
         Genuine;
    if ops != [] {
      var front, last := ops[..|ops| - 1], ops[|ops| - 1];
      assert last in ops;
      assert forall op :: op in front ==> op in ops;
      DailyRun(r, front);
      DailyAfterStep(Trace(r, front), last);
    }
  }

  /**
   * In every run of a daily ranking fed with timestamps of at least one, all score still held is
   * the tally of contributions accepted on the local calendar day of the ranking's clock, at
   * every offset, as long as the revision is not spent. Scores from a checkpoint count as accepted at
   * the checkpoint's clock.
   */
  lemma HeldScoreIsFromToday(d: Definition, instance: u64, instanceId: string, ops: seq<RankOp>)
    requires ValidDefinition(d) && ValidInstanceId(instanceId)
    requires forall op :: op in ops ==> Genuine(op)
    ensures var t := Trace(Start(d, instance, instanceId), ops);
      t.ranking.definition.window.Daily? && t.ranking.board.revision < U64_MAX ==>
        && IsTally(t.ranking.board.scores, Events(t.history))
        && forall i :: 0 <= i < |t.history| ==> SameDay(t, i)
  {
    hide Sound, IsTally, WindowConsistent, UsersConsistent, ValidDefinition, ValidInstanceId, Trace, LocalDay, Genuine;
    EmptyIsBacked();
    assert Events([]) == [];
    DailyRun(Start(d, instance, instanceId), ops);
  }

  /**
   * In every run of a daily ranking, what a packet or tick leaves of the scores, users and counters held before
   * is all of them or none, and none exactly when the ranking's local day advanced.
   */
  lemma ClearedExactlyWhenTheDayAdvances(d: Definition, instance: u64, instanceId: string, ops: seq<RankOp>, i: nat)
    requires ValidDefinition(d) && ValidInstanceId(instanceId) && i < |ops| && ops[i].Fed?
    requires var r := Run(Start(d, instance, instanceId), ops[..i]);
      r.definition.window.Daily? && r.board.revision < U64_MAX
    ensures var start := Start(d, instance, instanceId);
      var (r, after) := (Run(start, ops[..i]), Run(start, ops[..i + 1]));
      var held := if DayAdvanced(r, after) then NONE else AccountsOf(r);
      match ops[i].feed
      case Arrival(c, _, _, _) => Grown(held, AccountsOf(after), c, FeedRanking(r, ops[i].feed).1)
      case Tick(_) => AccountsOf(after) == held
  {
    hide Consistent, FeedRanking, Grown, LocalDay, ValidDefinition, ValidInstanceId;
    assert ops[..i + 1][..i] == ops[..i];
    FeedClearsExactly(Run(Start(d, instance, instanceId), ops[..i]), ops[i].feed);
  }
}
