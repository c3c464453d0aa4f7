/** Per-user limits hold over whole runs: how many packets were accepted, and how far apart. */
module UserHistory {
  import opened Common
  import opened Totals
  import opened Model
  import opened Boards
  import opened Scoring
  import opened Rankings
  import opened RankingInvariant
  import opened Checkpoints
  import opened RestoredBehaviour
  import opened RankingRuns
  import opened PacketAccounting
  import opened ClockHistory
  import opened RollingHistory

  /** How many accepted packets came from a user. */
  function CountOf(history: seq<Accepted>, user: string): nat {
    if history == [] then 0
    else CountOf(history[..|history| - 1], user) + (if history[|history| - 1].user == Some(user) then 1 else 0)
  }

  function RecordedCount(users: map<string, UserState>, user: string): nat {
    if user in users then users[user].count else 0
  }

  /** Accepted packets of one user are at least the cooldown apart. */
  ghost predicate Spaced(history: seq<Accepted>, cooldown: u64) {
    forall i, j :: 0 <= i < j < |history| && history[i].user.Some? && history[i].user == history[j].user ==>
      history[j].event.at - history[i].event.at >= cooldown
  }

  /** The users of a history are on record, with all their packets; a checkpoint may have brought more. */
  ghost predicate UsersRecorded(history: seq<Accepted>, users: map<string, UserState>) {
    && (forall i :: 0 <= i < |history| && history[i].user.Some? ==>
        && history[i].user.value in users
        && history[i].event.at <= users[history[i].user.value].lastTime)
    && (forall user :: CountOf(history, user) <= RecordedCount(users, user))
  }

  ghost predicate UserTrace(t: Traced) {
    match t.ranking.definition.userLimits
    case None => true
    case Some(limits) =>
      && UsersRecorded(t.history, t.ranking.users)
      && (limits.cooldownMs.Some? ==> Spaced(t.history, limits.cooldownMs.value))
  }

  lemma UserAfterAdvance(t: Traced, feed: Feed)
    requires Consistent(t.ranking) && UserTrace(t) && Reached(t.ranking, feed)
    ensures UserTrace(Traced(Advance(t.ranking, feed.now).0, Kept(t, feed)))
  {
    hide Sound, WindowConsistent, UsersConsistent, ValidDefinition, ValidInstanceId, LocalDay, Drain;
  }

  lemma RecordedAfterAppend(history: seq<Accepted>, users: map<string, UserState>, accepted: Accepted,
                            next: map<string, UserState>)
    requires UsersRecorded(history, users)
    requires accepted.user.Some? && accepted.user.value in next
    requires next == users[accepted.user.value := next[accepted.user.value]]
    requires next[accepted.user.value].count == RecordedCount(users, accepted.user.value) + 1
    requires next[accepted.user.value].lastTime == accepted.event.at
    requires forall i :: 0 <= i < |history| ==> history[i].event.at <= accepted.event.at
    ensures UsersRecorded(history + [accepted], next)
  {
    var all := history + [accepted];
    assert all[..|all| - 1] == history;
    forall user ensures CountOf(all, user) <= RecordedCount(next, user) {
      assert CountOf(history, user) <= RecordedCount(users, user);
    }
  }

  lemma SpacedAfterAppend(history: seq<Accepted>, users: map<string, UserState>, accepted: Accepted, limits: UserLimits)
    requires UsersRecorded(history, users) && limits.cooldownMs.Some? && Spaced(history, limits.cooldownMs.value)
    requires accepted.user.Some?
    requires forall i :: 0 <= i < |history| ==> history[i].event.at <= accepted.event.at
    requires accepted.user.value in users ==> !CoolingDown(limits, users[accepted.user.value], accepted.event.at)
    ensures Spaced(history + [accepted], limits.cooldownMs.value)
  {
  }

  lemma UserAfterAppend(t: Traced, after: RankState, accepted: Accepted)
    requires Consistent(t.ranking) && UserTrace(t) && RollingTrace(t)
    requires accepted.event.at == t.ranking.lastTime
    requires UserDecision(t.ranking, accepted.user) == Ok(Allowed)
    requires after.definition == t.ranking.definition
    requires t.ranking.definition.userLimits.Some? ==>
      && accepted.user.value in after.users
      && after.users == t.ranking.users[accepted.user.value := after.users[accepted.user.value]]
      && after.users[accepted.user.value].count == RecordedCount(t.ranking.users, accepted.user.value) + 1
      && after.users[accepted.user.value].lastTime == t.ranking.lastTime
    ensures UserTrace(Traced(after, t.history + [accepted]))
  {
    hide Sound, WindowConsistent, UsersConsistent, ValidDefinition, ValidInstanceId, Bytes, UsersRecorded, Spaced;
    var limits := t.ranking.definition.userLimits;
    if limits.Some? {
      forall i | 0 <= i < |t.history| ensures t.history[i].event.at <= accepted.event.at {
        assert Events(t.history)[i] == t.history[i].event;
      }
      RecordedAfterAppend(t.history, t.ranking.users, accepted, after.users);
      if limits.value.cooldownMs.Some? {
        SpacedAfterAppend(t.history, t.ranking.users, accepted, limits.value);
      }
    }
  }

  lemma UserAfterFeed(t: Traced, feed: Feed)
    requires Consistent(t.ranking) && UserTrace(t) && RollingTrace(t)
    ensures UserTrace(Traced(FeedRanking(t.ranking, feed).0, FeedHistory(t, feed)))
  {
    hide Sound, WindowConsistent, UsersConsistent, ValidDefinition, ValidInstanceId, Packet, Advance, Score,
         UserDecision, UsersRecorded, Spaced, RollingTrace, Boards.Apply, LocalDay;
    var r := t.ranking;
    if !Reached(r, feed) {
      OutOfScopeIsIgnored(r, feed.c, feed.now, feed.user, feed.gift);
    } else {
      AdvanceConsistent(r, feed.now);
      UserAfterAdvance(t, feed);
      RollingAfterAdvance(t, feed.now);
      var current := Traced(Advance(r, feed.now).0, Kept(t, feed));
      RollingIfForgotten(Traced(current.ranking, t.history));
      if FeedRanking(r, feed).1.Counted? {
        CountedEffect(r, feed.c, feed.now, feed.user, feed.gift);
        FeedMovesClock(r, feed);
        var after, verdict := FeedRanking(r, feed).0, FeedRanking(r, feed).1;
        if r.definition.userLimits.Some? { AllowedUser(current.ranking, feed.c.user); }
        UserAfterAppend(current, after, Accepted(Event(after.lastTime, verdict.key, verdict.score), feed.c.user));
      } else {
        UncountedEffect(r, feed);
      }
    }
  }

  /** Only daily rankings forget, and they have no window. */
  lemma RollingIfForgotten(t: Traced)
    requires RollingTrace(t)
    ensures !t.ranking.definition.window.Rolling? ==> RollingTrace(Traced(t.ranking, []))
  {
  }

  lemma AllowedUser(r: RankState, user: Option<string>)
    requires UserDecision(r, user) == Ok(Allowed) && r.definition.userLimits.Some?
    ensures user.Some?
  {
  }

  lemma UserAfterStep(t: Traced, op: RankOp)
    requires Consistent(t.ranking) && UserTrace(t) && RollingTrace(t)
    ensures UserTrace(Traced(Step(t.ranking, op), NextHistory(t, op)))
  {
    hide Sound, WindowConsistent, UsersConsistent, ValidDefinition, ValidInstanceId, FeedRanking, FeedHistory, Spaced,
         RollingTrace, Restore, UsersRecorded;
    if op.Fed? {
      UserAfterFeed(t, op.feed);
    } else if op.CheckpointRestored? {
      if Restore(t.ranking, op.checkpoint).Ok? {
        var after := Step(t.ranking, op);
        UnknownUsers(NextHistory(t, op), after.users);
      }
    } else if op.Voted? || op.Committed? || op.VotesRestored? {
      VotesNeedSession(t.ranking, op);
    } else if op.Reset? {
      ForgettingIsRecorded();
    } else if op.Redefined? && Redefine(t.ranking, op.definition, op.reset).1.None? && op.reset {
      ForgettingIsRecorded();
    } else {
      BookkeepingKeepsLedger(t.ranking, op);
      assert Step(t.ranking, op).definition.(limit := 0).userLimits == t.ranking.definition.(limit := 0).userLimits;
    }
  }

  /** A history without users says nothing about any. */
  lemma {:induction false} UnknownUsers(history: seq<Accepted>, users: map<string, UserState>)
    requires forall i :: 0 <= i < |history| ==> history[i].user.None?
    ensures UsersRecorded(history, users) && forall cooldown :: Spaced(history, cooldown)
    decreases |history|
  {
    if history != [] {
      UnknownUsers(history[..|history| - 1], users);
      forall user ensures CountOf(history, user) == CountOf(history[..|history| - 1], user) {}
    }
  }

  lemma ForgettingIsRecorded()
    ensures UsersRecorded([], map[])
    ensures forall cooldown :: Spaced([], cooldown)
  {
  }

  lemma {:induction false} UserRun(r: RankState, ops: seq<RankOp>)
    requires Consistent(r) && UserTrace(Traced(r, [])) && RollingTrace(Traced(r, []))
    ensures UserTrace(Trace(r, ops))
    decreases |ops|
  {
    hide Sound, WindowConsistent, UsersConsistent, ValidDefinition, ValidInstanceId, Step, NextHistory, UserTrace,
         RollingTrace;
    if ops != [] {
      var front, last := ops[..|ops| - 1], ops[|ops| - 1];
      UserRun(r, front);
      RollingRun(r, front);
      UserAfterStep(Trace(r, front), last);
    }
  }

  /**
   * In every run, since a ranking with user limits was last cleared or restored: no user had more packets
   * accepted than `maxContributions`, and any two accepted packets of one user are at least
   * `cooldownMs` apart, even when timestamps went backwards.
   */
  lemma UsersStayWithinLimits(d: Definition, instance: u64, instanceId: string, ops: seq<RankOp>, user: string)
    requires ValidDefinition(d) && ValidInstanceId(instanceId)
    ensures var t := Trace(Start(d, instance, instanceId), ops);
      t.ranking.definition.userLimits.Some? ==>
        var limits := t.ranking.definition.userLimits.value;
        && (limits.maxContributions.Some? ==> CountOf(t.history, user) <= limits.maxContributions.value)
        && (limits.cooldownMs.Some? ==> Spaced(t.history, limits.cooldownMs.value))
  {
    hide Sound, WindowConsistent, ValidDefinition, ValidInstanceId, Trace, Spaced, Bytes;
    var start := Start(d, instance, instanceId);
    ForgettingIsRecorded();
    assert RollingTrace(Traced(start, []));
    UserRun(start, ops);
    var t := Trace(start, ops);
    if t.ranking.definition.userLimits.Some? && user in t.ranking.users {
      assert UserWithinLimits(t.ranking.definition.userLimits.value, t.ranking.users[user], t.ranking.lastTime);
    }
  }
}
