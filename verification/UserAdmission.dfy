/** Which packets a ranking accepts, told by its history alone: window room, user limits, cooldowns and capacity. */
module UserAdmission {
  import opened Common
  import opened Totals
  import opened Model
  import opened Boards
  import opened Scoring
  import opened Rankings
  import opened RankingInvariant
  import opened Checkpoints
  import opened RestoredBehaviour
  import opened RankingRuns
  import opened PacketAccounting
  import opened ClockHistory
  import opened RollingHistory
  import opened UserHistory

  // ---- users told by the history -------------------------------------------

  /** What an operation leaves of the users that the last restore brought along. */
  ghost function BroughtNext(r: RankState, brought: map<string, UserState>, op: RankOp): map<string, UserState> {
    match op
    case Fed(feed) => if Reached(r, feed) && DayEnds(r, feed.now) then map[] else brought
    case Reset => if ResetRanking(r).1.Ok? then map[] else brought
    case Redefined(d, reset) => if Redefine(r, d, reset).1.None? && reset then map[] else brought
    case CheckpointRestored(cp) => if Restore(r, cp).Ok? then cp.users else brought
    case _ => brought
  }

  /** The users that the last restore of a run brought along, if nothing was cleared since. */
  ghost function Brought(r: RankState, ops: seq<RankOp>): map<string, UserState>
    requires Consistent(r)
    decreases |ops|
  {
    if ops == [] then r.users
    else BroughtNext(Run(r, ops[..|ops| - 1]), Brought(r, ops[..|ops| - 1]), ops[|ops| - 1])
  }

  /** How many packets of a user were accepted, those a checkpoint tells of included. */
  function AcceptedOf(brought: map<string, UserState>, history: seq<Accepted>, user: string): nat {
    RecordedCount(brought, user) + CountOf(history, user)
  }

  /** When the last accepted packet of a user came, if there was one. */
  function LastOf(brought: map<string, UserState>, history: seq<Accepted>, user: string): Option<u64> {
    if history == [] then (if user in brought then Some(brought[user].lastTime) else None)
    else if history[|history| - 1].user == Some(user) then Some(history[|history| - 1].event.at)
    else LastOf(brought, history[..|history| - 1], user)
  }

  /** The users on record are exactly those of the history and of the checkpoint before it. */
  ghost predicate Recorded(brought: map<string, UserState>, history: seq<Accepted>, users: map<string, UserState>) {
    forall user ::
      && (user in users <==> LastOf(brought, history, user).Some?)
      && (user in users ==>
           users[user].count == AcceptedOf(brought, history, user)
           && Some(users[user].lastTime) == LastOf(brought, history, user))
      && (user !in users ==> AcceptedOf(brought, history, user) == 0)
  }

  ghost predicate RecordTrace(t: Traced, brought: map<string, UserState>) {
    t.ranking.definition.userLimits.Some? ==> Recorded(brought, t.history, t.ranking.users)
  }

  lemma NobodyRecorded(users: map<string, UserState>)
    ensures Recorded(users, [], users)
  {
  }

  lemma {:induction false} AnonymousAreNotRecorded(users: map<string, UserState>, history: seq<Accepted>)
    requires forall i :: 0 <= i < |history| ==> history[i].user.None?
    ensures Recorded(users, history, users)
    decreases |history|
  {
    if history == [] {
      NobodyRecorded(users);
    } else {
      AnonymousAreNotRecorded(users, history[..|history| - 1]);
    }
  }

  lemma RecordedNext(brought: map<string, UserState>, history: seq<Accepted>, users: map<string, UserState>,
                     accepted: Accepted, next: map<string, UserState>)
    requires Recorded(brought, history, users)
    requires accepted.user.Some? && accepted.user.value in next
    requires next == users[accepted.user.value := next[accepted.user.value]]
    requires next[accepted.user.value].count == RecordedCount(users, accepted.user.value) + 1
    requires next[accepted.user.value].lastTime == accepted.event.at
    ensures Recorded(brought, history + [accepted], next)
  {
    var all := history + [accepted];
    assert all[..|all| - 1] == history;
    forall user
      ensures LastOf(brought, all, user)
           == if accepted.user == Some(user) then Some(accepted.event.at) else LastOf(brought, history, user)
      ensures AcceptedOf(brought, all, user)
           == AcceptedOf(brought, history, user) + (if accepted.user == Some(user) then 1 else 0)
    {
    }
  }

  lemma RecordsAfterFeed(t: Traced, brought: map<string, UserState>, feed: Feed)
    requires Consistent(t.ranking) && RecordTrace(t, brought)
    ensures RecordTrace(Traced(FeedRanking(t.ranking, feed).0, FeedHistory(t, feed)),
                        BroughtNext(t.ranking, brought, Fed(feed)))
  {
    hide Sound, WindowConsistent, UsersConsistent, ValidDefinition, ValidInstanceId, Packet, Advance, Score,
         UserDecision, Recorded, Boards.Apply, LocalDay;
    var r := t.ranking;
    if !Reached(r, feed) {
      OutOfScopeIsIgnored(r, feed.c, feed.now, feed.user, feed.gift);
    } else {
      AdvanceConsistent(r, feed.now);
      RecordsAfterAdvance(t, brought, feed);
      var current, kept := Advance(r, feed.now).0, Kept(t, feed);
      var next := BroughtNext(r, brought, Fed(feed));
      if FeedRanking(r, feed).1.Counted? {
        CountedEffect(r, feed.c, feed.now, feed.user, feed.gift);
        FeedMovesClock(r, feed);
        var after, verdict := FeedRanking(r, feed).0, FeedRanking(r, feed).1;
        if r.definition.userLimits.Some? {
          AllowedUser(current, feed.c.user);
          var accepted := Accepted(Event(Max(r.lastTime, feed.now), verdict.key, verdict.score), feed.c.user);
          RecordedNext(next, kept, current.users, accepted, after.users);
        }
      } else {
        UncountedEffect(r, feed);
      }
    }
  }

  lemma RecordsAfterAdvance(t: Traced, brought: map<string, UserState>, feed: Feed)
    requires Consistent(t.ranking) && RecordTrace(t, brought) && Reached(t.ranking, feed)
    ensures RecordTrace(Traced(Advance(t.ranking, feed.now).0, Kept(t, feed)),
                        BroughtNext(t.ranking, brought, Fed(feed)))
  {
    hide Sound, WindowConsistent, UsersConsistent, ValidDefinition, ValidInstanceId, LocalDay, Drain, Recorded;
    NobodyRecorded(map[]);
  }

  lemma RecordsAfterStep(t: Traced, brought: map<string, UserState>, op: RankOp)
    requires Consistent(t.ranking) && RecordTrace(t, brought)
    ensures RecordTrace(Traced(Step(t.ranking, op), NextHistory(t, op)), BroughtNext(t.ranking, brought, op))
  {
    hide Sound, WindowConsistent, UsersConsistent, ValidDefinition, ValidInstanceId, FeedRanking, FeedHistory,
         Restore, Recorded;
    NobodyRecorded(map[]);
    if op.Fed? {
      RecordsAfterFeed(t, brought, op.feed);
    } else if op.CheckpointRestored? {
      if Restore(t.ranking, op.checkpoint).Ok? {
        RestoredUsers(t.ranking, op.checkpoint);
        AnonymousAreNotRecorded(op.checkpoint.users, NextHistory(t, op));
      }
    } else if op.Voted? || op.Committed? || op.VotesRestored? {
      VotesNeedSession(t.ranking, op);
    } else if op.Reset? {
    } else if op.Redefined? && Redefine(t.ranking, op.definition, op.reset).1.None? && op.reset {
    } else {
      BookkeepingKeepsLedger(t.ranking, op);
      assert Step(t.ranking, op).definition.(limit := 0).userLimits == t.ranking.definition.(limit := 0).userLimits;
    }
  }

  lemma RestoredUsers(r: RankState, cp: Checkpoint)
    requires Restore(r, cp).Ok?
    ensures Restore(r, cp).value.users == cp.users && Restore(r, cp).value.definition == r.definition
  {
    hide RestoreEntries, WindowError, UsersFit;
  }

  lemma {:induction false} RecordsRun(r: RankState, ops: seq<RankOp>)
    requires Consistent(r)
    ensures RecordTrace(Trace(r, ops), Brought(r, ops))
    decreases |ops|
  {
    hide Consistent, Step, NextHistory, RecordTrace, BroughtNext;
    if ops == [] {
      assert RecordTrace(Traced(r, []), r.users) by { NobodyTraced(r); }
    } else {
      RecordsRun(r, ops[..|ops| - 1]);
      RecordsAfterStep(Trace(r, ops[..|ops| - 1]), Brought(r, ops[..|ops| - 1]), ops[|ops| - 1]);
    }
  }

  lemma NobodyTraced(r: RankState)
    ensures RecordTrace(Traced(r, []), r.users)
  {
    NobodyRecorded(r.users);
  }

  // ---- what a packet is due ------------------------------------------------

  function KnownUsers(brought: map<string, UserState>, history: seq<Accepted>): set<string> {
    brought.Keys + set i | 0 <= i < |history| && history[i].user.Some? :: history[i].user.value
  }

  lemma {:induction false} LastOfKnown(brought: map<string, UserState>, history: seq<Accepted>, user: string)
    ensures LastOf(brought, history, user).Some? <==> user in KnownUsers(brought, history)
    decreases |history|
  {
    if history != [] {
      var front, last := history[..|history| - 1], history[|history| - 1];
      LastOfKnown(brought, front, user);
      KnownNext(brought, front, last, user);
      assert history == front + [last];
    }
  }

  lemma KnownNext(brought: map<string, UserState>, history: seq<Accepted>, last: Accepted, user: string)
    ensures user in KnownUsers(brought, history + [last])
       <==> user in KnownUsers(brought, history) || last.user == Some(user)
  {
    var all := history + [last];
    assert all[|history|] == last;
    if i :| 0 <= i < |history| && history[i].user == Some(user) { assert all[i] == history[i]; }
  }

  lemma RecordedAreKnown(brought: map<string, UserState>, history: seq<Accepted>, users: map<string, UserState>)
    requires Recorded(brought, history, users)
    ensures users.Keys == KnownUsers(brought, history)
  {
    forall user ensures user in users <==> user in KnownUsers(brought, history) {
      LastOfKnown(brought, history, user);
    }
  }

  /** What the past says when a packet arrives: users of a restore, accepted packets, the clock. */
  datatype Past = Past(brought: map<string, UserState>, history: seq<Accepted>, clock: u64)

  /** The user already had as many packets accepted as the limits allow. */
  predicate HadEnough(limits: UserLimits, past: Past, user: string) {
    limits.maxContributions.Some? && AcceptedOf(past.brought, past.history, user) >= limits.maxContributions.value
  }

  /** The user's last accepted packet lies less than the cooldown back. */
  predicate CameEarly(limits: UserLimits, past: Past, user: string) {
    var last := LastOf(past.brought, past.history, user);
    limits.cooldownMs.Some? && last.Some? && last.value + limits.cooldownMs.value > past.clock
  }

  /** A user nobody heard of, when as many as may be are known. */
  predicate NoRoomForUser(limits: UserLimits, past: Past, user: string) {
    var known := KnownUsers(past.brought, past.history);
    user !in known && |known| >= limits.maxUsers
  }

  /** What the past decides about a user, if it decides anything. */
  function UserVerdict(limits: UserLimits, past: Past, user: Option<string>): Option<Verdict> {
    if user.None? || !ValidKey(user.value) then Some(Refused(InvalidKey))
    else if HadEnough(limits, past, user.value) then Some(OverLimit)
    else if CameEarly(limits, past, user.value) then Some(TooSoon)
    else if AcceptedOf(past.brought, past.history, user.value) == U64_MAX then Some(Refused(Overflow))
    else if NoRoomForUser(limits, past, user.value) then Some(Refused(Capacity))
    else None
  }

  predicate WindowIsFull(window: Window, past: Past) {
    window.Rolling? && |Younger(Events(past.history), past.clock, window.durationMs)| >= window.maxEvents
  }

  /** What a packet worth a positive score is due, told by the past and by the scores that are left of it. */
  ghost function Due(d: Definition, past: Past, scores: map<string, u64>, c: Contribution, key: string, score: nat)
    : Verdict
    requires score <= U64_MAX
  {
    var byUser := if d.userLimits.Some? then UserVerdict(d.userLimits.value, past, c.user) else None;
    if WindowIsFull(d.window, past) then Refused(WindowCapacity)
    else if byUser.Some? then byUser.value
    else if !ValidKey(key) then Refused(InvalidKey)
    else if key !in scores && |scores| >= d.capacity then Refused(Capacity)
    else if Sum(scores) + score > U64_MAX then Refused(Overflow)
    else Counted(key, score)
  }

  lemma DecisionIsTold(r: RankState, past: Past, user: Option<string>)
    requires Consistent(r) && r.definition.userLimits.Some? && past.clock == r.lastTime
    requires Recorded(past.brought, past.history, r.users)
    ensures UserDecision(r, user) == match UserVerdict(r.definition.userLimits.value, past, user)
      case None => Ok(Allowed)
      case Some(OverLimit) => Ok(Limited)
      case Some(TooSoon) => Ok(Cooldown)
      case Some(Refused(error)) => Err(error)
      case _ => Err(NotFound)
  {
    hide Sound, WindowConsistent, ValidDefinition, ValidInstanceId, Bytes, KnownUsers;
    RecordedAreKnown(past.brought, past.history, r.users);
    assert |r.users.Keys| == |r.users|;
    LimitsAreValid(r);
    if user.Some? && user.value in r.users {
      assert UserWithinLimits(r.definition.userLimits.value, r.users[user.value], r.lastTime);
    }
  }

  lemma LimitsAreValid(r: RankState)
    requires Consistent(r) && r.definition.userLimits.Some?
    ensures ValidLimits(r.definition.userLimits.value)
  {
    hide Sound, WindowConsistent, UsersConsistent, ValidInstanceId, Bytes;
  }

  lemma AccountIsTold(r: RankState, past: Past, c: Contribution, key: string, score: u64, metadata: Option<Metadata>)
    requires Consistent(r) && score > 0 && past.clock == r.lastTime && r.board.revision < U64_MAX
    requires r.definition.userLimits.Some? ==> Recorded(past.brought, past.history, r.users)
    requires r.definition.window.Rolling? ==>
      r.windowEvents == Younger(Events(past.history), past.clock, r.definition.window.durationMs)
    ensures Account(r, c, key, score, metadata).1 == Due(r.definition, past, r.board.scores, c, key, score)
  {
    hide Sound, WindowConsistent, UsersConsistent, ValidDefinition, ValidInstanceId, Bytes, Sum, Recorded, UserVerdict,
         UserDecision, WithMetadata, Younger, Boards.Apply;
    if r.definition.userLimits.Some? {
      DecisionIsTold(r, past, c.user);
      UserVerdicts(r.definition.userLimits.value, past, c.user);
    } else {
      EveryoneIsAllowed(r, c.user);
    }
    CreditIsTold(r, key, score);
  }

  lemma EveryoneIsAllowed(r: RankState, user: Option<string>)
    requires r.definition.userLimits.None?
    ensures UserDecision(r, user) == Ok(Allowed)
  {
  }

  lemma UserVerdicts(limits: UserLimits, past: Past, user: Option<string>)
    ensures match UserVerdict(limits, past, user)
      case Some(verdict) => verdict.OverLimit? || verdict.TooSoon? || verdict.Refused?
      case None => true
  {
    hide AcceptedOf, HadEnough, CameEarly, NoRoomForUser, Bytes;
  }

  lemma CreditIsTold(r: RankState, key: string, score: u64)
    requires Consistent(r) && score > 0 && r.board.revision < U64_MAX
    ensures var applied := Boards.Apply(r.board, key, score, 1);
      match applied
      case Ok(_) =>
        && ValidKey(key) && (key in r.board.scores || |r.board.scores| < r.definition.capacity)
        && Sum(r.board.scores) + score <= U64_MAX
      case Err(error) =>
        if !ValidKey(key) then error == InvalidKey
        else if key !in r.board.scores && |r.board.scores| >= r.definition.capacity then error == Capacity
        else error == Overflow && Sum(r.board.scores) + score > U64_MAX
  {
    hide WindowConsistent, UsersConsistent, ValidDefinition, ValidInstanceId, Bytes, Sum;
    assert score * 1 == score;
  }

  /** A packet that is judged by the past: in scope, routed, of an exact positive score under some key. */
  predicate Countable(d: Definition, paused: bool, c: Contribution) {
    && !paused && d.creatorId == c.creatorId && d.roomId == c.roomId
    && (c.option.Some? || !IsCompetition(d))
    && !AnyAmbiguous(d.sources, c) && 0 < ExactScore(d.sources, c) <= U64_MAX
    && GroupingKey(d.groupBy, c).Some?
  }

  /** The past of a run as a feed finds it, after the day has changed if it has to. */
  ghost function PastOf(r: RankState, ops: seq<RankOp>, feed: Feed): Past
    requires Consistent(r)
  {
    var clock := Clock(r, ops);
    Past(BroughtNext(Run(r, ops), Brought(r, ops), Fed(feed)), Kept(Trace(r, ops), feed),
         if feed.now > clock then feed.now else clock)
  }

  /** What time alone leaves is what a packet finds. */
  lemma PacketFinds(r: RankState, feed: Feed)
    requires Consistent(r) && feed.Arrival? && Countable(r.definition, r.paused, feed.c)
    requires !FeedRanking(r, feed).1.ExpiryFailed?
    ensures Advance(r, feed.now).1.Ok? && TickRanking(r, feed.now) == Advance(r, feed.now).0
    ensures var (current, c) := (Advance(r, feed.now).0, feed.c);
      && Consistent(current) && current.definition == r.definition
      && FeedRanking(r, feed).1
        == Account(current, c, GroupingKey(r.definition.groupBy, c).value, ExactScore(r.definition.sources, c),
                   PacketMetadata(r.definition.groupBy, feed.user, feed.gift)).1
  {
    hide Consistent, Advance, Account, Score, ExactScore, AnyAmbiguous, IsCompetition;
    AdvanceConsistent(r, feed.now);
    ScoreIsExact(r.definition.sources, feed.c);
  }

  /**
   * In every run, restores included: what becomes of a packet with a positive score is told by the accepted
   * packets of the past. A user over the limit or too early is turned away, everyone else is counted as long as
   * window, users and board have room.
   */
  lemma VerdictIsExact(d: Definition, instance: u64, instanceId: string, ops: seq<RankOp>, feed: Feed)
    requires ValidDefinition(d) && ValidInstanceId(instanceId) && feed.Arrival?
    requires var r := Run(Start(d, instance, instanceId), ops);
      && Countable(r.definition, r.paused, feed.c)
      && !FeedRanking(r, feed).1.ExpiryFailed? && TickRanking(r, feed.now).board.revision < U64_MAX
    ensures var start := Start(d, instance, instanceId);
      var r := Run(start, ops);
      FeedRanking(r, feed).1
        == Due(r.definition, PastOf(start, ops, feed), TickRanking(r, feed.now).board.scores, feed.c,
               GroupingKey(r.definition.groupBy, feed.c).value, ExactScore(r.definition.sources, feed.c))
  {
    hide Consistent, ValidDefinition, ValidInstanceId, FeedRanking, Advance, Account, Due, ExactScore, AnyAmbiguous,
         IsCompetition, Recorded, Run, Trace, Brought, TickRanking, BroughtNext, Younger, PastOf;
    var start := Start(d, instance, instanceId);
    var (r, past) := (Run(start, ops), PastOf(start, ops, feed));
    PacketFinds(r, feed);
    PastIsHeld(d, instance, instanceId, ops, feed);
    AccountIsTold(Advance(r, feed.now).0, past, feed.c, GroupingKey(r.definition.groupBy, feed.c).value,
                  ExactScore(r.definition.sources, feed.c),
                  PacketMetadata(r.definition.groupBy, feed.user, feed.gift));
  }

  /** What a ranking holds when a packet arrives is what the past tells. */
  lemma PastIsHeld(d: Definition, instance: u64, instanceId: string, ops: seq<RankOp>, feed: Feed)
    requires ValidDefinition(d) && ValidInstanceId(instanceId) && feed.Arrival?
    requires var r := Run(Start(d, instance, instanceId), ops);
      Countable(r.definition, r.paused, feed.c) && Advance(r, feed.now).1.Ok?
    ensures var start := Start(d, instance, instanceId);
      var past, current := PastOf(start, ops, feed), Advance(Run(start, ops), feed.now).0;
      && past.clock == current.lastTime
      && (current.definition.userLimits.Some? ==> Recorded(past.brought, past.history, current.users))
      && (current.definition.window.Rolling? ==>
           current.windowEvents == Younger(Events(past.history), past.clock, current.definition.window.durationMs))
  {
    hide Consistent, ValidDefinition, ValidInstanceId, Recorded, Run, Trace, Brought, BroughtNext, Younger, Drain,
         LocalDay, IsTally, ExactScore;
    var start := Start(d, instance, instanceId);
    var r := Run(start, ops);
    RecordsRun(start, ops);
    RecordsAfterAdvance(Trace(start, ops), Brought(start, ops), feed);
    ClockIsLatest(start, ops);
    AdvanceConsistent(r, feed.now);
    if r.definition.window.Rolling? {
      RollingScoresAreTheRecentTally(d, instance, instanceId, ops, feed.now);
    }
  }
}
