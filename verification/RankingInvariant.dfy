/** Every operation on a ranking keeps its invariant. */
module RankingInvariant {
  import opened Common
  import opened Totals
  import opened Model
  import opened Boards
  import opened Scoring
  import opened Rankings

  /** Counters, the pause flag, the revision and display fields do not matter to the invariant. */
  lemma SameAccounting(r: RankState, after: RankState)
    requires Consistent(r)
    requires Sound(after.board) && after.board.capacity == r.board.capacity
    requires after.board.scores == r.board.scores
    requires after.definition == r.definition && after.instanceId == r.instanceId
    requires after.windowEvents == r.windowEvents && after.lastTime == r.lastTime && after.users == r.users
    ensures Consistent(after)
  {
    hide Sound, IsTally, ValidDefinition, ValidInstanceId, Bytes;
  }

  lemma TouchSound(b: Board, revision: u64)
    requires Sound(b)
    ensures Sound(b.(revision := revision))
  {
    hide Fits, WellKeyed;
  }

  lemma EmptyIsBacked()
    ensures WindowBacks(map[], [])
  {
  }

  // ---- expiry --------------------------------------------------------------

  /** Draining drops a prefix of the window. */
  lemma {:induction false} DrainSuffix(b: Board, events: seq<Event>, last: u64, duration: u64)
    ensures var d := Drain(b, events, last, duration);
      |d.events| <= |events| && d.events == events[|events| - |d.events|..]
    decreases |events|
  {
    hide Boards.Expire;
    if events != [] && Backed(b, events[0]) && Boards.Expire(b, events[0].key, events[0].score).Ok? {
      DrainSuffix(Boards.Expire(b, events[0].key, events[0].score).value, events[1..], last, duration);
    }
  }

  lemma {:induction false} DrainKeepsBoard(b: Board, events: seq<Event>, last: u64, duration: u64)
    requires Sound(b) && WindowBacks(b.scores, events)
    ensures var d := Drain(b, events, last, duration);
      && Sound(d.board) && WindowBacks(d.board.scores, d.events)
      && d.board.capacity == b.capacity
      && d.board.scores.Keys <= b.scores.Keys
    decreases |events|
  {
    hide Sum, Bytes, Sound, IsTally, WindowBacks;
    if events != [] && SaturatingSub(last, events[0].at) >= duration {
      TailIsBacked(b, events);
      var r := Boards.Expire(b, events[0].key, events[0].score);
      if r.Ok? {
        ExpireSound(b, events[0].key, events[0].score);
        DrainKeepsBoard(r.value, events[1..], last, duration);
      }
    }
  }

  /** Draining drops a prefix of the window and keeps the board sound and backed. */
  lemma DrainKeeps(b: Board, events: seq<Event>, last: u64, duration: u64)
    requires Sound(b) && WindowBacks(b.scores, events)
    ensures var d := Drain(b, events, last, duration);
      && Sound(d.board) && WindowBacks(d.board.scores, d.events)
      && d.board.capacity == b.capacity
      && d.board.scores.Keys <= b.scores.Keys
      && |d.events| <= |events| && d.events == events[|events| - |d.events|..]
  {
    hide Drain, Sound, WindowBacks;
    DrainKeepsBoard(b, events, last, duration);
    DrainSuffix(b, events, last, duration);
  }

  /** A drain that succeeds stops at an event that is still young; one that fails spent the last revision. */
  lemma {:induction false} DrainStops(b: Board, events: seq<Event>, last: u64, duration: u64)
    requires WindowBacks(b.scores, events)
    ensures var d := Drain(b, events, last, duration);
      && |d.events| <= |events| && d.events == events[|events| - |d.events|..]
      && (forall i :: 0 <= i < |events| - |d.events| ==> SaturatingSub(last, events[i].at) >= duration)
      && (d.result.Ok? && d.events != [] ==> SaturatingSub(last, d.events[0].at) < duration)
      && (d.result.Err? ==> d.result == Err(Overflow) && d.board.revision == U64_MAX)
    decreases |events|
  {
    hide Sum, Bytes;
    if events != [] && SaturatingSub(last, events[0].at) >= duration {
      TailIsBacked(b, events);
      var r := Boards.Expire(b, events[0].key, events[0].score);
      if r.Ok? {
        DrainStops(r.value, events[1..], last, duration);
        var d := Drain(b, events, last, duration);
        forall i | 0 <= i < |events| - |d.events| ensures SaturatingSub(last, events[i].at) >= duration {
          if i > 0 { assert events[1..][i - 1] == events[i]; }
        }
      }
    }
  }

  lemma RollingAdvanceConsistent(r: RankState, now: u64)
    requires Consistent(r) && r.definition.window.Rolling?
    ensures Consistent(Advance(r, now).0)
    ensures Advance(r, now).0.definition == r.definition
  {
    hide Sound, IsTally, Drain, ValidDefinition, ValidInstanceId, LocalDay, UserWithinLimits;
    var last := Max(r.lastTime, now);
    DrainKeeps(r.board, r.windowEvents, last, r.definition.window.durationMs);
    UsersKept(r, Advance(r, now).0);
  }

  /** Users stay within their limits when the clock moves on and no score appears from nothing. */
  lemma UsersKept(r: RankState, after: RankState)
    requires UsersConsistent(r) && after.definition.userLimits == r.definition.userLimits && after.users == r.users
    requires r.lastTime <= after.lastTime && after.board.scores.Keys <= r.board.scores.Keys
    ensures UsersConsistent(after)
  {
    assert after.board.scores != map[] ==> r.board.scores != map[];
  }

  lemma DailyAdvanceConsistent(r: RankState, now: u64)
    requires Consistent(r) && r.definition.window.Daily?
    ensures Consistent(Advance(r, now).0)
    ensures Advance(r, now).0.definition == r.definition
  {
    hide Sound, ValidDefinition, ValidInstanceId, LocalDay, UserWithinLimits, IsTally;
    EmptyIsSound(r.board);
    if Advance(r, now).0.users == r.users { UsersKept(r, Advance(r, now).0); }
  }

  lemma AdvanceConsistent(r: RankState, now: u64)
    requires Consistent(r)
    ensures Consistent(Advance(r, now).0)
    ensures Advance(r, now).0.definition == r.definition
  {
    hide Sound, IsTally, Drain, ValidDefinition, ValidInstanceId, LocalDay, UserWithinLimits;
    match r.definition.window {
      case Rolling(_, _) => RollingAdvanceConsistent(r, now);
      case Daily(_) => DailyAdvanceConsistent(r, now);
      case Session => UsersKept(r, Advance(r, now).0);
    }
  }


  lemma EmptyIsSound(b: Board)
    ensures Boards.Reset(b).Ok? ==> Sound(Boards.Reset(b).value)
    ensures Sound(Board(map[], map[], b.capacity, b.revision))
  {
  }

  // ---- packets -------------------------------------------------------------

  /** An accepted score joins the window it will later be expired from. */
  lemma AppendBacked(b: Board, events: seq<Event>, e: Event)
    requires WindowBacks(b.scores, events) && e.score > 0
    requires Boards.Apply(b, e.key, e.score, 1).Ok?
    ensures WindowBacks(Boards.Apply(b, e.key, e.score, 1).value.scores, events + [e])
  {
    hide Sum, Bytes;
    var after := Boards.Apply(b, e.key, e.score, 1).value.scores;
    forall key ensures KeySum(events + [e], key) == Get(after, key) {
      KeySumAppend(events, e, key);
    }
    forall key | key in after ensures after[key] > 0 {
      assert key == e.key || key in b.scores;
    }
  }

  lemma MarkRejectedConsistent(r: RankState)
    requires Consistent(r)
    ensures Consistent(MarkRejected(r))
  {
    hide Sound, WindowConsistent, UsersConsistent, ValidDefinition, ValidInstanceId;
    TouchSound(r.board, MarkRejected(r).board.revision);
    SameAccounting(r, MarkRejected(r));
  }

  /** The board of an accepted score, with or without display fields. */
  lemma AcceptedBoard(r: RankState, key: string, score: u64, metadata: Option<Metadata>)
    requires Sound(r.board) && Boards.Apply(r.board, key, score, 1).Ok?
    ensures var board := Boards.Apply(r.board, key, score, 1).value;
      var described := if metadata.Some? then WithMetadata(board, key, metadata.value) else board;
      Sound(described) && described.capacity == r.board.capacity && described.scores == board.scores
  {
    hide Sound, Boards.Apply, WithMetadata;
    ApplySound(r.board, key, score, 1);
    if metadata.Some? { WithMetadataSound(Boards.Apply(r.board, key, score, 1).value, key, metadata.value); }
  }

  /** The window of an accepted score. */
  lemma AcceptedWindow(r: RankState, key: string, score: u64, after: RankState)
    requires WindowConsistent(r) && score > 0 && Boards.Apply(r.board, key, score, 1).Ok?
    requires r.definition.window.Rolling? ==> |r.windowEvents| < r.definition.window.maxEvents
    requires after.definition == r.definition && after.lastTime == r.lastTime
    requires after.board.scores == Boards.Apply(r.board, key, score, 1).value.scores
    requires after.windowEvents == if r.definition.window.Rolling? then r.windowEvents + [Event(r.lastTime, key, score)]
                                   else r.windowEvents
    ensures WindowConsistent(after)
  {
    hide IsTally, Boards.Apply;
    if r.definition.window.Rolling? {
      AppendBacked(r.board, r.windowEvents, Event(r.lastTime, key, score));
    }
  }

  lemma AcceptConsistent(r: RankState, c: Contribution, key: string, score: u64, metadata: Option<Metadata>)
    requires Consistent(r) && score > 0
    requires UserDecision(r, c.user) == Ok(Allowed)
    requires r.definition.window.Rolling? ==> |r.windowEvents| < r.definition.window.maxEvents
    requires Boards.Apply(r.board, key, score, 1).Ok?
    ensures Consistent(Accept(r, Boards.Apply(r.board, key, score, 1).value, c, key, score, metadata))
  {
    hide Sound, WindowConsistent, UsersConsistent, Boards.Apply, WithMetadata, ValidInstanceId, ValidLimits, Bytes;
    var board := Boards.Apply(r.board, key, score, 1).value;
    AcceptedUsers(r, board, c, key, score, metadata);
    AcceptedBoard(r, key, score, metadata);
    AcceptedWindow(r, key, score, Accept(r, board, c, key, score, metadata));
  }

  lemma AcceptedUsers(r: RankState, board: Board, c: Contribution, key: string, score: u64, metadata: Option<Metadata>)
    requires UsersConsistent(r)
    requires r.definition.userLimits.Some? ==> ValidLimits(r.definition.userLimits.value)
    requires UserDecision(r, c.user) == Ok(Allowed)
    ensures UsersConsistent(Accept(r, board, c, key, score, metadata))
  {
    hide Bytes, WithMetadata;
    var after := Accept(r, board, c, key, score, metadata);
    if r.definition.userLimits.Some? {
      var u, limits := c.user.value, r.definition.userLimits.value;
      assert after.users == r.users[u := after.users[u]];
      assert after.lastTime == r.lastTime;
      UsersGrow(r.users, u, after.users[u]);
      assert UserWithinLimits(limits, after.users[u], after.lastTime);
      assert ValidKey(u);
    }
  }

  lemma UsersGrow(users: map<string, UserState>, u: string, state: UserState)
    ensures |users[u := state]| == |users| + (if u in users then 0 else 1)
    ensures users[u := state] != map[]
  {
    var after := users[u := state];
    assert after.Keys == users.Keys + {u};
    assert |after.Keys| == |after| && |users.Keys| == |users|;
    assert u in after;
  }

  lemma AccountConsistent(r: RankState, c: Contribution, key: string, score: u64, metadata: Option<Metadata>)
    requires Consistent(r) && score > 0
    ensures Consistent(Account(r, c, key, score, metadata).0)
  {
    hide Sum, Bytes, IsTally, KeySum, Boards.Apply, ValidDefinition, ValidInstanceId;
    MarkRejectedConsistent(r);
    if UserDecision(r, c.user) == Ok(Allowed) && Boards.Apply(r.board, key, score, 1).Ok?
       && !(r.definition.window.Rolling? && |r.windowEvents| >= r.definition.window.maxEvents) {
      AcceptConsistent(r, c, key, score, metadata);
    }
  }

  lemma PacketConsistent(r: RankState, c: Contribution, now: u64, user: Option<Metadata>, gift: Option<Metadata>)
    requires Consistent(r)
    ensures Consistent(Packet(r, c, now, user, gift).0)
  {
    hide Sum, Bytes, IsTally, KeySum, Score, Advance, Account;
    AdvanceConsistent(r, now);
    var current := Advance(r, now).0;
    MarkRejectedConsistent(current);
    var score, key := Score(r.definition.sources, c), GroupingKey(r.definition.groupBy, c);
    if score.Ok? && score.value > 0 && key.Some? {
      AccountConsistent(current, c, key.value, score.value, PacketMetadata(r.definition.groupBy, user, gift));
    }
  }

  // ---- control operations --------------------------------------------------

  lemma ResetConsistent(r: RankState)
    requires Consistent(r)
    ensures Consistent(ResetRanking(r).0)
  {
    hide Bytes;
    EmptyIsSound(r.board);
  }

  lemma FreshConsistent(d: Definition, instance: u64, instanceId: string)
    requires ValidDefinition(d) && ValidInstanceId(instanceId)
    ensures Consistent(Fresh(d, instance, instanceId))
  {
    hide Bytes;
    EmptyIsSound(EmptyBoard(d.capacity));
  }

  lemma PauseAndMarksConsistent(r: RankState, paused: bool, count: u64)
    requires Consistent(r)
    ensures Consistent(SetPaused(r, paused).0)
    ensures Consistent(MarkLoss(r, count))
    ensures Consistent(MarkGap(r))
    ensures Consistent(MarkRecoveryGap(r).0)
  {
    hide WindowConsistent, UsersConsistent, Sound, ValidDefinition, ValidInstanceId;
    MarkRejectedConsistent(r);
    TouchSound(r.board, SetPaused(r, paused).0.board.revision);
    SameAccounting(r, SetPaused(r, paused).0);
    TouchSound(r.board, MarkLoss(r, count).board.revision);
    SameAccounting(r, MarkLoss(r, count));
  }

  lemma SetMetadataConsistent(r: RankState, key: string, metadata: Metadata)
    requires Consistent(r)
    ensures Consistent(SetMetadata(r, key, metadata).0)
  {
    hide WindowConsistent, UsersConsistent, Sound, ValidDefinition, ValidInstanceId, Bounded;
    var after := SetMetadata(r, key, metadata).0;
    if after != r {
      WithMetadataSound(r.board, key, metadata);
      TouchSound(WithMetadata(r.board, key, metadata), after.board.revision);
      SameAccounting(r, after);
    }
  }

  lemma RedefineConsistent(r: RankState, d: Definition, reset: bool)
    requires Consistent(r)
    ensures Consistent(Redefine(r, d, reset).0)
  {
    hide Sound, IsTally, KeySum, ValidDefinition, ValidInstanceId;
    var after := Redefine(r, d, reset).0;
    if Redefine(r, d, reset).1.None? {
      if reset {
        EmptyIsSound(after.board);
        EmptyIsBacked();
      } else {
        assert d == r.definition.(limit := d.limit);
        TouchSound(r.board, after.board.revision);
        SameAccounting(r, after.(definition := r.definition));
      }
    }
  }

  // ---- durable votes -------------------------------------------------------

  /** Votes are projected only on session rankings without limits: no window, no users. */
  lemma AssignmentNeedsSession(d: Definition)
    ensures AssignmentWeight(d).Ok? ==> d.window == Session && d.userLimits == None
  {
  }

  lemma AssignConsistent(r: RankState, previous: Option<Vote>, next: Vote)
    requires Consistent(r)
    ensures Consistent(Assign(r, previous, next).0)
  {
    hide Sum, Bytes, IsTally, KeySum, Reassign, Boards.Apply, AssignmentWeight, ValidDefinition;
    AssignmentNeedsSession(r.definition);
    MarkRejectedConsistent(r);
    var held, weight := PreviousVote(previous, next), AssignmentWeight(r.definition);
    if weight.Ok? && held.votes <= next.votes && !MoveOverflows(weight.value, held, next) {
      AssignOnBoardSound(r.board, weight.value, held, next);
    }
  }

  lemma AssignOnBoardSound(b: Board, weight: u64, previous: Vote, next: Vote)
    requires Sound(b) && previous.votes <= next.votes && !MoveOverflows(weight, previous, next)
    ensures var r := AssignOnBoard(b, weight, previous, next);
      r.Ok? ==> Sound(r.value) && r.value.capacity == b.capacity
  {
    hide Sum, Bytes, Boards.Apply, Reassign;
    var delta := next.votes - previous.votes;
    if previous.option == next.option {
      ApplySound(b, next.option, delta, weight);
    } else if weight != 0 {
      ReassignSound(b, previous.option, next.option, previous.votes * weight, delta * weight);
    }
  }

  lemma CommitScoreConsistent(r: RankState, option: string, score: u64)
    requires Consistent(r)
    ensures Consistent(CommitScore(r, option, score).0)
  {
    hide Sum, Bytes, IsTally, KeySum, AssignmentWeight, ValidDefinition;
    AssignmentNeedsSession(r.definition);
    MarkRejectedConsistent(r);
    ApplySound(r.board, option, score, 1);
  }

  lemma {:induction false} ApplyAllSound(b: Board, values: seq<Vote>, weight: u64)
    requires Sound(b)
    ensures var r := ApplyAll(b, values, weight); r.Ok? ==> Sound(r.value) && r.value.capacity == b.capacity
    decreases |values|
  {
    hide Sum, Bytes;
    if values != [] {
      var front, last := values[..|values| - 1], values[|values| - 1];
      ApplyAllSound(b, front, weight);
      var before := ApplyAll(b, front, weight);
      if before.Ok? { ApplySound(before.value, last.option, last.votes, weight); }
    }
  }

  lemma RestoreVotesConsistent(r: RankState, totals: seq<Vote>, scored: seq<Vote>)
    requires Consistent(r)
    ensures Consistent(RestoreVotes(r, totals, scored).0)
  {
    hide Sum, Bytes, IsTally, KeySum, AssignmentWeight, ValidDefinition, ApplyAll;
    AssignmentNeedsSession(r.definition);
    var weight := AssignmentWeight(r.definition);
    if weight.Ok? {
      EmptyIsSound(EmptyBoard(r.definition.capacity));
      ApplyAllSound(EmptyBoard(r.definition.capacity), totals, weight.value);
      var b := ApplyAll(EmptyBoard(r.definition.capacity), totals, weight.value);
      if b.Ok? { ApplyAllSound(b.value, scored, 1); }
    }
  }
}
