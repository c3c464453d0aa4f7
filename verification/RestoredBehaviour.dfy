/** A restored ranking answers every later contribution and expiry as the original would. */
module RestoredBehaviour {
  import opened Common
  import opened Totals
  import opened Model
  import opened Boards
  import opened Scoring
  import opened Rankings
  import opened RankingInvariant
  import opened Checkpoints
  import opened CheckpointRoundTrip

  /** What feeds a running ranking: packets and the passing of time. */
  datatype Feed =
    | Arrival(c: Contribution, now: u64, user: Option<Metadata>, gift: Option<Metadata>)
    | Tick(now: u64)

  /** Time passing without a packet; a failure to expire is counted. */
  ghost function TickRanking(r: RankState, now: u64): RankState
  {
    var (current, expiry) := Advance(r, now);
    if expiry.Err? then current.(rejected := SaturatingAdd(current.rejected, 1)) else current
  }

  ghost function FeedRanking(r: RankState, feed: Feed): (RankState, Verdict)
  {
    match feed
    case Arrival(c, now, user, gift) => Packet(r, c, now, user, gift)
    case Tick(now) => (TickRanking(r, now), Unrouted)
  }

  lemma TickConsistent(r: RankState, now: u64)
    requires Consistent(r)
    ensures Consistent(TickRanking(r, now))
  {
    hide Sound, WindowConsistent, UsersConsistent, ValidDefinition, ValidInstanceId, Advance;
    AdvanceConsistent(r, now);
    var current := Advance(r, now).0;
    SameAccounting(current, current.(rejected := SaturatingAdd(current.rejected, 1)));
  }

  lemma FeedConsistent(r: RankState, feed: Feed)
    requires Consistent(r)
    ensures Consistent(FeedRanking(r, feed).0)
  {
    hide Sound, WindowConsistent, UsersConsistent, ValidDefinition, ValidInstanceId, Packet, TickRanking;
    match feed {
      case Arrival(c, now, user, gift) => PacketConsistent(r, c, now, user, gift);
      case Tick(now) => TickConsistent(r, now);
    }
  }

  // ---- boards that show the same -------------------------------------------

  predicate Tidy(b: Board) {
    b.metadata.Keys <= b.scores.Keys
  }

  lemma SameAfterExpire(a: Board, b: Board, key: string, amount: u64)
    requires SameBoard(a, b) && Tidy(a) && Tidy(b) && key in a.scores && a.scores[key] >= amount
    ensures var x, y := Boards.Expire(a, key, amount), Boards.Expire(b, key, amount);
      (x.Ok? <==> y.Ok?) && (x.Err? ==> x == y)
      && (x.Ok? ==> SameBoard(x.value, y.value) && Tidy(x.value) && Tidy(y.value))
  {
    hide SameFields;
    var x, y := Boards.Expire(a, key, amount), Boards.Expire(b, key, amount);
    if x.Ok? {
      forall k | k in x.value.scores ensures SameFields(Described(x.value, k), Described(y.value, k), k) {
        assert k in a.scores;
        assert Described(x.value, k) == Described(a, k) && Described(y.value, k) == Described(b, k);
      }
    }
  }

  lemma {:induction false} SameAfterDrain(a: Board, b: Board, events: seq<Event>, last: u64, duration: u64)
    requires SameBoard(a, b) && Tidy(a) && Tidy(b) && WindowBacks(a.scores, events)
    ensures var x, y := Drain(a, events, last, duration), Drain(b, events, last, duration);
      && SameBoard(x.board, y.board) && Tidy(x.board) && Tidy(y.board)
      && x.events == y.events && x.result == y.result
    decreases |events|
  {
    hide SameBoard, IsTally, KeySum;
    assert a.scores == b.scores by { SameScores(a, b); }
    if events != [] && SaturatingSub(last, events[0].at) >= duration {
      TailIsBacked(a, events);
      TailIsBacked(b, events);
      SameAfterExpire(a, b, events[0].key, events[0].score);
      var x, y := Boards.Expire(a, events[0].key, events[0].score), Boards.Expire(b, events[0].key, events[0].score);
      if x.Ok? { SameAfterDrain(x.value, y.value, events[1..], last, duration); }
    }
  }

  lemma SameScores(a: Board, b: Board)
    requires SameBoard(a, b)
    ensures a.scores == b.scores && a.capacity == b.capacity && a.revision == b.revision
  {
  }

  lemma SameAfterApply(a: Board, b: Board, key: string, score: u64)
    requires SameBoard(a, b) && Tidy(a) && Tidy(b)
    ensures var x, y := Boards.Apply(a, key, score, 1), Boards.Apply(b, key, score, 1);
      (x.Ok? <==> y.Ok?) && (x.Err? ==> x == y)
      && (x.Ok? ==> SameBoard(x.value, y.value) && Tidy(x.value) && Tidy(y.value))
  {
    hide Bytes, Sum, SameFields;
    var x, y := Boards.Apply(a, key, score, 1), Boards.Apply(b, key, score, 1);
    if x.Ok? { SameAfterCredit(a, b, x.value.scores, y.value.scores, x.value.revision, y.value.revision); }
  }

  /** More scores for boards that show the same, display fields as they are. */
  lemma SameAfterCredit(a: Board, b: Board, scores: map<string, u64>, same: map<string, u64>, revision: u64, next: u64)
    requires SameBoard(a, b) && Tidy(a) && Tidy(b)
    requires scores == same && a.scores.Keys <= scores.Keys && revision == next
    ensures var x, y := a.(scores := scores, revision := revision), b.(scores := same, revision := next);
      SameBoard(x, y) && Tidy(x) && Tidy(y)
  {
    var x, y := a.(scores := scores, revision := revision), b.(scores := same, revision := next);
    forall k | k in x.scores ensures SameFields(Described(x, k), Described(y, k), k) {
      assert Described(x, k) == Described(a, k) && Described(y, k) == Described(b, k);
      assert k in a.scores || (k !in a.metadata && k !in b.metadata);
    }
  }

  lemma SameAfterDescribing(a: Board, b: Board, key: string, fields: Metadata)
    requires SameBoard(a, b)
    ensures SameBoard(WithMetadata(a, key, fields), WithMetadata(b, key, fields))
  {
    hide Bounded, SameFields;
    var x, y := WithMetadata(a, key, fields), WithMetadata(b, key, fields);
    if key in a.scores {
      forall k | k in x.scores ensures SameFields(Described(x, k), Described(y, k), k) {
        assert SameFields(Described(a, k), Described(b, k), k);
        if k == key { SameFieldsMerge(Described(a, key), Described(b, key), Bounded(fields), key); }
      }
    }
  }

  lemma SameAfterTouch(a: Board, b: Board, revision: u64)
    requires SameBoard(a, b)
    ensures SameBoard(a.(revision := revision), b.(revision := revision))
  {
    hide SameFields;
    var x, y := a.(revision := revision), b.(revision := revision);
    forall key | key in a.scores ensures SameFields(Described(x, key), Described(y, key), key) {
      assert Described(x, key) == Described(a, key) && Described(y, key) == Described(b, key);
    }
  }

  // ---- rankings ------------------------------------------------------------

  lemma ConsistentIsTidy(r: RankState)
    requires Consistent(r)
    ensures Tidy(r.board)
  {
    hide Sum, Bytes;
  }

  lemma AlikeAfterAdvance(a: RankState, b: RankState, now: u64)
    requires Consistent(a) && Consistent(b) && Alike(a, b)
    ensures Advance(a, now).1 == Advance(b, now).1
    ensures Alike(Advance(a, now).0, Advance(b, now).0)
  {
    hide Sound, IsTally, KeySum, ValidDefinition, ValidInstanceId, SameBoard, Drain, UsersConsistent, LocalDay;
    ConsistentIsTidy(a);
    ConsistentIsTidy(b);
    SameScores(a.board, b.board);
    match a.definition.window {
      case Rolling(duration, _) =>
        SameAfterDrain(a.board, b.board, a.windowEvents, Max(a.lastTime, now), duration);
      case Daily(_) =>
        assert SameBoard(Board(map[], map[], a.board.capacity, SaturatingAdd(a.board.revision, 1)),
                         Board(map[], map[], b.board.capacity, SaturatingAdd(b.board.revision, 1))) by {
          EmptyShowsTheSame(Board(map[], map[], a.board.capacity, SaturatingAdd(a.board.revision, 1)));
        }
      case Session =>
    }
  }

  lemma EmptyShowsTheSame(b: Board)
    requires b.scores == map[]
    ensures SameBoard(b, b)
  {
  }

  lemma AlikeAfterRejection(a: RankState, b: RankState)
    requires Alike(a, b)
    ensures Alike(MarkRejected(a), MarkRejected(b))
  {
    hide SameBoard;
    SameScores(a.board, b.board);
    SameAfterTouch(a.board, b.board, TouchQuietly(a.board).revision);
  }

  /** Rankings that look alike hold the same users, windows and counters. */
  lemma AlikeHoldTheSame(a: RankState, b: RankState)
    requires Alike(a, b)
    ensures a.definition == b.definition && a.users == b.users && a.lastTime == b.lastTime
    ensures a.windowEvents == b.windowEvents && a.board.scores == b.board.scores
    ensures a.board.revision == b.board.revision && a.limited == b.limited
    ensures a.cooldownRejected == b.cooldownRejected
    ensures forall user :: UserDecision(a, user) == UserDecision(b, user)
  {
    hide SameFields;
  }

  lemma AlikeAfterTurningAway(a: RankState, b: RankState, revision: u64, limited: u64, cooldown: u64)
    requires Alike(a, b)
    ensures Alike(a.(board := a.board.(revision := revision), limited := limited, cooldownRejected := cooldown),
                  b.(board := b.board.(revision := revision), limited := limited, cooldownRejected := cooldown))
  {
    hide SameBoard;
    SameAfterTouch(a.board, b.board, revision);
  }

  lemma AlikeAfterAccepting(a: RankState, b: RankState, x: Board, y: Board, c: Contribution, key: string, score: u64,
                            metadata: Option<Metadata>)
    requires Alike(a, b) && SameBoard(x, y) && UserDecision(a, c.user) == Ok(Allowed)
    requires UserDecision(b, c.user) == Ok(Allowed)
    ensures a.definition.userLimits.Some? ==> c.user.Some?
    ensures a.definition.userLimits.Some? && c.user.value in a.users ==> a.users[c.user.value].count < U64_MAX
    ensures Alike(Accept(a, x, c, key, score, metadata), Accept(b, y, c, key, score, metadata))
  {
    hide SameBoard, WithMetadata, Bytes;
    if metadata.Some? { SameAfterDescribing(x, y, key, metadata.value); }
  }

  lemma AlikeAfterAccount(a: RankState, b: RankState, c: Contribution, key: string, score: u64,
                          metadata: Option<Metadata>)
    requires Consistent(a) && Consistent(b) && Alike(a, b)
    ensures Account(a, c, key, score, metadata).1 == Account(b, c, key, score, metadata).1
    ensures Alike(Account(a, c, key, score, metadata).0, Account(b, c, key, score, metadata).0)
  {
    hide Consistent, Alike, Boards.Apply, UserDecision, MarkRejected, Accept;
    ConsistentIsTidy(a);
    ConsistentIsTidy(b);
    AlikeHoldTheSame(a, b);
    AlikeAfterRejection(a, b);
    assert SameBoard(a.board, b.board) by { AlikeBoards(a, b); }
    SameAfterApply(a.board, b.board, key, score);
    var x, y := Boards.Apply(a.board, key, score, 1), Boards.Apply(b.board, key, score, 1);
    assert UserDecision(a, c.user) == UserDecision(b, c.user);
    if x.Ok? && UserDecision(a, c.user) == Ok(Allowed) {
      AlikeAfterAccepting(a, b, x.value, y.value, c, key, score, metadata);
    }
    var next := SaturatingAdd(a.board.revision, 1);
    AlikeAfterTurningAway(a, b, next, SaturatingAdd(a.limited, 1), a.cooldownRejected);
    AlikeAfterTurningAway(a, b, next, a.limited, SaturatingAdd(a.cooldownRejected, 1));
  }

  lemma AlikeBoards(a: RankState, b: RankState)
    requires Alike(a, b)
    ensures SameBoard(a.board, b.board)
  {
  }

  lemma AlikeAfterPacket(a: RankState, b: RankState, c: Contribution, now: u64,
                         user: Option<Metadata>, gift: Option<Metadata>)
    requires Consistent(a) && Consistent(b) && Alike(a, b)
    ensures Packet(a, c, now, user, gift).1 == Packet(b, c, now, user, gift).1
    ensures Alike(Packet(a, c, now, user, gift).0, Packet(b, c, now, user, gift).0)
  {
    hide Sound, WindowConsistent, UsersConsistent, ValidDefinition, ValidInstanceId, SameBoard, Advance, Account, Score,
         Bytes;
    AdvanceConsistent(a, now);
    AdvanceConsistent(b, now);
    AlikeAfterAdvance(a, b, now);
    var x, y := Advance(a, now).0, Advance(b, now).0;
    AlikeAfterRejection(x, y);
    var score, key := Score(a.definition.sources, c), GroupingKey(a.definition.groupBy, c);
    if score.Ok? && score.value > 0 && key.Some? {
      AlikeAfterAccount(x, y, c, key.value, score.value, PacketMetadata(a.definition.groupBy, user, gift));
    }
  }

  lemma AlikeAfterFeed(a: RankState, b: RankState, feed: Feed)
    requires Consistent(a) && Consistent(b) && Alike(a, b)
    ensures FeedRanking(a, feed).1 == FeedRanking(b, feed).1
    ensures Alike(FeedRanking(a, feed).0, FeedRanking(b, feed).0)
  {
    hide Sound, WindowConsistent, UsersConsistent, ValidDefinition, ValidInstanceId, SameBoard, Advance, Packet;
    match feed {
      case Arrival(c, now, user, gift) => AlikeAfterPacket(a, b, c, now, user, gift);
      case Tick(now) => AlikeAfterAdvance(a, b, now);
    }
  }

  // ---- whole runs ----------------------------------------------------------

  ghost function Answers(r: RankState, feeds: seq<Feed>): (RankState, seq<Verdict>)
    requires Consistent(r)
    decreases |feeds|
  {
    if feeds == [] then (r, [])
    else
      FeedConsistent(r, feeds[0]);
      var (next, verdict) := FeedRanking(r, feeds[0]);
      var (last, verdicts) := Answers(next, feeds[1..]);
      (last, [verdict] + verdicts)
  }

  lemma {:induction false} AlikeAnswerAlike(a: RankState, b: RankState, feeds: seq<Feed>)
    requires Consistent(a) && Consistent(b) && Alike(a, b)
    ensures Answers(a, feeds).1 == Answers(b, feeds).1
    ensures Alike(Answers(a, feeds).0, Answers(b, feeds).0)
    decreases |feeds|
  {
    hide Alike, FeedRanking, Sound, UsersConsistent, ValidDefinition, ValidInstanceId, WindowConsistent;
    if feeds != [] {
      FeedConsistent(a, feeds[0]);
      FeedConsistent(b, feeds[0]);
      AlikeAfterFeed(a, b, feeds[0]);
      AlikeAnswerAlike(FeedRanking(a, feeds[0]).0, FeedRanking(b, feeds[0]).0, feeds[1..]);
    }
  }

  /**
   * Restoring a checkpoint into a fresh instance is invisible: whatever packets and ticks follow,
   * both rankings account each of them the same way and show equal snapshots of every size.
   */
  lemma RestoredAnswersIdentically(r: RankState, instance: u64, instanceId: string, feeds: seq<Feed>, limit: nat)
    requires Consistent(r) && ValidInstanceId(instanceId)
    requires |r.board.scores| <= r.board.revision
    ensures var restored := Restore(Fresh(r.definition, instance, instanceId), Export(r));
      && restored.Ok? && Consistent(restored.value)
      && View(restored.value, limit) == View(r, limit)
      && Answers(restored.value, feeds).1 == Answers(r, feeds).1
      && View(Answers(restored.value, feeds).0, limit) == View(Answers(r, feeds).0, limit)
  {
    hide WindowConsistent, UsersConsistent, Sound, ValidDefinition, ValidInstanceId, Restore, Export, View, Answers,
         Alike;
    var target := Fresh(r.definition, instance, instanceId);
    RoundTrip(r, instance, instanceId);
    AcceptedCheckpointIsConsistent(target, Export(r));
    var restored := Restore(target, Export(r)).value;
    AlikeShowsTheSame(restored, r, limit);
    AlikeAnswerAlike(restored, r, feeds);
    AlikeShowsTheSame(Answers(restored, feeds).0, Answers(r, feeds).0, limit);
  }
}
