/** Each packet is accounted exactly once in every ranking it reaches. */
module PacketAccounting {
  import opened Common
  import opened Totals
  import opened Model
  import opened Boards
  import opened Scoring
  import opened Rankings
  import opened RankingInvariant
  import opened RestoredBehaviour
  import opened RankingRuns

  /** The counters of a ranking, in one place. */
  datatype Counters = Counters(rejected: u64, limited: u64, cooldown: u64, dropped: u64)

  function CountersOf(r: RankState): Counters {
    Counters(r.rejected, r.limited, r.cooldownRejected, r.dropped)
  }

  /** Nothing was added to any score, window or user. */
  ghost predicate NothingAdded(before: RankState, after: RankState) {
    && after.board.scores == before.board.scores
    && after.windowEvents == before.windowEvents
    && after.users == before.users
  }

  /** The exact score was added under one key, and to nothing else. */
  ghost predicate Added(before: RankState, after: RankState, key: string, score: nat) {
    && 0 < Get(before.board.scores, key) + score <= U64_MAX
    && after.board.scores == before.board.scores[key := Get(before.board.scores, key) + score]
    && Sum(after.board.scores) == Sum(before.board.scores) + score
    && after.windowEvents == before.windowEvents
       + (if before.definition.window.Rolling? && score <= U64_MAX then [Event(before.lastTime, key, score)] else [])
  }

  /** The packet carries the key in the field that the ranking groups by; rankings of event types group by source. */
  predicate CountedUnder(groupBy: GroupBy, c: Contribution, key: string) {
    match groupBy
    case User => c.user == Some(key)
    case Gift => c.gift == Some(key)
    case EventType => c.source == key
    case OptionKey => c.option == Some(key)
    case Team => c.team == Some(key)
    case CustomKey => c.customKey == Some(key)
  }

  /** How one verdict shows in the state that expiry left behind. */
  ghost predicate AccountedAs(current: RankState, after: RankState, c: Contribution, verdict: Verdict) {
    var exact := ExactScore(current.definition.sources, c);
    var was, now := CountersOf(current), CountersOf(after);
    match verdict
    case Counted(key, score) =>
      score == exact > 0 && CountedUnder(current.definition.groupBy, c, key)
      && Added(current, after, key, exact) && now == was
    case Worthless => exact == 0 && after == current
    case Unrouted => c.option.None? && IsCompetition(current.definition) && after == current
    case OverLimit => NothingAdded(current, after) && now == was.(limited := SaturatingAdd(was.limited, 1))
    case TooSoon => NothingAdded(current, after) && now == was.(cooldown := SaturatingAdd(was.cooldown, 1))
    case Refused(_) => NothingAdded(current, after) && now == was.(rejected := SaturatingAdd(was.rejected, 1))
    case ExpiryFailed(_) => NothingAdded(current, after) && now == was.(rejected := SaturatingAdd(was.rejected, 1))
    case OutOfScope => false
  }

  lemma KeyIsItsField(groupBy: GroupBy, c: Contribution, key: string)
    requires GroupingKey(groupBy, c) == Some(key)
    ensures CountedUnder(groupBy, c, key)
  {
  }

  lemma AccountingOf(r: RankState, c: Contribution, key: string, score: u64, metadata: Option<Metadata>)
    requires Consistent(r) && Score(r.definition.sources, c) == Ok(score) && score > 0
    requires GroupingKey(r.definition.groupBy, c) == Some(key)
    ensures AccountedAs(r, Account(r, c, key, score, metadata).0, c, Account(r, c, key, score, metadata).1)
  {
    hide Consistent, Score, ExactScore, Bytes, Sum, Boards.Apply, WithMetadata, UserDecision, CountedUnder, GroupingKey;
    ScoreIsExact(r.definition.sources, c);
    KeyIsItsField(r.definition.groupBy, c, key);
    if Account(r, c, key, score, metadata).1.Counted? {
      AcceptanceAdds(r, c, key, score, metadata);
    } else {
      RefusalAddsNothing(r, c, key, score, metadata);
    }
  }

  lemma AcceptanceAdds(r: RankState, c: Contribution, key: string, score: u64, metadata: Option<Metadata>)
    requires score > 0 && Account(r, c, key, score, metadata).1.Counted?
    ensures var (after, verdict) := Account(r, c, key, score, metadata);
      && verdict == Counted(key, score) && Added(r, after, key, score) && CountersOf(after) == CountersOf(r)
  {
    hide Bytes, Sum, Boards.Apply, WithMetadata, UserDecision;
    CreditedScores(r.board, key, score);
    if metadata.Some? { DescribingKeepsScores(Boards.Apply(r.board, key, score, 1).value, key, metadata.value); }
  }

  lemma RefusalAddsNothing(r: RankState, c: Contribution, key: string, score: u64, metadata: Option<Metadata>)
    requires !Account(r, c, key, score, metadata).1.Counted?
    ensures var (after, verdict) := Account(r, c, key, score, metadata);
      var (was, now) := (CountersOf(r), CountersOf(after));
      && NothingAdded(r, after)
      && (match verdict
          case OverLimit => now == was.(limited := SaturatingAdd(was.limited, 1))
          case TooSoon => now == was.(cooldown := SaturatingAdd(was.cooldown, 1))
          case Refused(_) => now == was.(rejected := SaturatingAdd(was.rejected, 1))
          case _ => false)
      && after.definition == r.definition && after.lastTime == r.lastTime
      && after.board.revision >= r.board.revision
  {
    hide Bytes, Sum, Boards.Apply, WithMetadata, UserDecision;
  }

  lemma CreditedScores(b: Board, key: string, score: u64)
    requires score > 0 && Boards.Apply(b, key, score, 1).Ok?
    ensures Get(b.scores, key) + score <= U64_MAX
    ensures var after := Boards.Apply(b, key, score, 1).value;
      && after.scores == b.scores[key := Get(b.scores, key) + score]
      && Sum(after.scores) == Sum(b.scores) + score
  {
    hide Sum, Bytes;
    assert score * 1 == score;
    SumBoundsParts(b.scores, key, key);
    ApplyTotal(b, key, score, 1);
  }

  lemma DescribingKeepsScores(b: Board, key: string, fields: Metadata)
    ensures WithMetadata(b, key, fields).scores == b.scores
  {
  }

  /**
   * A packet that reaches a running ranking in its scope is accounted exactly once, after what is
   * due has expired: its exact unbounded score is added under its grouping key, or it is worth
   * nothing, or exactly one of the limited, cooldown and rejected counters grows and nothing is
   * added. Only competition rankings skip it, when it names no option.
   */
  lemma PacketIsAccountedOnce(r: RankState, c: Contribution, now: u64, user: Option<Metadata>, gift: Option<Metadata>)
    requires Consistent(r) && InScope(r, c)
    ensures var (after, verdict) := Packet(r, c, now, user, gift);
      AccountedAs(Advance(r, now).0, after, c, verdict)
      && (verdict.ExpiryFailed? <==> Advance(r, now).1.Err?)
  {
    hide Sound, WindowConsistent, UsersConsistent, ValidDefinition, ValidInstanceId, Score, ExactScore, Account,
         Advance, IsCompetition, Added;
    AdvanceConsistent(r, now);
    var current := Advance(r, now).0;
    ScoreIsExact(r.definition.sources, c);
    var score, key := Score(r.definition.sources, c), GroupingKey(r.definition.groupBy, c);
    if score.Ok? && score.value > 0 && key.Some? {
      AccountingOf(current, c, key.value, score.value, PacketMetadata(r.definition.groupBy, user, gift));
      AccountVerdicts(current, c, key.value, score.value, PacketMetadata(r.definition.groupBy, user, gift));
    }
  }

  lemma AccountVerdicts(r: RankState, c: Contribution, key: string, score: u64, metadata: Option<Metadata>)
    ensures var verdict := Account(r, c, key, score, metadata).1;
      verdict == Counted(key, score) || verdict.OverLimit? || verdict.TooSoon? || verdict.Refused?
  {
  }

  /** Outside its scope, or while paused, a ranking does not even notice the packet. */
  lemma OutOfScopeIsIgnored(r: RankState, c: Contribution, now: u64, user: Option<Metadata>, gift: Option<Metadata>)
    ensures Packet(r, c, now, user, gift).1 == OutOfScope
       <==> r.paused || r.definition.creatorId != c.creatorId || r.definition.roomId != c.roomId
    ensures Packet(r, c, now, user, gift).1 == OutOfScope <==> !InScope(r, c)
    ensures Packet(r, c, now, user, gift).1 == OutOfScope ==> Packet(r, c, now, user, gift).0 == r
  {
    hide Score, Account, Advance;
    var current := Advance(r, now).0;
    var score, key := Score(r.definition.sources, c), GroupingKey(r.definition.groupBy, c);
    if score.Ok? && score.value > 0 && key.Some? {
      AccountVerdicts(current, c, key.value, score.value, PacketMetadata(r.definition.groupBy, user, gift));
    }
  }

  /**
   * A packet in scope is skipped exactly when a competition ranking finds no option in it, and worth nothing
   * exactly when its exact score is zero; without an exact score or without a key it is refused.
   */
  lemma PassedOverExactly(r: RankState, c: Contribution, now: u64, user: Option<Metadata>, gift: Option<Metadata>)
    requires Consistent(r) && InScope(r, c) && !Packet(r, c, now, user, gift).1.ExpiryFailed?
    ensures var verdict := Packet(r, c, now, user, gift).1;
      var (rules, skipped) := (r.definition.sources, c.option.None? && HasSource(r.definition, "competition.vote"));
      && (verdict == Unrouted <==> skipped)
      && (verdict == Worthless <==> !skipped && !AnyAmbiguous(rules, c) && ExactScore(rules, c) == 0)
      && (!skipped && (AnyAmbiguous(rules, c) || ExactScore(rules, c) > U64_MAX) ==> verdict.Refused?)
      && (!skipped && ExactScore(rules, c) > 0 && GroupingKey(r.definition.groupBy, c).None? ==> verdict.Refused?)
  {
    hide Consistent, Score, ExactScore, AnyAmbiguous, Account, Advance, Ruled;
    AdvanceConsistent(r, now);
    ScoreIsExact(r.definition.sources, c);
    var current := Advance(r, now).0;
    var score, key := Score(r.definition.sources, c), GroupingKey(r.definition.groupBy, c);
    if score.Ok? && score.value > 0 && key.Some? {
      AccountVerdicts(current, c, key.value, score.value, PacketMetadata(r.definition.groupBy, user, gift));
    }
  }

  /** The exact effect of an accepted packet on windows and users. */
  lemma CountedEffect(r: RankState, c: Contribution, now: u64, user: Option<Metadata>, gift: Option<Metadata>)
    requires Consistent(r) && Packet(r, c, now, user, gift).1.Counted?
    ensures var (after, verdict) := Packet(r, c, now, user, gift);
      var current := Advance(r, now).0;
      && InScope(r, c) && Advance(r, now).1.Ok? && verdict.score > 0
      && UserDecision(current, c.user) == Ok(Allowed)
      && Boards.Apply(current.board, verdict.key, verdict.score, 1).Ok?
      && after.board.scores == Boards.Apply(current.board, verdict.key, verdict.score, 1).value.scores
      && after.board.revision > current.board.revision
      && after == Accept(current, after.board, c, verdict.key, verdict.score, None)
  {
    hide Sound, WindowConsistent, UsersConsistent, ValidDefinition, ValidInstanceId, Score, Advance, IsCompetition,
         Bytes, Sum;
    AdvanceConsistent(r, now);
  }

  /** Everything but an accepted packet leaves windows, users and scores as expiry left them. */
  lemma UncountedEffect(r: RankState, feed: Feed)
    requires Consistent(r) && Reached(r, feed) && !FeedRanking(r, feed).1.Counted?
    ensures var after, current := FeedRanking(r, feed).0, Advance(r, feed.now).0;
      && NothingAdded(current, after)
      && after.definition == current.definition && after.lastTime == current.lastTime
      && after.board.revision >= current.board.revision
  {
    hide Consistent, Score, Advance, IsCompetition, Account;
    AdvanceConsistent(r, feed.now);
    if feed.Arrival? { UnaccountedEffect(Advance(r, feed.now).0, feed.c); }
  }

  lemma UnaccountedEffect(r: RankState, c: Contribution)
    ensures forall key: string, score: u64, metadata: Option<Metadata> ::
      var (after, verdict) := Account(r, c, key, score, metadata);
      !verdict.Counted? ==>
        && NothingAdded(r, after) && after.definition == r.definition && after.lastTime == r.lastTime
        && after.board.revision >= r.board.revision
  {
    hide Account;
    forall key: string, score: u64, metadata: Option<Metadata> | !Account(r, c, key, score, metadata).1.Counted?
      ensures var after := Account(r, c, key, score, metadata).0;
        && NothingAdded(r, after) && after.definition == r.definition && after.lastTime == r.lastTime
        && after.board.revision >= r.board.revision
    {
      RefusalAddsNothing(r, c, key, score, metadata);
    }
  }
}
