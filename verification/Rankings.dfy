/** What every operation does to one ranking, as functions on its whole state. */
module Rankings {
  import opened Common
  import opened Totals
  import opened Model
  import opened Boards
  import opened Scoring

  datatype UserState = UserState(count: u64, lastTime: u64)

  datatype RankState = RankState(
    definition: Definition,
    instance: u64,
    instanceId: string,
    board: Board,
    paused: bool,
    rejected: u64,
    dropped: u64,
    windowEvents: seq<Event>,
    lastTime: u64,
    users: map<string, UserState>,
    limited: u64,
    cooldownRejected: u64)

  // ---- definitions ---------------------------------------------------------

  predicate ValidWindow(window: Window) {
    match window
    case Session => true
    case Rolling(durationMs, maxEvents) => durationMs > 0 && 0 < maxEvents <= 100_000
    case Daily(offset) => -840 <= offset <= 840
  }

  predicate ValidLimits(limits: UserLimits) {
    && 0 < limits.maxUsers <= 100_000
    && limits.maxContributions != Some(0)
    && limits.cooldownMs != Some(0)
    && (limits.maxContributions.Some? || limits.cooldownMs.Some?)
  }

  predicate ValidRule(rule: SourceRule) {
    && 0 < Bytes(rule.source) <= 128
    && 0 < Bytes(rule.metric) <= 128
    && rule.weight <= 1_000_000_000
    && |rule.giftMultipliers| <= 512
    && forall gift :: gift in rule.giftMultipliers ==>
      0 < Bytes(gift) <= 128 && rule.giftMultipliers[gift] <= 1_000_000_000
  }

  predicate ValidDefinition(d: Definition) {
    && d.schemaVersion == 1
    && 0 < Bytes(d.id) <= 128
    && 0 < Bytes(d.creatorId) <= 256
    && 0 < Bytes(d.roomId) <= 256
    && 0 < |d.sources| <= 64
    && 0 < d.capacity <= 100_000
    && d.limit > 0
    && ValidWindow(d.window)
    && (d.userLimits.Some? ==> ValidLimits(d.userLimits.value))
    && (IsCompetition(d) ==> AssignmentWeight(d).Ok?)
    && forall rule :: rule in d.sources ==> ValidRule(rule)
  }

  predicate Assignable(rule: SourceRule) {
    && (rule.source, rule.metric) in {
         ("competition.vote", "event.count"),
         ("tiktok.like", "like.count"),
         ("tiktok.like", "event.count"),
         ("tiktok.share", "share.count"),
         ("tiktok.share", "event.count"),
         ("tiktok.gift", "gift.count"),
         ("tiktok.gift", "gift.diamonds"),
         ("tiktok.gift", "event.count")}
    && (rule.source == GIFT_SOURCE || rule.giftMultipliers == map[])
  }

  function VoteWeight(rules: seq<SourceRule>): nat {
    if rules == [] then 0
    else (if rules[0].enabled && rules[0].source == VOTE_SOURCE then rules[0].weight else 0) + VoteWeight(rules[1..])
  }

  /** The weight of one durable vote, for definitions that votes can be projected on. */
  function AssignmentWeight(d: Definition): Result<u64, Error> {
    if d.groupBy != OptionKey || d.window != Session || d.userLimits.Some?
       || exists rule :: rule in d.sources && !Assignable(rule)
    then Err(IncompatibleDefinition)
    else if VoteWeight(d.sources) > U64_MAX then Err(Overflow)
    else Ok(VoteWeight(d.sources))
  }

  /** Identities are 32 hexadecimal digits. */
  predicate ValidInstanceId(id: string) {
    |id| == 32 && forall i :: 0 <= i < |id| ==>
      '0' <= id[i] <= '9' || 'a' <= id[i] <= 'f' || 'A' <= id[i] <= 'F'
  }

  function Fresh(d: Definition, instance: u64, instanceId: string): RankState {
    RankState(d, instance, instanceId, EmptyBoard(d.capacity), false, 0, 0, [], 0, map[], 0, 0)
  }

  // ---- the invariant -------------------------------------------------------

  /** A rolling window holds exactly the contributions the scores are made of. */
  ghost predicate WindowBacks(scores: map<string, u64>, events: seq<Event>) {
    && IsTally(scores, events)
    && forall i :: 0 <= i < |events| ==> events[i].score > 0
  }

  predicate TimeSorted(events: seq<Event>, last: u64) {
    && (forall i, j :: 0 <= i < j < |events| ==> events[i].at <= events[j].at)
    && (forall i :: 0 <= i < |events| ==> events[i].at <= last)
  }

  ghost predicate WindowConsistent(r: RankState) {
    match r.definition.window
    case Rolling(_, maxEvents) =>
      WindowBacks(r.board.scores, r.windowEvents) && TimeSorted(r.windowEvents, r.lastTime)
      && |r.windowEvents| <= maxEvents
    case _ => r.windowEvents == []
  }

  predicate UserWithinLimits(limits: UserLimits, user: UserState, lastTime: u64) {
    && user.count > 0
    && user.lastTime <= lastTime
    && (limits.maxContributions.Some? ==> user.count <= limits.maxContributions.value)
  }

  predicate UsersConsistent(r: RankState) {
    match r.definition.userLimits
    case None => r.users == map[]
    case Some(limits) =>
      && |r.users| <= limits.maxUsers
      && (r.board.scores != map[] ==> r.users != map[])
      && forall u :: u in r.users ==> ValidKey(u) && UserWithinLimits(limits, r.users[u], r.lastTime)
  }

  /** The invariant that every operation keeps. */
  ghost predicate Consistent(r: RankState) {
    && ValidDefinition(r.definition)
    && ValidInstanceId(r.instanceId)
    && Sound(r.board)
    && r.board.capacity == r.definition.capacity
    && WindowConsistent(r)
    && UsersConsistent(r)
  }

  // ---- expiry --------------------------------------------------------------

  const DAY_MS := 86_400_000

  function Clamp(n: int): int {
    if n < I64_MIN then I64_MIN else if n > I64_MAX then I64_MAX else n
  }

  /** The local calendar day of a timestamp. */
  function LocalDay(time: u64, offset: int): int {
    Clamp(Min(time, I64_MAX) + offset * 60_000) / DAY_MS
  }

  datatype Drained = Drained(board: Board, events: seq<Event>, result: Result<(), Error>)

  /** The key an event was counted under still holds at least its score. */
  predicate Backed(b: Board, e: Event) {
    e.key in b.scores && b.scores[e.key] >= e.score
  }

  lemma HeadIsBacked(b: Board, events: seq<Event>)
    requires WindowBacks(b.scores, events) && events != []
    ensures Backed(b, events[0])
  {
    assert KeySum(events, events[0].key) == Get(b.scores, events[0].key);
  }

  /**
   * Expiring the head of a consistent window finds its score, never takes more than is there,
   * and leaves a consistent window.
   */
  lemma TailIsBacked(b: Board, events: seq<Event>)
    requires WindowBacks(b.scores, events) && events != []
    ensures Backed(b, events[0])
    ensures Boards.Expire(b, events[0].key, events[0].score).Ok?
      ==> WindowBacks(Boards.Expire(b, events[0].key, events[0].score).value.scores, events[1..])
  {
    HeadIsBacked(b, events);
    var e := events[0];
    if Boards.Expire(b, e.key, e.score).Ok? {
      var after := Boards.Expire(b, e.key, e.score).value.scores;
      forall key ensures KeySum(events[1..], key) == Get(after, key) {
        assert KeySum(events, key) == Get(b.scores, key);
      }
    }
  }

  /**
   * Takes the events that reached their age off the front, oldest first. An event that is not
   * backed by the scores would make the engine panic; consistent windows have none.
   */
  ghost function Drain(b: Board, events: seq<Event>, last: u64, duration: u64): Drained
    decreases |events|
  {
    if events == [] || SaturatingSub(last, events[0].at) < duration || !Backed(b, events[0])
    then Drained(b, events, Ok(()))
    else match Boards.Expire(b, events[0].key, events[0].score)
    case Err(e) => Drained(b, events, Err(e))
    case Ok(after) => Drain(after, events[1..], last, duration)
  }

  /** Everything a day change clears. */
  function NewDay(r: RankState, board: Board): RankState {
    r.(board := board, users := map[], rejected := 0, dropped := 0, limited := 0, cooldownRejected := 0)
  }

  /** Advances the ranking's clock, never backwards, and expires what is due. */
  ghost function Advance(r: RankState, now: u64): (RankState, Result<(), Error>)
  {
    var later := r.(lastTime := Max(r.lastTime, now));
    match r.definition.window
    case Session => (later, Ok(()))
    case Daily(offset) =>
      if r.lastTime == 0 || LocalDay(later.lastTime, offset) == LocalDay(r.lastTime, offset) then (later, Ok(()))
      else (match Boards.Reset(r.board)
            case Err(e) => (later, Err(e))
            case Ok(board) => (NewDay(later, board), Ok(())))
    case Rolling(duration, _) =>
      var d := Drain(r.board, r.windowEvents, later.lastTime, duration);
      (later.(board := d.board, windowEvents := d.events), d.result)
  }

  // ---- packets -------------------------------------------------------------

  datatype Decision = Allowed | Limited | Cooldown

  predicate Exhausted(limits: UserLimits, user: UserState) {
    limits.maxContributions.Some? && user.count >= limits.maxContributions.value
  }

  predicate CoolingDown(limits: UserLimits, user: UserState, now: u64) {
    limits.cooldownMs.Some? && SaturatingSub(now, user.lastTime) < limits.cooldownMs.value
  }

  function UserDecision(r: RankState, user: Option<string>): Result<Decision, Error> {
    match r.definition.userLimits
    case None => Ok(Allowed)
    case Some(limits) =>
      if user.None? || !ValidKey(user.value) then Err(InvalidKey)
      else if user.value in r.users then
        var state := r.users[user.value];
        if Exhausted(limits, state) then Ok(Limited)
        else if CoolingDown(limits, state, r.lastTime) then Ok(Cooldown)
        else if state.count == U64_MAX then Err(Overflow)
        else Ok(Allowed)
      else if |r.users| >= limits.maxUsers then Err(Capacity)
      else Ok(Allowed)
  }

  /** How one packet was accounted in one ranking. */
  datatype Verdict =
    | OutOfScope
    | ExpiryFailed(error: Error)
    | Unrouted
    | Worthless
    | Counted(key: string, score: u64)
    | OverLimit
    | TooSoon
    | Refused(error: Error)

  function TouchQuietly(b: Board): Board {
    if b.revision == U64_MAX then b else b.(revision := b.revision + 1)
  }

  /** A failure is counted and advances the revision when it still can. */
  function MarkRejected(r: RankState): RankState {
    r.(rejected := SaturatingAdd(r.rejected, 1), board := TouchQuietly(r.board))
  }

  predicate InScope(r: RankState, c: Contribution) {
    !r.paused && r.definition.creatorId == c.creatorId && r.definition.roomId == c.roomId
  }

  function PacketMetadata(groupBy: GroupBy, user: Option<Metadata>, gift: Option<Metadata>): Option<Metadata> {
    if groupBy == User then user else if groupBy == Gift then gift else None
  }

  /** The state after an accepted positive score. */
  function Accept(r: RankState, board: Board, c: Contribution, key: string, score: u64,
                  metadata: Option<Metadata>): RankState
    requires r.definition.userLimits.Some? ==> c.user.Some?
    requires r.definition.userLimits.Some? && c.user.value in r.users ==> r.users[c.user.value].count < U64_MAX
  {
    r.(board := if metadata.Some? then WithMetadata(board, key, metadata.value) else board,
       users := if r.definition.userLimits.Some? then r.users[c.user.value :=
                  UserState((if c.user.value in r.users then r.users[c.user.value].count else 0) + 1, r.lastTime)]
                else r.users,
       windowEvents := if r.definition.window.Rolling? then r.windowEvents + [Event(r.lastTime, key, score)]
                       else r.windowEvents)
  }

  /** Accounts a packet of positive score under a key, after expiry. */
  ghost function Account(r: RankState, c: Contribution, key: string, score: u64,
                         metadata: Option<Metadata>): (RankState, Verdict) {
    if r.definition.window.Rolling? && |r.windowEvents| >= r.definition.window.maxEvents
    then (MarkRejected(r), Refused(WindowCapacity))
    else match UserDecision(r, c.user)
    case Err(e) => (MarkRejected(r), Refused(e))
    case Ok(Allowed) =>
      (match Boards.Apply(r.board, key, score, 1)
       case Err(e) => (MarkRejected(r), Refused(e))
       case Ok(board) => (Accept(r, board, c, key, score, metadata), Counted(key, score)))
    case Ok(decision) =>
      (match Bump(r.board)
       case Err(e) => (MarkRejected(r), Refused(e))
       case Ok(board) =>
         if decision == Limited then (r.(board := board, limited := SaturatingAdd(r.limited, 1)), OverLimit)
         else (r.(board := board, cooldownRejected := SaturatingAdd(r.cooldownRejected, 1)), TooSoon))
  }

  /** Everything one packet does to one ranking that has a rule for its source. */
  ghost function Packet(r: RankState, c: Contribution, now: u64,
                        user: Option<Metadata>, gift: Option<Metadata>): (RankState, Verdict)
  {
    if !InScope(r, c) then (r, OutOfScope)
    else
      var (current, expiry) := Advance(r, now);
      if expiry.Err? then (current.(rejected := SaturatingAdd(current.rejected, 1)), ExpiryFailed(expiry.error))
      else if c.option.None? && IsCompetition(r.definition) then (current, Unrouted)
      else
        var score := Score(r.definition.sources, c);
        var key := GroupingKey(r.definition.groupBy, c);
        if score == Ok(0) then (current, Worthless)
        else if score.Err? then (MarkRejected(current), Refused(score.error))
        else if key.None? then (MarkRejected(current), Refused(InvalidKey))
        else Account(current, c, key.value, score.value, PacketMetadata(r.definition.groupBy, user, gift))
  }

  // ---- control operations --------------------------------------------------

  function Cleared(r: RankState, board: Board): RankState {
    r.(board := board, rejected := 0, dropped := 0, windowEvents := [], lastTime := 0, users := map[],
       limited := 0, cooldownRejected := 0)
  }

  function ResetRanking(r: RankState): (RankState, Result<(), Error>) {
    match Boards.Reset(r.board)
    case Err(e) => (r, Err(e))
    case Ok(board) => (Cleared(r, board), Ok(()))
  }

  function SetPaused(r: RankState, paused: bool): (RankState, Result<(), Error>) {
    if r.paused == paused then (r, Ok(()))
    else match Bump(r.board)
    case Err(e) => (r, Err(e))
    case Ok(board) => (r.(board := board, paused := paused), Ok(()))
  }

  /** Presentation of an existing entry; an actual change advances the revision first. */
  function SetMetadata(r: RankState, key: string, metadata: Metadata): (RankState, Result<(), Error>) {
    if key !in r.board.scores then (r, Ok(()))
    else
      var next := Described(r.board, key) + Bounded(metadata);
      if key in r.board.metadata && r.board.metadata[key] == next then (r, Ok(()))
      else match Bump(r.board)
      case Err(e) => (r, Err(e))
      case Ok(board) => (r.(board := board.(metadata := board.metadata[key := next])), Ok(()))
  }

  datatype DefinitionError =
    | Invalid | Duplicate | FullEngine | Missing | NotPaused | ResetRequired | RevisionOverflow | IdentityUnavailable

  /** Why a definition cannot replace the current one, if it cannot. */
  function UpdateError(r: RankState, d: Definition, reset: bool): Option<DefinitionError> {
    if !r.paused then Some(NotPaused)
    else if r.definition.(limit := d.limit) != d && !reset then Some(ResetRequired)
    else if r.board.revision == U64_MAX then Some(RevisionOverflow)
    else None
  }

  function Redefine(r: RankState, d: Definition, reset: bool): (RankState, Option<DefinitionError>) {
    if !ValidDefinition(d) then (r, Some(Invalid))
    else if UpdateError(r, d, reset).Some? then (r, UpdateError(r, d, reset))
    else if reset then
      (Cleared(r, Board(map[], map[], d.capacity, r.board.revision + 1)).(definition := d), None)
    else (r.(definition := d, board := r.board.(revision := r.board.revision + 1)), None)
  }

  /** A contribution routed to this ranking that could not be accounted for. */
  function MarkGap(r: RankState): RankState {
    if r.paused then r else MarkRejected(r)
  }

  function MarkRecoveryGap(r: RankState): (RankState, Result<(), Error>) {
    (MarkRejected(r), if r.board.revision == U64_MAX then Err(Overflow) else Ok(()))
  }

  /** Competition rankings depend only on votes they are told about. */
  predicate DependsOn(r: RankState, creator: string, room: string, source: string) {
    && !r.paused
    && (source == VOTE_SOURCE || !IsCompetition(r.definition))
    && r.definition.creatorId == creator
    && r.definition.roomId == room
  }

  function MarkSourceGap(r: RankState, creator: string, room: string, source: string): RankState {
    if DependsOn(r, creator, room, source)
       && exists rule :: rule in r.definition.sources && rule.enabled && rule.source == source
    then MarkRejected(r) else r
  }

  predicate Weighs(rule: SourceRule, source: string, metric: string) {
    rule.enabled && rule.weight > 0 && rule.source == source && rule.metric == metric
  }

  function MarkMetricGap(r: RankState, creator: string, room: string, source: string, metric: string): RankState {
    if DependsOn(r, creator, room, source)
       && exists rule :: rule in r.definition.sources && Weighs(rule, source, metric)
    then MarkRejected(r) else r
  }

  function MarkLoss(r: RankState, count: u64): RankState {
    if count == 0 || r.paused then r
    else r.(dropped := SaturatingAdd(r.dropped, count), board := TouchQuietly(r.board))
  }

  // ---- durable votes -------------------------------------------------------

  datatype Vote = Vote(option: string, votes: u64)

  /** A vote that moves between options must be worth a word in both. */
  predicate MoveOverflows(weight: u64, previous: Vote, next: Vote) {
    && previous.option != next.option
    && (previous.votes * weight > U64_MAX || (next.votes - previous.votes) * weight > U64_MAX)
  }

  ghost function AssignOnBoard(b: Board, weight: u64, previous: Vote, next: Vote): Result<Board, Error>
    requires previous.votes <= next.votes && !MoveOverflows(weight, previous, next)
  {
    var delta := next.votes - previous.votes;
    if previous.option == next.option then Boards.Apply(b, next.option, delta, weight)
    else if weight == 0 then Ok(b)
    else Reassign(b, previous.option, next.option, previous.votes * weight, delta * weight)
  }

  function PreviousVote(previous: Option<Vote>, next: Vote): Vote {
    if previous.Some? then previous.value else Vote(next.option, 0)
  }

  /** Applies one committed transition of a participant's durable vote. */
  ghost function Assign(r: RankState, previous: Option<Vote>, next: Vote): (RankState, Result<(), Error>) {
    var held := PreviousVote(previous, next);
    var weight := AssignmentWeight(r.definition);
    if weight.Err? then (r, Err(weight.error))
    else if r.paused then (r, Err(IncompatibleDefinition))
    else if next.votes < held.votes then (r, Err(InsufficientScore))
    else if MoveOverflows(weight.value, held, next) then (r, Err(Overflow))
    else match AssignOnBoard(r.board, weight.value, held, next)
    case Err(e) => (MarkRejected(r), Err(e))
    case Ok(board) => (r.(board := board), Ok(()))
  }

  ghost function CommitScore(r: RankState, option: string, score: u64): (RankState, Result<(), Error>) {
    var weight := AssignmentWeight(r.definition);
    if weight.Err? then (r, Err(weight.error))
    else if r.paused then (r, Err(IncompatibleDefinition))
    else match Boards.Apply(r.board, option, score, 1)
    case Err(e) => (MarkRejected(r), Err(e))
    case Ok(board) => (r.(board := board), Ok(()))
  }

  /** Adds a list of per-option values, each option at most once. */
  ghost function ApplyAll(b: Board, values: seq<Vote>, weight: u64): Result<Board, Error>
    decreases |values|
  {
    if values == [] then Ok(b)
    else
      var last := values[|values| - 1];
      match ApplyAll(b, values[..|values| - 1], weight)
      case Err(e) => Err(e)
      case Ok(before) =>
        if exists i :: 0 <= i < |values| - 1 && values[i].option == last.option then Err(InvalidKey)
        else Boards.Apply(before, last.option, last.votes, weight)
  }

  /** The board that vote totals and routed scores stand for, built from nothing. */
  ghost function Rebuilt(capacity: nat, totals: seq<Vote>, scored: seq<Vote>, weight: u64): Result<Board, Error> {
    match ApplyAll(EmptyBoard(capacity), totals, weight)
    case Err(e) => Err(e)
    case Ok(b) => ApplyAll(b, scored, 1)
  }

  ghost function RestoreVotes(r: RankState, totals: seq<Vote>, scored: seq<Vote>): (RankState, Result<(), Error>) {
    var weight := AssignmentWeight(r.definition);
    if weight.Err? then (r, Err(weight.error))
    else if r.board.revision == U64_MAX then (r, Err(Overflow))
    else match Rebuilt(r.definition.capacity, totals, scored, weight.value)
    case Err(e) => (r, Err(e))
    case Ok(board) => (r.(board := board.(revision := r.board.revision + 1)), Ok(()))
  }
}
