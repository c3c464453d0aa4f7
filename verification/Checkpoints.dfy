/** Exporting a ranking's whole accounting state and restoring it into a fresh instance. */
module Checkpoints {
  import opened Common
  import opened Totals
  import opened Model
  import opened Boards
  import opened Rankings

  datatype Snapshot = Snapshot(
    rankingId: string,
    schemaVersion: nat,
    creatorId: string,
    roomId: string,
    window: Window,
    revision: u64,
    instanceId: Option<string>,
    integrityStatus: string,
    rejected: u64,
    dropped: u64,
    limited: u64,
    cooldownRejected: u64,
    paused: bool,
    entries: seq<Entry>,
    totalScore: nat,
    totalParticipants: nat)

  datatype Checkpoint = Checkpoint(
    schemaVersion: nat,
    definition: Definition,
    snapshot: Snapshot,
    windowEvents: seq<Event>,
    lastTime: u64,
    users: map<string, UserState>)

  function Integrity(rejected: u64, dropped: u64): string {
    if rejected > 0 || dropped > 0 then "degraded" else "unknown"
  }

  /** What is shown of a ranking, with at most `limit` entries. */
  ghost function View(r: RankState, limit: nat): Snapshot {
    Snapshot(r.definition.id, 1, r.definition.creatorId, r.definition.roomId, r.definition.window,
             r.board.revision, Some(r.instanceId), Integrity(r.rejected, r.dropped), r.rejected, r.dropped,
             r.limited, r.cooldownRejected, r.paused, Ranking(r.board, limit), Sum(r.board.scores), |r.board.scores|)
  }

  /** The published snapshot shows the configured number of entries. */
  ghost function Published(r: RankState): Snapshot {
    View(r, r.definition.limit)
  }

  ghost function Export(r: RankState): Checkpoint {
    Checkpoint(1, r.definition, View(r, r.definition.capacity), r.windowEvents, r.lastTime, r.users)
  }

  // ---- restoring -----------------------------------------------------------

  /** A header that matches the definition of a ranking that has not been used yet. */
  predicate HeaderFits(d: Definition, revision: u64, cp: Checkpoint) {
    var s := cp.snapshot;
    && cp.schemaVersion == 1
    && d == cp.definition
    && revision == 0
    && s.schemaVersion == 1
    && s.rankingId == d.id
    && s.creatorId == d.creatorId
    && s.roomId == d.roomId
    && s.window == d.window
    && (s.instanceId.Some? ==> ValidInstanceId(s.instanceId.value))
    && |s.entries| == s.totalParticipants
    && |s.entries| <= d.capacity
    && s.integrityStatus in {"unknown", "degraded"}
    && (s.integrityStatus == "unknown" ==> s.rejected == 0 && s.dropped == 0)
    && (s.integrityStatus == "degraded" ==> s.rejected != 0 || s.dropped != 0)
  }

  /** The display fields of an exported entry; its caption becomes an explicit label. */
  function EntryFields(e: Entry): Metadata {
    e.metadata[Label := e.caption]
  }

  /** Rebuilds a board from listed entries, each key at most once and with a positive score. */
  ghost function RestoreEntries(b: Board, entries: seq<Entry>): Result<Board, Error>
    decreases |entries|
  {
    if entries == [] then Ok(b)
    else
      var last := entries[|entries| - 1];
      match RestoreEntries(b, entries[..|entries| - 1])
      case Err(e) => Err(e)
      case Ok(before) =>
        if last.score == 0 || exists i :: 0 <= i < |entries| - 1 && entries[i].key == last.key then Err(InvalidKey)
        else match Boards.Apply(before, last.key, last.score, 1)
        case Err(e) => Err(e)
        case Ok(after) => Ok(WithMetadata(after, last.key, EntryFields(last)))
  }

  /** Adds window events up per key; they must be in order, not in the future and not zero. */
  function WindowTotals(events: seq<Event>, lastTime: u64): Result<map<string, u64>, Error>
    decreases |events|
  {
    if events == [] then Ok(map[])
    else
      var n := |events| - 1;
      var e := events[n];
      match WindowTotals(events[..n], lastTime)
      case Err(error) => Err(error)
      case Ok(totals) =>
        if (n > 0 && e.at < events[n - 1].at) || e.at > lastTime || e.score == 0 then Err(IncompatibleDefinition)
        else if Get(totals, e.key) + e.score > U64_MAX then Err(Overflow)
        else Ok(totals[e.key := Get(totals, e.key) + e.score])
  }

  /** The evidence a rolling window must bring for its scores; other windows bring none. */
  function WindowError(window: Window, scores: map<string, u64>, cp: Checkpoint): Option<Error> {
    match window
    case Rolling(_, maxEvents) =>
      if |cp.windowEvents| > maxEvents then Some(IncompatibleDefinition)
      else (match WindowTotals(cp.windowEvents, cp.lastTime)
            case Err(e) => Some(e)
            case Ok(totals) => if totals != scores then Some(IncompatibleDefinition) else None)
    case _ => if cp.windowEvents != [] then Some(IncompatibleDefinition) else None
  }

  predicate UsersFit(limits: Option<UserLimits>, scores: map<string, u64>, cp: Checkpoint) {
    match limits
    case None => cp.users == map[]
    case Some(limits) =>
      && |cp.users| <= limits.maxUsers
      && (scores != map[] ==> cp.users != map[])
      && forall u :: u in cp.users ==> ValidKey(u) && UserWithinLimits(limits, cp.users[u], cp.lastTime)
  }

  /** The board a checkpoint stands for, if every check of it succeeds. */
  ghost function RestoredBoard(d: Definition, revision: u64, cp: Checkpoint): Result<Board, Error> {
    var s := cp.snapshot;
    if !HeaderFits(d, revision, cp) then Err(IncompatibleDefinition)
    else match RestoreEntries(EmptyBoard(d.capacity), s.entries)
    case Err(e) => Err(e)
    case Ok(board) =>
      if Sum(board.scores) != s.totalScore || s.revision < board.revision then Err(IncompatibleDefinition)
      else if WindowError(d.window, board.scores, cp).Some? then Err(WindowError(d.window, board.scores, cp).value)
      else if !UsersFit(d.userLimits, board.scores, cp) then Err(IncompatibleDefinition)
      else Ok(board.(revision := s.revision))
  }

  /** Restores a checkpoint, whoever produced it, or explains why not. */
  ghost function Restore(r: RankState, cp: Checkpoint): Result<RankState, Error> {
    match RestoredBoard(r.definition, r.board.revision, cp)
    case Err(e) => Err(e)
    case Ok(board) => Ok(Installed(r, board, cp))
  }

  function Installed(r: RankState, board: Board, cp: Checkpoint): RankState {
    var s := cp.snapshot;
    RankState(
      r.definition, r.instance, if s.instanceId.Some? then s.instanceId.value else r.instanceId,
      board, s.paused, s.rejected, s.dropped, cp.windowEvents, cp.lastTime,
      cp.users, s.limited, s.cooldownRejected)
  }

  // ---- accepting is sufficient ---------------------------------------------

  lemma {:induction false} RestoreEntriesSound(b: Board, entries: seq<Entry>)
    requires Sound(b)
    ensures var r := RestoreEntries(b, entries);
      r.Ok? ==> Sound(r.value) && r.value.capacity == b.capacity
    decreases |entries|
  {
    hide Sound, Bytes, Boards.Apply, WithMetadata;
    if entries != [] {
      var front, last := entries[..|entries| - 1], entries[|entries| - 1];
      RestoreEntriesSound(b, front);
      var before := RestoreEntries(b, front);
      if before.Ok? {
        ApplySound(before.value, last.key, last.score, 1);
        var after := Boards.Apply(before.value, last.key, last.score, 1);
        if after.Ok? { WithMetadataSound(after.value, last.key, EntryFields(last)); }
      }
    }
  }

  lemma {:induction false} WindowTotalsTally(events: seq<Event>, lastTime: u64)
    ensures var r := WindowTotals(events, lastTime); r.Ok? ==> WindowBacks(r.value, events)
    decreases |events|
  {
    hide KeySum, IsTally;
    if events == [] {
      assert IsTally(map[], []) by { NothingTallied(); }
    } else if WindowTotals(events, lastTime).Ok? {
      var front, e := events[..|events| - 1], events[|events| - 1];
      assert events == front + [e];
      WindowTotalsTally(front, lastTime);
      TallyAppend(WindowTotals(front, lastTime).value, front, e);
    }
  }

  lemma NothingTallied()
    ensures IsTally(map[], [])
  {
  }

  lemma {:induction false} WindowTotalsSorted(events: seq<Event>, lastTime: u64)
    ensures WindowTotals(events, lastTime).Ok? ==> TimeSorted(events, lastTime)
    decreases |events|
  {
    if events != [] && WindowTotals(events, lastTime).Ok? {
      var n := |events| - 1;
      var front := events[..n];
      WindowTotalsSorted(front, lastTime);
      assert n > 0 ==> front[n - 1] == events[n - 1];
      forall i, j | 0 <= i < j < |events| ensures events[i].at <= events[j].at {
        assert front[i] == events[i];
        if j < n { assert front[j] == events[j]; }
      }
      forall i | 0 <= i < |events| ensures events[i].at <= lastTime { if i < n { assert front[i] == events[i]; } }
    }
  }

  /** Window totals are the exact per-key sums of ordered, positive, past events. */
  lemma WindowTotalsExact(events: seq<Event>, lastTime: u64)
    ensures var r := WindowTotals(events, lastTime);
      r.Ok? ==> WindowBacks(r.value, events) && TimeSorted(events, lastTime)
  {
    WindowTotalsTally(events, lastTime);
    WindowTotalsSorted(events, lastTime);
  }

  /** Any checkpoint that is accepted yields a ranking with the full invariant. */
  lemma AcceptedCheckpointIsConsistent(r: RankState, cp: Checkpoint)
    requires ValidDefinition(r.definition) && ValidInstanceId(r.instanceId)
    ensures Restore(r, cp).Ok? ==> Consistent(Restore(r, cp).value)
  {
    hide Sum, Bytes, IsTally, KeySum, ValidDefinition, ValidInstanceId, WithMetadata, Boards.Apply;
    if Restore(r, cp).Ok? {
      var empty := EmptyBoard(r.definition.capacity);
      assert Sound(empty) by { EmptySound(r.definition.capacity); }
      RestoreEntriesSound(empty, cp.snapshot.entries);
      WindowTotalsExact(cp.windowEvents, cp.lastTime);
    }
  }

  lemma EmptySound(capacity: nat)
    ensures Sound(EmptyBoard(capacity))
  {
  }
}
