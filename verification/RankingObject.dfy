/** One ranking as the engine holds it: fields updated in place over an incremental board. */
module RankingObject {
  import opened Common
  import opened Totals
  import opened Model
  import opened Boards
  import opened Scoring
  import opened Aggregation
  import opened Rankings
  import opened RankingInvariant
  import opened Checkpoints
  import opened RestoredBehaviour

  class Ranking {
    var definition: Definition
    const instance: u64
    var instanceId: string
    var state: Aggregation
    var paused: bool
    var rejected: u64
    var dropped: u64
    var windowEvents: seq<Event>
    var lastTime: u64
    var users: map<string, UserState>
    var limited: u64
    var cooldownRejected: u64

    ghost function State(): RankState
      reads this, state
    {
      RankState(definition, instance, instanceId, state.View(), paused, rejected, dropped, windowEvents, lastTime,
                users, limited, cooldownRejected)
    }

    /** The objects this ranking is made of. */
    ghost var Repr: set<object>

    ghost predicate Valid()
      reads this, Repr
      ensures Valid() ==> this in Repr && state in Repr && state.index in Repr
    {
      && this in Repr && state in Repr && state.index in Repr
      && state.Valid() && Consistent(State())
    }

    lemma StateFields()
      ensures State().paused == paused && State().definition == definition && State().board.revision == state.revision
    {
    }

    constructor (d: Definition, instance: u64, instanceId: string)
      requires ValidDefinition(d) && ValidInstanceId(instanceId)
      ensures Valid() && fresh(Repr)
      ensures State() == Fresh(d, instance, instanceId)
    {
      definition, this.instance, this.instanceId := d, instance, instanceId;
      state := new Aggregation(d.capacity);
      paused, rejected, dropped, windowEvents, lastTime := false, 0, 0, [], 0;
      users, limited, cooldownRejected := map[], 0, 0;
      new;
      Repr := {this, state, state.index};
      FreshConsistent(d, instance, instanceId);
    }

    /** Advances the clock and expires what is due, event by event. */
    method Advance(now: u64) returns (r: Result<(), Error>)
      requires Valid()
      modifies this, state, state.index
      ensures state == old(state) && Repr == old(Repr)
      ensures (State(), r) == Rankings.Advance(old(State()), now)
      ensures Valid()
    {
      hide Sum, Bytes, ValidDefinition, ValidInstanceId, LocalDay, UsersConsistent, IsTally, Sound, Drain, Expire;
      AdvanceConsistent(State(), now);
      match definition.window {
        case Daily(offset) =>
          var previous := lastTime;
          lastTime := Max(previous, now);
          if previous != 0 && LocalDay(lastTime, offset) != LocalDay(previous, offset) {
            r := TurnDay();
          } else {
            r := Ok(());
          }
        case Session =>
          lastTime := Max(lastTime, now);
          return Ok(());
        case Rolling(duration, _) =>
          lastTime := Max(lastTime, now);
          r := DrainWindow(duration);
      }
    }

    /** Clears the scores, the users and the counters of the day that ended. */
    method TurnDay() returns (r: Result<(), Error>)
      requires state.Valid()
      modifies this`users, this`rejected, this`dropped, this`limited, this`cooldownRejected, state, state.index
      ensures state.Valid()
      ensures match Boards.Reset(old(state.View()))
        case Ok(board) => r == Ok(()) && State() == NewDay(old(State()), board)
        case Err(e) => r == Err(e) && State() == old(State())
    {
      hide Sum, Bytes, Sound;
      r := state.Reset();
      if r.Err? { return; }
      users, rejected, dropped, limited, cooldownRejected := map[], 0, 0, 0, 0;
    }

    /** The expiry loop: pops each event only after its score was taken off. */
    method DrainWindow(duration: u64) returns (r: Result<(), Error>)
      requires state.Valid() && WindowBacks(state.scores, windowEvents)
      modifies this`windowEvents, state, state.index
      ensures state.Valid()
      ensures Drained(state.View(), windowEvents, r) == Drain(old(state.View()), old(windowEvents), lastTime, duration)
    {
      hide IsTally, Sum, Sound;
      while windowEvents != [] && SaturatingSub(lastTime, windowEvents[0].at) >= duration
        invariant state.Valid() && WindowBacks(state.scores, windowEvents)
        invariant Drain(state.View(), windowEvents, lastTime, duration)
               == Drain(old(state.View()), old(windowEvents), lastTime, duration)
        decreases |windowEvents|
      {
        TailIsBacked(state.View(), windowEvents);
        var expired := state.Expire(windowEvents[0].key, windowEvents[0].score);
        if expired.Err? { return expired; }
        windowEvents := windowEvents[1..];
      }
      return Ok(());
    }

    /** Counts a failure and advances the revision if it still can. */
    method Reject()
      requires Valid()
      modifies this`rejected, state`revision
      ensures Valid()
      ensures State() == MarkRejected(old(State()))
    {
      hide Sum, Bytes, ValidDefinition, ValidInstanceId, UsersConsistent, IsTally, Sound, WindowConsistent;
      MarkRejectedConsistent(State());
      rejected := SaturatingAdd(rejected, 1);
      var _ := state.Touch();
    }

    /** Counts a failed expiry, which had no revision left to show it. */
    method CountExpiryFailure()
      requires Valid()
      modifies this`rejected
      ensures Valid()
      ensures State() == old(State()).(rejected := SaturatingAdd(old(rejected), 1))
    {
      hide Sum, Bytes, ValidDefinition, ValidInstanceId, UsersConsistent, IsTally, Sound, WindowConsistent;
      SameAccounting(State(), State().(rejected := SaturatingAdd(rejected, 1)));
      rejected := SaturatingAdd(rejected, 1);
    }

    /** Lets time pass: expires what is due even when nothing arrives. */
    method Tick(now: u64)
      requires Valid()
      modifies this, state, state.index
      ensures Valid() && state == old(state) && Repr == old(Repr)
      ensures State() == TickRanking(old(State()), now)
    {
      hide Sum, Bytes, ValidDefinition, ValidInstanceId, UsersConsistent, IsTally, Sound, WindowConsistent,
           Rankings.Advance;
      var expiry := Advance(now);
      if expiry.Err? {
        CountExpiryFailure();
      }
    }

    /** Everything one contribution does to this ranking. */
    method Contribute(c: Contribution, now: u64, user: Option<Metadata>, gift: Option<Metadata>) returns (v: Verdict)
      requires Valid()
      modifies this, state, state.index
      ensures Valid() && state == old(state) && Repr == old(Repr)
      ensures (State(), v) == Packet(old(State()), c, now, user, gift)
    {
      hide Sum, Bytes, ValidDefinition, ValidInstanceId, UsersConsistent, IsTally, Sound, WindowConsistent,
           Rankings.Advance, Rankings.Account, Score;
      AdvanceConsistent(State(), now);
      if paused || definition.creatorId != c.creatorId || definition.roomId != c.roomId {
        return OutOfScope;
      }
      var expiry := Advance(now);
      if expiry.Err? {
        CountExpiryFailure();
        return ExpiryFailed(expiry.error);
      }
      if c.option.None? && IsCompetition(definition) {
        return Unrouted;
      }
      var score := ComputeScore(definition.sources, c);
      if score == Ok(0) {
        return Worthless;
      }
      var key := GroupingKey(definition.groupBy, c);
      if score.Err? {
        Reject();
        return Refused(score.error);
      }
      if key.None? {
        Reject();
        return Refused(InvalidKey);
      }
      v := Account(c, key.value, score.value, PacketMetadata(definition.groupBy, user, gift));
    }

    /** Accounts a positive score under a key, unless the window or the user's limits are exhausted. */
    method Account(c: Contribution, key: string, score: u64, metadata: Option<Metadata>) returns (v: Verdict)
      requires Valid() && score > 0
      modifies this, state, state.index
      ensures Valid() && state == old(state) && Repr == old(Repr)
      ensures (State(), v) == Rankings.Account(old(State()), c, key, score, metadata)
    {
      hide Sum, Bytes, ValidDefinition, ValidInstanceId, UsersConsistent, IsTally, Sound, WindowConsistent,
           Boards.Apply, WithMetadata, UserDecision;
      AccountConsistent(State(), c, key, score, metadata);
      if definition.window.Rolling? && |windowEvents| >= definition.window.maxEvents {
        Reject();
        return Refused(WindowCapacity);
      }
      var decision := Decide(c.user);
      if decision.Err? {
        Reject();
        return Refused(decision.error);
      }
      if decision.value == Allowed {
        v := Admit(c, key, score, metadata);
        return;
      }
      var touched := state.Touch();
      if touched.Err? {
        Reject();
        return Refused(touched.error);
      }
      if decision.value == Limited {
        limited := SaturatingAdd(limited, 1);
        return OverLimit;
      }
      cooldownRejected := SaturatingAdd(cooldownRejected, 1);
      return TooSoon;
    }

    /** Applies a score whose user may contribute. */
    method Admit(c: Contribution, key: string, score: u64, metadata: Option<Metadata>) returns (v: Verdict)
      requires Valid() && score > 0 && UserDecision(State(), c.user) == Ok(Allowed)
      requires definition.window.Rolling? ==> |windowEvents| < definition.window.maxEvents
      modifies this, state, state.index
      ensures state == old(state) && Repr == old(Repr)
      ensures match Boards.Apply(old(State()).board, key, score, 1)
        case Err(e) => State() == MarkRejected(old(State())) && v == Refused(e)
        case Ok(b) => State() == Accept(old(State()), b, c, key, score, metadata) && v == Counted(key, score)
      ensures Valid()
    {
      hide Sum, Bytes, ValidDefinition, ValidInstanceId, UsersConsistent, IsTally, Sound, WindowConsistent,
           Boards.Apply, WithMetadata, UserDecision;
      AllowedIsCountable(State(), c.user);
      if Boards.Apply(State().board, key, score, 1).Ok? { AcceptConsistent(State(), c, key, score, metadata); }
      var applied := state.Apply(key, score, 1);
      if applied.Err? {
        Reject();
        return Refused(applied.error);
      }
      if metadata.Some? {
        state.UpdateMetadata(key, metadata.value);
      }
      if definition.userLimits.Some? {
        var count := if c.user.value in users then users[c.user.value].count else 0;
        users := users[c.user.value := UserState(count + 1, lastTime)];
      }
      if definition.window.Rolling? {
        windowEvents := windowEvents + [Event(lastTime, key, score)];
      }
      return Counted(key, score);
    }

    /** Whether the user behind a packet may still contribute. */
    method Decide(user: Option<string>) returns (r: Result<Decision, Error>)
      ensures r == UserDecision(State(), user)
    {
      if definition.userLimits.None? {
        return Ok(Allowed);
      }
      var limits := definition.userLimits.value;
      if user.None? || user.value == "" || Bytes(user.value) > 512 {
        return Err(InvalidKey);
      }
      if user.value in users {
        var seen := users[user.value];
        if limits.maxContributions.Some? && seen.count >= limits.maxContributions.value {
          return Ok(Limited);
        }
        if limits.cooldownMs.Some? && SaturatingSub(lastTime, seen.lastTime) < limits.cooldownMs.value {
          return Ok(Cooldown);
        }
        if seen.count == U64_MAX {
          return Err(Overflow);
        }
      } else if |users| >= limits.maxUsers {
        return Err(Capacity);
      }
      return Ok(Allowed);
    }

    method Reset() returns (r: Result<(), Error>)
      requires Valid()
      modifies this, state, state.index
      ensures Valid() && state == old(state) && Repr == old(Repr)
      ensures (State(), r) == ResetRanking(old(State()))
    {
      hide Sum, Bytes, ValidDefinition, ValidInstanceId, UsersConsistent, IsTally, Sound, WindowConsistent;
      ResetConsistent(State());
      r := state.Reset();
      if r.Ok? { Clear(); }
    }

    /** Forgets windows, users, clock and counters. */
    method Clear()
      modifies this
      ensures state == old(state) && Repr == old(Repr)
      ensures State() == Cleared(old(State()), old(state.View()))
    {
      rejected, dropped, windowEvents, lastTime := 0, 0, [], 0;
      users, limited, cooldownRejected := map[], 0, 0;
    }

    method SetPaused(paused: bool) returns (r: Result<(), Error>)
      requires Valid()
      modifies this`paused, state`revision
      ensures Valid()
      ensures (State(), r) == Rankings.SetPaused(old(State()), paused)
    {
      hide Sum, Bytes, ValidDefinition, ValidInstanceId, UsersConsistent, IsTally, Sound, WindowConsistent;
      PauseAndMarksConsistent(State(), paused, 0);
      if this.paused != paused {
        r := state.Touch();
        if r.Err? { return; }
        this.paused := paused;
      }
      return Ok(());
    }

    method Lose(count: u64)
      requires Valid()
      modifies this`dropped, state`revision
      ensures Valid()
      ensures State() == MarkLoss(old(State()), count)
    {
      hide Sum, Bytes, ValidDefinition, ValidInstanceId, UsersConsistent, IsTally, Sound, WindowConsistent;
      PauseAndMarksConsistent(State(), false, count);
      if count == 0 || paused { return; }
      dropped := SaturatingAdd(dropped, count);
      var _ := state.Touch();
    }

    method RecoverGap() returns (r: Result<(), Error>)
      requires Valid()
      modifies this`rejected, state`revision
      ensures Valid()
      ensures (State(), r) == MarkRecoveryGap(old(State()))
    {
      hide Sum, Bytes, ValidDefinition, ValidInstanceId, UsersConsistent, IsTally, Sound, WindowConsistent;
      MarkRejectedConsistent(State());
      rejected := SaturatingAdd(rejected, 1);
      r := state.Touch();
    }

    /** A contribution routed to this ranking could not be accounted for. */
    method MarkGap()
      requires Valid()
      modifies this`rejected, state`revision
      ensures Valid()
      ensures State() == Rankings.MarkGap(old(State()))
    {
      if !paused { Reject(); }
    }

    /** Input of a source was lost; running rankings that count it are degraded. */
    method MissSource(creator: string, room: string, source: string)
      requires Valid()
      modifies this`rejected, state`revision
      ensures Valid()
      ensures State() == MarkSourceGap(old(State()), creator, room, source)
    {
      hide Consistent, Sound;
      if paused || (source != VOTE_SOURCE && IsCompetition(definition))
         || definition.creatorId != creator || definition.roomId != room {
        return;
      }
      for i := 0 to |definition.sources|
        invariant State() == old(State()) && Valid()
        invariant forall k :: 0 <= k < i ==> !(definition.sources[k].enabled && definition.sources[k].source == source)
      {
        if definition.sources[i].enabled && definition.sources[i].source == source {
          Reject();
          return;
        }
      }
    }

    /** A metric could not be measured; running rankings with a weight for it are degraded. */
    method MissMetric(creator: string, room: string, source: string, metric: string)
      requires Valid()
      modifies this`rejected, state`revision
      ensures Valid()
      ensures State() == MarkMetricGap(old(State()), creator, room, source, metric)
    {
      hide Consistent, Sound;
      if paused || (source != VOTE_SOURCE && IsCompetition(definition))
         || definition.creatorId != creator || definition.roomId != room {
        return;
      }
      for i := 0 to |definition.sources|
        invariant State() == old(State()) && Valid()
        invariant forall k :: 0 <= k < i ==> !Weighs(definition.sources[k], source, metric)
      {
        if Weighs(definition.sources[i], source, metric) {
          Reject();
          return;
        }
      }
    }

    /** Presentation of an existing entry; only a change advances the revision. */
    method SetMetadata(key: string, metadata: Metadata) returns (r: Result<(), Error>)
      requires Valid()
      modifies state
      ensures Valid()
      ensures (State(), r) == Rankings.SetMetadata(old(State()), key, metadata)
    {
      hide Sum, Bytes, ValidDefinition, ValidInstanceId, UsersConsistent, IsTally, WindowConsistent, Bounded, WellKeyed;
      SetMetadataConsistent(State(), key, metadata);
      if key !in state.scores {
        return Ok(());
      }
      var next := (if key in state.metadata then state.metadata[key] else map[]) + Bounded(metadata);
      if !(key in state.metadata && state.metadata[key] == next) {
        r := state.Touch();
        if r.Err? { return; }
        state.metadata := state.metadata[key := next];
      }
      return Ok(());
    }

    /** Replaces a definition that was found acceptable, clearing the accounts if asked to. */
    method Replace(d: Definition, reset: bool)
      requires Valid() && ValidDefinition(d) && UpdateError(State(), d, reset).None?
      modifies this, state, state.index
      ensures Valid() && state == old(state) && Repr == old(Repr)
      ensures State() == Redefine(old(State()), d, reset).0
    {
      hide Sum, Bytes, ValidDefinition, ValidInstanceId, UsersConsistent, IsTally, WindowConsistent, Sound;
      RedefineConsistent(State(), d, reset);
      if reset {
        var done := state.Reset();
        assert done.Ok?;
        state.SetCapacity(d.capacity);
        Clear();
      } else {
        var done := state.Touch();
        assert done.Ok?;
      }
      definition := d;
    }

    /** Applies one committed transition of a participant's durable vote. */
    method Assign(previous: Option<Vote>, next: Vote) returns (r: Result<(), Error>)
      requires Valid()
      modifies this, state, state.index
      ensures Valid() && state == old(state) && Repr == old(Repr)
      ensures (State(), r) == Rankings.Assign(old(State()), previous, next)
    {
      hide Sum, Bytes, ValidDefinition, ValidInstanceId, UsersConsistent, IsTally, Sound, WindowConsistent,
           Boards.Apply, Reassign, AssignmentWeight;
      AssignConsistent(State(), previous, next);
      var weight := AssignmentWeight(definition);
      if weight.Err? {
        return Err(weight.error);
      }
      if paused {
        return Err(IncompatibleDefinition);
      }
      var held := if previous.Some? then previous.value else Vote(next.option, 0);
      if next.votes < held.votes {
        return Err(InsufficientScore);
      }
      var delta := next.votes - held.votes;
      if held.option == next.option {
        r := state.Apply(next.option, delta, weight.value);
      } else if weight.value == 0 {
        r := Ok(());
      } else {
        if held.votes * weight.value > U64_MAX || delta * weight.value > U64_MAX {
          return Err(Overflow);
        }
        r := state.Reassign(held.option, next.option, held.votes * weight.value, delta * weight.value);
      }
      if r.Err? { Reject(); }
    }

    method Commit(option: string, score: u64) returns (r: Result<(), Error>)
      requires Valid()
      modifies this, state, state.index
      ensures Valid() && state == old(state) && Repr == old(Repr)
      ensures (State(), r) == CommitScore(old(State()), option, score)
    {
      hide Sum, Bytes, ValidDefinition, ValidInstanceId, UsersConsistent, IsTally, Sound, WindowConsistent,
           Boards.Apply, AssignmentWeight;
      CommitScoreConsistent(State(), option, score);
      var weight := AssignmentWeight(definition);
      if weight.Err? {
        return Err(weight.error);
      }
      if paused {
        return Err(IncompatibleDefinition);
      }
      r := state.Apply(option, score, 1);
      if r.Err? { Reject(); }
    }

    /** Rebuilds the board off to the side from vote totals and routed scores. */
    method RestoreVotes(totals: seq<Vote>, scored: seq<Vote>) returns (r: Result<(), Error>)
      requires Valid()
      modifies this`state, this`Repr
      ensures Valid() && fresh(Repr - old(Repr))
      ensures (State(), r) == Rankings.RestoreVotes(old(State()), totals, scored)
    {
      hide Sum, Consistent, Boards.Apply, AssignmentWeight, ApplyAll, Sound;
      RestoreVotesConsistent(State(), totals, scored);
      var weight := AssignmentWeight(definition);
      if weight.Err? {
        return Err(weight.error);
      }
      if state.revision == U64_MAX {
        return Err(Overflow);
      }
      var revision: u64 := state.revision + 1;
      var candidate := new Aggregation(definition.capacity);
      r := ApplyValues(candidate, totals, weight.value);
      if r.Err? { return; }
      r := ApplyValues(candidate, scored, 1);
      if r.Err? { return; }
      TouchSound(candidate.View(), revision);
      candidate.revision := revision;
      state, Repr := candidate, Repr + {candidate, candidate.index};
    }

    // ---- checkpoints -------------------------------------------------------

    method SnapshotOf(limit: nat) returns (s: Snapshot)
      requires Valid()
      ensures s == View(State(), limit)
    {
      hide Sum, Bytes, ValidDefinition, ValidInstanceId, UsersConsistent, IsTally, WindowConsistent;
      var entries := state.SnapshotCandidates(limit);
      entries := RankEntries(entries, limit);
      s := Snapshot(definition.id, 1, definition.creatorId, definition.roomId, definition.window, state.revision,
                    Some(instanceId), Integrity(rejected, dropped), rejected, dropped, limited, cooldownRejected,
                    paused, entries, state.total, |state.scores|);
    }

    method ExportCheckpoint() returns (cp: Checkpoint)
      requires Valid()
      ensures cp == Export(State())
    {
      var s := SnapshotOf(definition.capacity);
      cp := Checkpoint(1, definition, s, windowEvents, lastTime, users);
    }

    /** Restores a checkpoint entirely or not at all. */
    method RestoreCheckpoint(cp: Checkpoint) returns (r: Result<(), Error>)
      requires Valid()
      modifies this
      ensures fresh(Repr - old(Repr))
      ensures match Restore(old(State()), cp)
        case Ok(restored) => r == Ok(()) && State() == restored
        case Err(e) => r == Err(e) && State() == old(State())
      ensures Valid()
    {
      hide Consistent, Sum, RestoredBoard, Sound, Installed;
      RestoredConsistent(State(), cp);
      var candidate;
      r, candidate := BuildBoard(definition, state.revision, cp);
      if r.Err? { return; }
      Install(candidate, cp);
      return Ok(());
    }

    /** Takes over a restored board with the rest of its checkpoint. */
    method Install(board: Aggregation, cp: Checkpoint)
      modifies this
      ensures State() == Installed(old(State()), board.View(), cp)
      ensures Repr == old(Repr) + {board, board.index} && state == board
    {
      InstallCounters(cp.snapshot);
      Repr := Repr + {board, board.index};
      state := board;
      windowEvents, lastTime, users := cp.windowEvents, cp.lastTime, cp.users;
    }

    method InstallCounters(s: Snapshot)
      modifies `paused, `rejected, `dropped, `limited, `cooldownRejected, `instanceId
      ensures State() == old(State()).(
        paused := s.paused, rejected := s.rejected, dropped := s.dropped, limited := s.limited,
        cooldownRejected := s.cooldownRejected,
        instanceId := if s.instanceId.Some? then s.instanceId.value else old(instanceId))
    {
      paused, rejected, dropped := s.paused, s.rejected, s.dropped;
      limited, cooldownRejected := s.limited, s.cooldownRejected;
      if s.instanceId.Some? {
        instanceId := s.instanceId.value;
      }
    }
  }

  lemma RestoredConsistent(r: RankState, cp: Checkpoint)
    requires Consistent(r)
    ensures Restore(r, cp).Ok? ==> Consistent(Restore(r, cp).value)
  {
    AcceptedCheckpointIsConsistent(r, cp);
  }

  lemma AllowedIsCountable(r: RankState, user: Option<string>)
    requires UserDecision(r, user) == Ok(Allowed)
    ensures r.definition.userLimits.Some? ==> user.Some?
    ensures r.definition.userLimits.Some? && user.value in r.users ==> r.users[user.value].count < U64_MAX
  {
  }

  /** Adds per-option values to a board, stopping at the first failure. */
  method ApplyValues(board: Aggregation, values: seq<Vote>, weight: u64) returns (r: Result<(), Error>)
    requires board.Valid()
    modifies board, board.index
    ensures board.Valid()
    ensures match ApplyAll(old(board.View()), values, weight)
      case Ok(b) => r == Ok(()) && board.View() == b
      case Err(e) => r == Err(e)
  {
    hide Sum, Bytes, Sound, Boards.Apply;
    for i := 0 to |values|
      invariant board.Valid()
      invariant ApplyAll(old(board.View()), values[..i], weight) == Ok(board.View())
    {
      assert values[..i + 1][..i] == values[..i];
      ApplyAllPrefix(old(board.View()), values, i + 1, weight);
      if exists k :: 0 <= k < i && values[k].option == values[i].option {
        return Err(InvalidKey);
      }
      r := board.Apply(values[i].option, values[i].votes, weight);
      if r.Err? { return; }
    }
    assert values[..|values|] == values;
    return Ok(());
  }

  /** A failure in the first values is the failure of them all. */
  lemma {:induction false} ApplyAllPrefix(b: Board, values: seq<Vote>, n: nat, weight: u64)
    requires n <= |values|
    ensures ApplyAll(b, values[..n], weight).Err? ==> ApplyAll(b, values, weight) == ApplyAll(b, values[..n], weight)
    decreases |values|
  {
    if n < |values| {
      var front := values[..|values| - 1];
      assert front[..n] == values[..n];
      ApplyAllPrefix(b, front, n, weight);
    } else {
      assert values[..n] == values;
    }
  }

  /** Adds exported entries to a board, each key once and with a positive score. */
  method ApplyEntries(board: Aggregation, entries: seq<Entry>) returns (r: Result<(), Error>)
    requires board.Valid()
    modifies board, board.index
    ensures board.Valid()
    ensures match RestoreEntries(old(board.View()), entries)
      case Ok(b) => r == Ok(()) && board.View() == b
      case Err(e) => r == Err(e)
  {
    hide Sum, Bytes, Sound, Boards.Apply, WithMetadata;
    for i := 0 to |entries|
      invariant board.Valid()
      invariant RestoreEntries(old(board.View()), entries[..i]) == Ok(board.View())
    {
      var entry := entries[i];
      assert entries[..i + 1][..i] == entries[..i];
      RestoreEntriesPrefix(old(board.View()), entries, i + 1);
      if entry.score == 0 || exists k :: 0 <= k < i && entries[k].key == entry.key {
        return Err(InvalidKey);
      }
      r := board.Apply(entry.key, entry.score, 1);
      if r.Err? { return; }
      board.UpdateMetadata(entry.key, EntryFields(entry));
    }
    assert entries[..|entries|] == entries;
    return Ok(());
  }

  lemma {:induction false} RestoreEntriesPrefix(b: Board, entries: seq<Entry>, n: nat)
    requires n <= |entries|
    ensures RestoreEntries(b, entries[..n]).Err? ==> RestoreEntries(b, entries) == RestoreEntries(b, entries[..n])
    decreases |entries|
  {
    if n < |entries| {
      var front := entries[..|entries| - 1];
      assert front[..n] == entries[..n];
      RestoreEntriesPrefix(b, front, n);
    } else {
      assert entries[..n] == entries;
    }
  }

  /** Builds the board of a checkpoint off to the side, with every check of it. */
  method BuildBoard(d: Definition, revision: u64, cp: Checkpoint) returns (r: Result<(), Error>, board: Aggregation)
    ensures fresh(board) && fresh(board.index) && board.Valid()
    ensures match RestoredBoard(d, revision, cp)
      case Ok(b) => r == Ok(()) && board.View() == b
      case Err(e) => r == Err(e)
  {
    hide Sum, Bytes, RestoreEntries, WindowError, UsersFit, HeaderFits, Sound;
    var s := cp.snapshot;
    board := new Aggregation(d.capacity);
    if !HeaderFits(d, revision, cp) {
      return Err(IncompatibleDefinition), board;
    }
    r := ApplyEntries(board, s.entries);
    if r.Err? { return; }
    if board.total != s.totalScore || s.revision < board.revision {
      return Err(IncompatibleDefinition), board;
    }
    var evidence := CheckEvidence(d.window, board.scores, cp);
    if evidence.Some? {
      return Err(evidence.value), board;
    }
    if !UsersFit(d.userLimits, board.scores, cp) {
      return Err(IncompatibleDefinition), board;
    }
    TouchSound(board.View(), s.revision);
    board.revision := s.revision;
    return Ok(()), board;
  }

  /** Compares the window a checkpoint brings with the scores it claims. */
  method CheckEvidence(window: Window, scores: map<string, u64>, cp: Checkpoint) returns (e: Option<Error>)
    ensures e == WindowError(window, scores, cp)
  {
    match window {
      case Rolling(_, maxEvents) =>
        if |cp.windowEvents| > maxEvents {
          return Some(IncompatibleDefinition);
        }
        var totals := AddWindow(cp.windowEvents, cp.lastTime);
        if totals.Err? {
          return Some(totals.error);
        }
        return if totals.value != scores then Some(IncompatibleDefinition) else None;
      case _ =>
        return if cp.windowEvents != [] then Some(IncompatibleDefinition) else None;
    }
  }

  /** Adds window events up per key, refusing disorder, the future, zeros and overflow. */
  method AddWindow(events: seq<Event>, lastTime: u64) returns (r: Result<map<string, u64>, Error>)
    ensures r == WindowTotals(events, lastTime)
  {
    var totals: map<string, u64>, last: u64 := map[], 0;
    for i := 0 to |events|
      invariant WindowTotals(events[..i], lastTime) == Ok(totals)
      invariant last == if i == 0 then 0 else events[i - 1].at
    {
      var e := events[i];
      assert events[..i + 1][..i] == events[..i];
      assert i > 0 ==> events[..i + 1][i - 1] == events[i - 1];
      WindowTotalsPrefix(events, i + 1, lastTime);
      if e.at < last || e.at > lastTime || e.score == 0 {
        return Err(IncompatibleDefinition);
      }
      last := e.at;
      if Get(totals, e.key) + e.score > U64_MAX {
        return Err(Overflow);
      }
      totals := totals[e.key := Get(totals, e.key) + e.score];
    }
    assert events[..|events|] == events;
    return Ok(totals);
  }

  lemma {:induction false} WindowTotalsPrefix(events: seq<Event>, n: nat, lastTime: u64)
    requires n <= |events|
    ensures WindowTotals(events[..n], lastTime).Err? ==>
      WindowTotals(events, lastTime) == WindowTotals(events[..n], lastTime)
    decreases |events|
  {
    if n < |events| {
      var front := events[..|events| - 1];
      assert front[..n] == events[..n];
      WindowTotalsPrefix(front, n, lastTime);
    } else {
      assert events[..n] == events;
    }
  }
}
