/** Several devices of one account sharing a server: agreement, and no blind overwrite. */
module SyncDevices {
  import opened Common
  import opened SyncModel
  import opened SyncRuns
  import opened SyncServer
  import opened SyncRebuild

  /** The server's log, the devices, and how long the log was when each device last changed. */
  datatype World = World(log: seq<Record>, devices: map<string, SyncData>, moments: map<string, nat>)

  /** How the server treats a write, and whether its reply arrives. */
  datatype Verdict =
    | Accept(revision: i64, delivered: bool)
    | Refuse
    | Fail(error: SyncError)

  datatype Event =
    | Edits(device: string, op: SyncOp)
    | Pulls(device: string, moment: nat, page: Page)
    | Pushes(device: string, key: string, verdict: Verdict)
    | Rebuilds(device: string, clock: Clock, net: Network)

  /** Preconditions of a write, evaluated on the current record (section 13.1 of RFC 9110). */
  predicate Met(log: seq<Record>, w: Write) {
    match w.condition
    case IfMatch(revision) => Revision(Current(log, w.key)) == Some(revision)
    case IfNoneMatch => Current(log, w.key).Some? ==> Current(log, w.key).value.deleted
  }

  function Written(w: Write, revision: i64): Record {
    Record(COLLECTION, w.key, revision, w.edit.Delete?, if w.edit.Put? then Some(w.edit.selection) else None)
  }

  /** What the client of a push gets to see. */
  function Reply(verdict: Verdict, w: Write): Result<Record, SyncError> {
    match verdict
    case Accept(revision, delivered) => if delivered then Ok(Written(w, revision)) else Err(SyncError.Network)
    case Refuse => Err(Conflict)
    case Fail(error) => Err(error)
  }

  /**
   * The server may do this: accept only met writes, under a fresh revision; serve only honest answers. A
   * rebuild asks for the head after its device became what it is.
   */
  ghost predicate Possible(w: World, e: Event, me: Account) {
    && e.device in w.devices && e.device in w.moments
    && match e
       case Edits(_, op) => op.Staged? || op.Rebased? || op.Discarded?
       case Pulls(device, moment, page) =>
         moment <= |w.log| && ServedPage(w.log[..moment], w.devices[device].cursor, page)
       case Pushes(device, key, verdict) =>
         var sent := Sent(w.devices[device], key, me);
         verdict.Accept? ==> sent.Some? && Met(w.log, sent.value) && verdict.revision > Head(w.log)
       case Rebuilds(device, clock, net) => w.moments[device] <= clock.head && Honest(w.log, clock, net)
  }

  function OpOf(e: Event): SyncOp {
    match e
    case Edits(_, op) => op
    case Pulls(_, _, page) => PulledPage(Ok(page))
    case Pushes(_, key, verdict) => Pushed(key, write => Reply(verdict, write))
    case Rebuilds(_, _, net) => RebuiltFrom(net)
  }

  function LogAfter(w: World, e: Event, me: Account): seq<Record>
    requires e.device in w.devices
    requires e.Pushes? && e.verdict.Accept? ==> Sent(w.devices[e.device], e.key, me).Some?
  {
    if e.Pushes? && e.verdict.Accept?
    then w.log + [Written(Sent(w.devices[e.device], e.key, me).value, e.verdict.revision)] else w.log
  }

  function Happens(w: World, e: Event, me: Account, p: Parsers): World
    requires e.device in w.devices
    requires e.Pushes? && e.verdict.Accept? ==> Sent(w.devices[e.device], e.key, me).Some?
  {
    var log, next := LogAfter(w, e, me), Step(w.devices[e.device], OpOf(e), me, p);
    World(log, w.devices[e.device := next],
      if next == w.devices[e.device] then w.moments else w.moments[e.device := |log|])
  }

  ghost predicate SoundDevice(log: seq<Record>, s: SyncData, me: Account, p: Parsers) {
    ValidState(s, p) && s.account == me && KnowsUpTo(log, s.cursor, s) && s.cursor <= Head(log)
  }

  ghost predicate SoundWorld(w: World, me: Account, p: Parsers) {
    IsLog(w.log, p) && forall id :: id in w.devices ==> SoundDevice(w.log, w.devices[id], me, p)
  }

  // ---- one write -----------------------------------------------------------

  lemma WrittenIsValid(s: SyncData, key: string, me: Account, revision: i64, p: Parsers)
    requires ValidState(s, p) && Sent(s, key, me).Some? && revision > 0
    ensures ValidRecord(Written(Sent(s, key, me).value, revision), p)
  {
    hide ValidKey, ValidSelection;
    assert ValidEntry(key, s.entries[key], p);
  }

  lemma LogGrows(log: seq<Record>, r: Record, p: Parsers)
    requires IsLog(log, p) && ValidRecord(r, p) && r.revision > Head(log)
    ensures IsLog(log + [r], p) && Head(log + [r]) == r.revision
    ensures forall key :: Current(log + [r], key) == if key == r.key then Some(r) else Current(log, key)
  {
    hide ValidRecord;
    assert (log + [r])[..|log|] == log;
  }

  /** A new write leaves every device knowing what it knew: it lies past all cursors. */
  lemma KnowledgeSurvivesWrites(log: seq<Record>, r: Record, cursor: i64, s: SyncData, p: Parsers)
    requires IsLog(log, p) && ValidRecord(r, p) && r.revision > Head(log)
    requires KnowsUpTo(log, cursor, s) && cursor <= Head(log)
    ensures KnowsUpTo(log + [r], cursor, s)
  {
    hide ValidRecord, Current;
    LogGrows(log, r, p);
    assert forall x :: x in log ==> x in log + [r];
    forall key | Current(log + [r], key).Some? && Current(log + [r], key).value.revision <= cursor
      ensures Mirrors(log + [r], key, RemoteOf(s, key))
    {
      assert key != r.key;
      assert Mirrors(log, key, RemoteOf(s, key));
    }
  }

  /** Learning one's own confirmed write, or flagging an edit, keeps a device sound. */
  lemma PushKnows(log: seq<Record>, s: SyncData, key: string, me: Account, verdict: Verdict, p: Parsers)
    requires IsLog(log, p) && ValidState(s, p) && KnowsUpTo(log, s.cursor, s)
    requires verdict.Accept? ==> Sent(s, key, me).Some? && Written(Sent(s, key, me).value, verdict.revision) in log
    requires verdict.Accept? ==> verdict.revision == Head(log) > s.cursor
    ensures var next := Push(s, key, me, write => Reply(verdict, write), p).0;
      KnowsUpTo(log, next.cursor, next) && next.cursor == s.cursor && next.account == s.account
  {
    hide ValidRecord, Current, ValidKey, ValidState, KnowsUpTo, Echoes;
    var next := Push(s, key, me, write => Reply(verdict, write), p).0;
    if Push(s, key, me, write => Reply(verdict, write), p).1.Ok? {
      assert RemoteOf(next, key) == Some(Written(Sent(s, key, me).value, verdict.revision));
      NewestKnown(log, s, key, Written(Sent(s, key, me).value, verdict.revision), next, p);
    } else {
      SameRemotesKnow(log, s, next);
    }
  }

  lemma SameRemotesKnow(log: seq<Record>, s: SyncData, next: SyncData)
    requires KnowsUpTo(log, s.cursor, s) && forall k :: RemoteOf(next, k) == RemoteOf(s, k)
    ensures KnowsUpTo(log, s.cursor, next)
  {
    hide Current, Mirrors;
  }

  lemma NewestKnown(log: seq<Record>, s: SyncData, key: string, r: Record, next: SyncData, p: Parsers)
    requires IsLog(log, p) && KnowsUpTo(log, s.cursor, s) && r in log && r.key == key && r.revision > s.cursor
    requires next == With(s, key, Entry(Some(r), None))
    ensures KnowsUpTo(log, s.cursor, next)
  {
    hide ValidRecord, Current;
    CurrentIsNewest(log, key, p);
    forall k | Current(log, k).Some? && Current(log, k).value.revision <= s.cursor
      ensures Mirrors(log, k, RemoteOf(next, k))
    {
      assert k != key;
      assert RemoteOf(next, k) == RemoteOf(s, k);
    }
    forall k | RemoteOf(next, k).Some? ensures RemoteOf(next, k).value in log && RemoteOf(next, k).value.key == k {
      if k != key { assert RemoteOf(next, k) == RemoteOf(s, k); }
    }
  }

  // ---- the invariant -------------------------------------------------------

  lemma EditKnows(log: seq<Record>, s: SyncData, op: SyncOp, me: Account, p: Parsers)
    requires (op.Staged? || op.Rebased? || op.Discarded?) && KnowsUpTo(log, s.cursor, s)
    ensures var next := Step(s, op, me, p);
      KnowsUpTo(log, next.cursor, next) && next.cursor == s.cursor && next.account == s.account
  {
    hide ValidKey, ValidSelection, Current, KnowsUpTo;
    SameRemotesKnow(log, s, Step(s, op, me, p));
  }

  /** The device an event concerns stays sound with respect to the log after the event. */
  lemma ActorStaysSound(w: World, e: Event, me: Account, p: Parsers)
    requires SoundWorld(w, me, p) && Possible(w, e, me)
    ensures var after := Happens(w, e, me, p);
      IsLog(after.log, p) && SoundDevice(after.log, after.devices[e.device], me, p)
  {
    hide ValidState, ValidRecord, Current, KnowsUpTo, Honest, ServedPage, Pull, Rebuild, Push, Stage, Rebase, Discard,
         Met;
    var s := w.devices[e.device];
    var next := Step(s, OpOf(e), me, p);
    assert SoundDevice(w.log, s, me, p);
    StepValid(s, OpOf(e), me, p);
    match e {
      case Edits(_, op) => EditKnows(w.log, s, op, me, p);
      case Pulls(_, moment, page) =>
        if Pull(s, me, Ok(page), p).Ok? {
          PullLearns(w.log, moment, s, me, page, p);
          PullKeepsAccount(s, me, Ok(page), p);
        }
      case Rebuilds(_, clock, net) =>
        if Rebuild(s, me, net, p).Ok? {
          RebuildConverges(w.log, clock, net, s, me, p);
          RebuildKeepsAccount(s, me, net, p);
        }
      case Pushes(_, key, verdict) => PusherStaysSound(w.log, s, key, verdict, me, p);
    }
  }

  lemma PusherStaysSound(log: seq<Record>, s: SyncData, key: string, verdict: Verdict, me: Account, p: Parsers)
    requires IsLog(log, p) && SoundDevice(log, s, me, p)
    requires verdict.Accept? ==> Sent(s, key, me).Some? && verdict.revision > Head(log)
    ensures var after := if verdict.Accept? then log + [Written(Sent(s, key, me).value, verdict.revision)] else log;
      && IsLog(after, p)
      && SoundDevice(after, Push(s, key, me, write => Reply(verdict, write), p).0, me, p)
  {
    hide ValidState, ValidRecord, Current, KnowsUpTo, Push;
    PushValid(s, key, me, write => Reply(verdict, write), p);
    if verdict.Accept? {
      HeadIsNotNegative(log, p);
      WrittenIsValid(s, key, me, verdict.revision, p);
      var r := Written(Sent(s, key, me).value, verdict.revision);
      LogGrows(log, r, p);
      KnowledgeSurvivesWrites(log, r, s.cursor, s, p);
      assert (log + [r])[|log|] == r;
      PushKnows(log + [r], s, key, me, verdict, p);
    } else {
      PushKnows(log, s, key, me, verdict, p);
    }
  }

  lemma HeadIsNotNegative(log: seq<Record>, p: Parsers)
    requires IsLog(log, p)
    ensures Head(log) >= 0
  {
  }

  /** Whatever happens, every device stays sound. */
  lemma EventKeepsWorld(w: World, e: Event, me: Account, p: Parsers)
    requires SoundWorld(w, me, p) && Possible(w, e, me)
    ensures SoundWorld(Happens(w, e, me, p), me, p)
  {
    hide ValidState, ValidRecord, Current, KnowsUpTo, Honest, ServedPage, Step, Sent, Met;
    var after := Happens(w, e, me, p);
    ActorStaysSound(w, e, me, p);
    forall id | id in after.devices ensures SoundDevice(after.log, after.devices[id], me, p) {
      if id != e.device {
        assert SoundDevice(w.log, w.devices[id], me, p);
        if e.Pushes? && e.verdict.Accept? {
          var s := w.devices[e.device];
          assert SoundDevice(w.log, s, me, p);
          HeadIsNotNegative(w.log, p);
          WrittenIsValid(s, e.key, me, e.verdict.revision, p);
          var r := Written(Sent(s, e.key, me).value, e.verdict.revision);
          LogGrows(w.log, r, p);
          KnowledgeSurvivesWrites(w.log, r, w.devices[id].cursor, w.devices[id], p);
        }
      }
    }
  }

  // ---- runs ----------------------------------------------------------------

  predicate Initial(w: World, me: Account) {
    && w.log == [] && w.moments.Keys == w.devices.Keys
    && forall id :: id in w.devices ==> w.devices[id] == NewState(me) && w.moments[id] == 0
  }

  /** The worlds a history of events passes through, from an empty log and new devices. */
  ghost predicate History(worlds: seq<World>, events: seq<Event>, me: Account, p: Parsers) {
    && |worlds| == |events| + 1
    && Initial(worlds[0], me)
    && forall i :: 0 <= i < |events| ==>
      Possible(worlds[i], events[i], me) && worlds[i + 1] == Happens(worlds[i], events[i], me, p)
  }

  lemma {:induction false} HistoryIsSound(worlds: seq<World>, events: seq<Event>, i: nat, me: Account, p: Parsers)
    requires History(worlds, events, me, p) && i < |worlds| && ValidAccount(me, p)
    ensures SoundWorld(worlds[i], me, p)
  {
    if i == 0 {
    } else {
      hide SoundWorld, Possible, Happens;
      HistoryIsSound(worlds, events, i - 1, me, p);
      EventKeepsWorld(worlds[i - 1], events[i - 1], me, p);
    }
  }

  // ---- what edits start from -----------------------------------------------

  /** The bases of a device's edits were in the log when it last changed. */
  ghost predicate BasesWithin(log: seq<Record>, moment: nat, s: SyncData) {
    && moment <= |log|
    && forall key :: PendingOf(s, key).Some? && PendingOf(s, key).value.baseRevision.Some? ==>
         PendingOf(s, key).value.baseRevision.value <= Head(log[..moment])
  }

  ghost predicate AllBasesWithin(w: World) {
    && w.moments.Keys == w.devices.Keys
    && forall id :: id in w.devices ==> BasesWithin(w.log, w.moments[id], w.devices[id])
  }

  /** An edit keeps its base, or starts from what was known before. */
  lemma BasesComeFrom(s: SyncData, op: SyncOp, me: Account, key: string, p: Parsers)
    requires PendingOf(Step(s, op, me, p), key).Some?
    ensures var base := PendingOf(Step(s, op, me, p), key).value.baseRevision;
      || base == Revision(RemoteOf(s, key))
      || (PendingOf(s, key).Some? && base == PendingOf(s, key).value.baseRevision)
  {
    hide Pull, Rebuild, ValidKey, ValidEdit, SameEdits;
    match op {
      case PulledPage(page) =>
        PullKeepsEdits(s, me, page, p);
        if Pull(s, me, page, p).Ok? { SameEditAt(s, Pull(s, me, page, p).value.0, key); }
      case RebuiltFrom(net) =>
        RebuildKeepsEdits(s, me, net, p);
        if Rebuild(s, me, net, p).Ok? { SameEditAt(s, Rebuild(s, me, net, p).value, key); }
      case _ =>
    }
  }

  lemma PrefixHead(log: seq<Record>, r: Record, m: nat)
    requires m <= |log|
    ensures (log + [r])[..m] == log[..m]
  {
  }

  lemma BasesStayWithin(w: World, e: Event, me: Account, p: Parsers)
    requires SoundWorld(w, me, p) && Possible(w, e, me) && AllBasesWithin(w)
    ensures AllBasesWithin(Happens(w, e, me, p))
  {
    hide ValidState, ValidRecord, Current, Honest, ServedPage, Step, Sent, Met, OpOf;
    var after := Happens(w, e, me, p);
    EventKeepsWorld(w, e, me, p);
    forall id | id in after.devices ensures BasesWithin(after.log, after.moments[id], after.devices[id]) {
      assert BasesWithin(w.log, w.moments[id], w.devices[id]);
      if after.log != w.log { PrefixHead(w.log, after.log[|w.log|], w.moments[id]); }
      if after.devices[id] != w.devices[id] {
        assert SoundDevice(w.log, w.devices[id], me, p);
        assert after.log[..|after.log|] == after.log;
        forall key | PendingOf(after.devices[id], key).Some?
          && PendingOf(after.devices[id], key).value.baseRevision.Some?
          ensures PendingOf(after.devices[id], key).value.baseRevision.value <= Head(after.log)
        {
          BasesComeFrom(w.devices[id], OpOf(e), me, key, p);
          HeadsGrow(w, e, w.moments[id], me, p);
          if RemoteOf(w.devices[id], key).Some? { NotPastHead(w.log, RemoteOf(w.devices[id], key).value, p); }
        }
      }
    }
  }

  /** The head of an earlier log is not past that of a later one. */
  lemma HeadsGrow(w: World, e: Event, m: nat, me: Account, p: Parsers)
    requires SoundWorld(w, me, p) && Possible(w, e, me) && m <= |w.log|
    ensures Head(w.log[..m]) <= Head(w.log) <= Head(Happens(w, e, me, p).log)
  {
    hide ValidRecord, Step, Current, Met;
    EventKeepsWorld(w, e, me, p);
    var log := Happens(w, e, me, p).log;
    HeadOfAll(w.log, m, p);
    assert log[..|w.log|] == w.log;
    HeadOfAll(log, |w.log|, p);
  }

  lemma {:induction false} HistoryKeepsBases(worlds: seq<World>, events: seq<Event>, i: nat, me: Account, p: Parsers)
    requires History(worlds, events, me, p) && i < |worlds| && ValidAccount(me, p)
    ensures AllBasesWithin(worlds[i])
  {
    hide SoundWorld, Possible, Happens;
    if i == 0 {
    } else {
      HistoryKeepsBases(worlds, events, i - 1, me, p);
      HistoryIsSound(worlds, events, i - 1, me, p);
      BasesStayWithin(worlds[i - 1], events[i - 1], me, p);
    }
  }

  lemma HeadWasAnswered(s: SyncData, me: Account, net: Network, p: Parsers)
    requires Rebuild(s, me, net, p).Ok?
    ensures net.head.Ok?
  {
  }

  /**
   * When a device rebuilds in any history, conflicts afterwards are exactly the old ones and those of edits
   * whose base is not the revision the device then knows.
   */
  lemma DeviceConflictsExactly(worlds: seq<World>, events: seq<Event>, i: nat, key: string, me: Account, p: Parsers)
    requires History(worlds, events, me, p) && i < |events| && ValidAccount(me, p) && events[i].Rebuilds?
    requires var s := worlds[i].devices[events[i].device];
      Rebuild(s, me, events[i].net, p).Ok? && PendingOf(s, key).Some?
    ensures var before := PendingOf(worlds[i].devices[events[i].device], key).value;
      var after := worlds[i + 1].devices[events[i].device];
      PendingOf(after, key) == Some(before.(
        conflict := before.conflict || before.baseRevision != Revision(RemoteOf(after, key))))
  {
    hide ValidState, Current, Rebuild, ServedPage, ServedListing;
    var (w, e) := (worlds[i], events[i]);
    HistoryIsSound(worlds, events, i, me, p);
    HistoryKeepsBases(worlds, events, i, me, p);
    var s := w.devices[e.device];
    assert SoundDevice(w.log, s, me, p) && BasesWithin(w.log, w.moments[e.device], s);
    PrefixIsLog(w.log, e.clock.head, p);
    assert w.log[..e.clock.head][..w.moments[e.device]] == w.log[..w.moments[e.device]];
    HeadOfAll(w.log[..e.clock.head], w.moments[e.device], p);
    HeadWasAnswered(s, me, e.net, p);
    CoveredEditsConflictExactly(s, me, e.net, key, p);
  }

  /** An edit on the server's current, undeleted record comes out of a rebuild as it went in. */
  lemma CurrentEditsStayClean(worlds: seq<World>, events: seq<Event>, i: nat, key: string, me: Account, p: Parsers)
    requires History(worlds, events, me, p) && i < |events| && ValidAccount(me, p) && events[i].Rebuilds?
    requires var (w, e) := (worlds[i], events[i]);
      var s := w.devices[e.device];
      && Rebuild(s, me, e.net, p).Ok? && PendingOf(s, key).Some?
      && Current(w.log, key).Some? && !Current(w.log, key).value.deleted
      && PendingOf(s, key).value.baseRevision == Some(Current(w.log, key).value.revision)
    ensures var device := events[i].device;
      PendingOf(worlds[i + 1].devices[device], key) == PendingOf(worlds[i].devices[device], key)
  {
    hide Rebuild, ValidState, Current, ValidRecord, KnowsUpTo, ServedPage, ServedListing;
    var (w, e) := (worlds[i], events[i]);
    HistoryIsSound(worlds, events, i, me, p);
    RebuildConverges(w.log, e.clock, e.net, w.devices[e.device], me, p);
    DeviceConflictsExactly(worlds, events, i, key, me, p);
    assert Mirrors(w.log, key, RemoteOf(worlds[i + 1].devices[e.device], key));
  }

  function Live(remote: Option<Record>): Option<Selection> {
    if remote.Some? && !remote.value.deleted then remote.value.value else None
  }

  /** Two devices that pulled to the end of the log hold the same selections, the server's. */
  lemma SettledDevicesAgree(worlds: seq<World>, events: seq<Event>, i: nat, a: string, b: string, key: string,
                            me: Account, p: Parsers)
    requires History(worlds, events, me, p) && i < |worlds| && ValidAccount(me, p)
    requires a in worlds[i].devices && worlds[i].devices[a].cursor == Head(worlds[i].log)
    requires b in worlds[i].devices && worlds[i].devices[b].cursor == Head(worlds[i].log)
    ensures var w := worlds[i];
      Live(RemoteOf(w.devices[a], key)) == Live(Current(w.log, key)) == Live(RemoteOf(w.devices[b], key))
  {
    hide ValidState, Current, Possible, Happens;
    var w := worlds[i];
    HistoryIsSound(worlds, events, i, me, p);
    assert SoundDevice(w.log, w.devices[a], me, p) && SoundDevice(w.log, w.devices[b], me, p);
    UpToDateMirrors(w.log, w.devices[a], key, p);
    UpToDateMirrors(w.log, w.devices[b], key, p);
  }

  /** A write the server accepts replaces only a record that its sender had seen, or a deleted one. */
  lemma NothingUnseenIsOverwritten(worlds: seq<World>, events: seq<Event>, i: nat, me: Account, p: Parsers)
    requires History(worlds, events, me, p) && i < |events| && ValidAccount(me, p)
    requires events[i].Pushes? && events[i].verdict.Accept?
    ensures var (w, e) := (worlds[i], events[i]);
      var (current, sender) := (Current(w.log, e.key), w.devices[e.device]);
      && (current.Some? && !current.value.deleted ==> RemoteOf(sender, e.key) == current)
      && Current(worlds[i + 1].log, e.key) ==
           Some(Written(WriteOf(e.key, PendingOf(sender, e.key).value), e.verdict.revision))
  {
    hide ValidRecord, ValidKey, Current;
    var (w, e) := (worlds[i], events[i]);
    HistoryIsSound(worlds, events, i, me, p);
    var s := w.devices[e.device];
    assert SoundDevice(w.log, s, me, p);
    assert ValidEntry(e.key, s.entries[e.key], p);
    HeadIsNotNegative(w.log, p);
    WrittenIsValid(s, e.key, me, e.verdict.revision, p);
    LogGrows(w.log, Written(Sent(s, e.key, me).value, e.verdict.revision), p);
    CurrentIsNewest(w.log, e.key, p);
    var current := Current(w.log, e.key);
    if current.Some? && RemoteOf(s, e.key).Some? && current.value.revision == RemoteOf(s, e.key).value.revision {
      RevisionsAreUnique(w.log, current.value, RemoteOf(s, e.key).value, p);
    }
  }
}
