/** What every run of a sync client keeps, whatever the server answers. */
module SyncRuns {
  import opened Common
  import opened SyncModel

  datatype SyncOp =
    | Staged(key: string, edit: Edit)
    | Rebased(key: string)
    | Discarded(key: string)
    | PulledPage(page: Result<Page, SyncError>)
    | Pushed(key: string, answer: Write -> Result<Record, SyncError>)
    | RebuiltFrom(net: Network)

  function OrElse(r: Result<SyncData, SyncError>, s: SyncData): SyncData {
    if r.Ok? then r.value else s
  }

  /** One operation; a failed one leaves what it leaves. */
  function Step(s: SyncData, op: SyncOp, me: Account, p: Parsers): SyncData {
    match op
    case Staged(key, edit) => OrElse(Stage(s, key, edit, p), s)
    case Rebased(key) => OrElse(Rebase(s, key), s)
    case Discarded(key) => OrElse(Discard(s, key), s)
    case PulledPage(page) => if Pull(s, me, page, p).Ok? then Pull(s, me, page, p).value.0 else s
    case Pushed(key, answer) => Push(s, key, me, answer, p).0
    case RebuiltFrom(net) => OrElse(Rebuild(s, me, net, p), s)
  }

  function Run(s: SyncData, ops: seq<SyncOp>, me: Account, p: Parsers): SyncData
    decreases |ops|
  {
    if ops == [] then s else Step(Run(s, ops[..|ops| - 1], me, p), ops[|ops| - 1], me, p)
  }

  // ---- validity ------------------------------------------------------------

  lemma ApplyValid(s: SyncData, record: Record, p: Parsers)
    requires ValidState(s, p)
    ensures var r := Apply(s, record, p); r.Ok? ==> ValidState(r.value, p)
  {
    hide ValidKey, ValidSelection;
    if Apply(s, record, p).Ok? && record.key in s.entries {
      assert ValidEntry(record.key, s.entries[record.key], p);
    }
  }

  lemma {:induction false} ApplyChangesValid(s: SyncData, changes: seq<Record>, limit: i64, p: Parsers)
    requires ValidState(s, p)
    ensures var r := ApplyChanges(s, changes, limit, p); r.Ok? ==> ValidState(r.value, p)
    decreases |changes|
  {
    hide Apply, ValidState;
    if changes != [] {
      var front, last := changes[..|changes| - 1], changes[|changes| - 1];
      ApplyChangesValid(s, front, limit, p);
      var before := ApplyChanges(s, front, limit, p);
      if before.Ok? { ApplyValid(before.value, last, p); }
    }
  }

  lemma PullValid(s: SyncData, me: Account, page: Result<Page, SyncError>, p: Parsers)
    requires ValidState(s, p)
    ensures var r := Pull(s, me, page, p); r.Ok? ==> ValidState(r.value.0, p) && r.value.0.cursor >= s.cursor
  {
    hide ApplyChanges, ValidEntry;
    if Pull(s, me, page, p).Ok? { ApplyChangesValid(s, page.value.changes, page.value.cursor, p); }
  }

  lemma {:induction false} ApplyListingValid(s: SyncData, after: Option<string>, records: seq<Record>, p: Parsers)
    requires ValidState(s, p)
    ensures var r := ApplyListing(s, after, records, p); r.Ok? ==> ValidState(r.value, p)
    decreases |records|
  {
    hide Apply, ValidState;
    if records != [] {
      var front, last := records[..|records| - 1], records[|records| - 1];
      ApplyListingValid(s, after, front, p);
      var before := ApplyListing(s, after, front, p);
      if before.Ok? { ApplyValid(before.value, last, p); }
    }
  }

  lemma {:induction false} ListFromValid(s: SyncData, after: Option<string>, net: Network, i: nat, p: Parsers)
    requires ValidState(s, p)
    ensures var r := ListFrom(s, after, net, i, p); r.Ok? ==> ValidState(r.value, p)
    decreases MAX_PAGES - i
  {
    hide ValidState, ApplyListing;
    if i < MAX_PAGES && net.listing(i, after).Ok? {
      var listing := net.listing(i, after).value;
      ApplyListingValid(s, after, listing.records, p);
      var next := ApplyListing(s, after, listing.records, p);
      if next.Ok? && listing.nextAfter.Some? { ListFromValid(next.value, listing.nextAfter, net, i + 1, p); }
    }
  }

  lemma MergeValid(s: SyncData, listed: SyncData, p: Parsers)
    requires ValidState(s, p) && ValidState(listed, p)
    ensures ValidState(Merge(s, listed), p)
  {
    hide ValidKey, ValidSelection, ValidRecord;
    var merged := Merge(s, listed);
    forall key | key in merged.entries ensures ValidEntry(key, merged.entries[key], p) {
      if key in s.entries { assert ValidEntry(key, s.entries[key], p); }
      if key in listed.entries { assert ValidEntry(key, listed.entries[key], p); }
    }
  }

  lemma {:induction false} PullAllValid(s: SyncData, me: Account, net: Network, i: nat, p: Parsers)
    requires ValidState(s, p)
    ensures var r := PullAll(s, me, net, i, p); r.Ok? ==> ValidState(r.value, p)
    decreases MAX_PAGES - i
  {
    hide ValidState, Pull;
    if i < MAX_PAGES {
      PullValid(s, me, net.changes(i, s.cursor), p);
      var r := Pull(s, me, net.changes(i, s.cursor), p);
      if r.Ok? && r.value.1 { PullAllValid(r.value.0, me, net, i + 1, p); }
    }
  }

  lemma RebuildValid(s: SyncData, me: Account, net: Network, p: Parsers)
    requires ValidState(s, p)
    ensures var r := Rebuild(s, me, net, p); r.Ok? ==> ValidState(r.value, p)
  {
    hide ListFrom, PullAll, Merge, ValidEntry;
    if Rebuild(s, me, net, p).Ok? {
      var empty := SyncData(s.account, net.head.value, map[]);
      ListFromValid(empty, None, net, 0, p);
      var listed := ListFrom(empty, None, net, 0, p);
      MergeValid(s, listed.value, p);
      PullAllValid(Merge(s, listed.value), me, net, 0, p);
    }
  }

  lemma PushValid(s: SyncData, key: string, me: Account, answer: Write -> Result<Record, SyncError>, p: Parsers)
    requires ValidState(s, p)
    ensures ValidState(Push(s, key, me, answer, p).0, p)
  {
    hide ValidKey, ValidSelection;
    if key in s.entries { assert ValidEntry(key, s.entries[key], p); }
  }

  /** The store's check of a state holds after every operation, whether it succeeds or fails. */
  lemma StepValid(s: SyncData, op: SyncOp, me: Account, p: Parsers)
    requires ValidState(s, p)
    ensures ValidState(Step(s, op, me, p), p)
  {
    hide ValidKey, ValidSelection, Pull, Push, Rebuild, ValidAccount;
    match op {
      case PulledPage(page) => PullValid(s, me, page, p);
      case Pushed(key, answer) => PushValid(s, key, me, answer, p);
      case RebuiltFrom(net) => RebuildValid(s, me, net, p);
      case _ => if op.key in s.entries { assert ValidEntry(op.key, s.entries[op.key], p); }
    }
  }

  lemma {:induction false} RunValid(s: SyncData, ops: seq<SyncOp>, me: Account, p: Parsers)
    requires ValidState(s, p)
    ensures ValidState(Run(s, ops, me, p), p)
    decreases |ops|
  {
    hide ValidState, Step;
    if ops != [] {
      RunValid(s, ops[..|ops| - 1], me, p);
      StepValid(Run(s, ops[..|ops| - 1], me, p), ops[|ops| - 1], me, p);
    }
  }

  /** Every state a client can reach from a new one passes the store's check. */
  lemma ReachableStatesAreValid(me: Account, ops: seq<SyncOp>, p: Parsers)
    requires ValidAccount(me, p)
    ensures ValidState(Run(NewState(me), ops, me, p), p)
  {
    RunValid(NewState(me), ops, me, p);
  }

  // ---- effects -------------------------------------------------------------

  /** Staging succeeds exactly for valid edits; it records the edit and keeps an earlier base and conflict. */
  lemma StageTakesEffect(s: SyncData, key: string, edit: Edit, p: Parsers)
    ensures Stage(s, key, edit, p).Ok? <==> ValidKey(key) && ValidEdit(edit, key, p)
    ensures Stage(s, key, edit, p).Ok? ==>
      var (before, after) := (PendingOf(s, key), PendingOf(Stage(s, key, edit, p).value, key));
      && after.Some? && after.value.edit == edit
      && after.value.baseRevision == (if before.Some? then before.value.baseRevision else Revision(RemoteOf(s, key)))
      && after.value.conflict == (before.Some? && before.value.conflict)
      && OnlyPendingChanged(s, Stage(s, key, edit, p).value, key)
  {
    hide ValidKey, ValidSelection;
  }

  /** Nothing changed but the edit of one key. */
  ghost predicate OnlyPendingChanged(a: SyncData, b: SyncData, key: string) {
    && a.account == b.account && a.cursor == b.cursor
    && (forall k :: RemoteOf(b, k) == RemoteOf(a, k))
    && (forall k :: k != key ==> PendingOf(b, k) == PendingOf(a, k))
  }

  /** Keeping the local edit starts it over from what the server is known to hold; dropping it leaves no edit. */
  lemma ResolvingTakesEffect(s: SyncData, key: string)
    ensures Rebase(s, key).Ok? <==> PendingOf(s, key).Some?
    ensures Rebase(s, key).Ok? ==>
      var after := PendingOf(Rebase(s, key).value, key);
      && after == Some(Pending(Revision(RemoteOf(s, key)), PendingOf(s, key).value.edit, false))
      && OnlyPendingChanged(s, Rebase(s, key).value, key)
    ensures Discard(s, key).Ok? <==> PendingOf(s, key).Some?
    ensures Discard(s, key).Ok? ==>
      PendingOf(Discard(s, key).value, key).None? && OnlyPendingChanged(s, Discard(s, key).value, key)
  {
  }

  /**
   * A push succeeds exactly when a write was sent and its reply confirms it; it then knows the
   * record and has no edit left. Every other push leaves everything but at most the conflict mark.
   */
  lemma PushTakesEffect(s: SyncData, key: string, me: Account, answer: Write -> Result<Record, SyncError>, p: Parsers)
    ensures var (after, r) := Push(s, key, me, answer, p);
      var sent := Sent(s, key, me);
      && (r.Ok? <==>
           && sent.Some?
           && answer(sent.value).Ok?
           && Acknowledges(answer(sent.value).value, key, PendingOf(s, key).value, p))
      && (r.Ok? ==> RemoteOf(after, key) == Some(answer(sent.value).value) && PendingOf(after, key).None?)
      && (r.Ok? ==> forall k :: k != key ==> EntryOf(after, k) == EntryOf(s, k))
      && (r.Err? ==> OnlyPendingChanged(s, after, key) && (r.error != Conflict ==> after == s))
      && (r.Err? && PendingOf(s, key).Some? ==>
           PendingOf(after, key) == PendingOf(s, key)
           || PendingOf(after, key) == Some(PendingOf(s, key).value.(conflict := true)))
  {
    hide ValidKey, ValidRecord, Echoes;
  }

  /**
   * A write is sent exactly for an edit of one's own account that is not in conflict, deletions of records never
   * seen apart; it carries the edit on the revision the edit started from. When nothing is sent, the answer of the
   * server makes no difference.
   */
  lemma WritesAreSentExactly(s: SyncData, key: string, me: Account, answer: Write -> Result<Record, SyncError>,
                             other: Write -> Result<Record, SyncError>, p: Parsers)
    ensures Sent(s, key, me).Some? <==>
      && s.account == me && ValidKey(key)
      && PendingOf(s, key).Some? && !PendingOf(s, key).value.conflict
      && (PendingOf(s, key).value.baseRevision.Some? || PendingOf(s, key).value.edit.Put?)
    ensures Sent(s, key, me).Some? ==>
      var (write, pending) := (Sent(s, key, me).value, PendingOf(s, key).value);
      && write.key == key && write.edit == pending.edit
      && (match write.condition
          case IfMatch(revision) => pending.baseRevision == Some(revision)
          case IfNoneMatch => pending.baseRevision.None?)
    ensures Sent(s, key, me).None? ==> Push(s, key, me, answer, p) == Push(s, key, me, other, p)
    ensures Sent(s, key, me).Some? && answer(Sent(s, key, me).value) == other(Sent(s, key, me).value) ==>
      Push(s, key, me, answer, p) == Push(s, key, me, other, p)
  {
    hide ValidKey, ValidRecord, Echoes;
  }

  // ---- edits ---------------------------------------------------------------

  lemma ApplyKeepsEdits(s: SyncData, record: Record, p: Parsers)
    ensures var r := Apply(s, record, p); r.Ok? ==> SameEdits(s, r.value)
  {
  }

  /** A key has an edit in both states or in none, and it is the same one from the same base. */
  predicate SameEdit(a: Option<Pending>, b: Option<Pending>) {
    match (a, b)
    case (None, None) => true
    case (Some(x), Some(y)) => x.edit == y.edit && x.baseRevision == y.baseRevision && (x.conflict ==> y.conflict)
    case _ => false
  }

  ghost predicate SameEdits(a: SyncData, b: SyncData) {
    forall key :: SameEdit(PendingOf(a, key), PendingOf(b, key))
  }

  lemma SameEditsTransitive(a: SyncData, b: SyncData, c: SyncData)
    requires SameEdits(a, b) && SameEdits(b, c)
    ensures SameEdits(a, c)
  {
    forall key ensures SameEdit(PendingOf(a, key), PendingOf(c, key)) {
      assert SameEdit(PendingOf(a, key), PendingOf(b, key));
      assert SameEdit(PendingOf(b, key), PendingOf(c, key));
    }
  }

  lemma SameEditsReflexive(s: SyncData)
    ensures SameEdits(s, s)
  {
  }

  lemma {:induction false} ApplyChangesKeepsEdits(s: SyncData, changes: seq<Record>, limit: i64, p: Parsers)
    ensures var r := ApplyChanges(s, changes, limit, p); r.Ok? ==> SameEdits(s, r.value)
    decreases |changes|
  {
    hide Apply, SameEdits;
    if changes == [] {
      SameEditsReflexive(s);
    } else {
      var front, last := changes[..|changes| - 1], changes[|changes| - 1];
      ApplyChangesKeepsEdits(s, front, limit, p);
      var before, after := ApplyChanges(s, front, limit, p), ApplyChanges(s, changes, limit, p);
      if after.Ok? {
        ApplyKeepsEdits(before.value, last, p);
        SameEditsTransitive(s, before.value, after.value);
      }
    }
  }

  lemma PullKeepsEdits(s: SyncData, me: Account, page: Result<Page, SyncError>, p: Parsers)
    ensures var r := Pull(s, me, page, p); r.Ok? ==> SameEdits(s, r.value.0)
  {
    hide ApplyChanges;
    if Pull(s, me, page, p).Ok? {
      var candidate := ApplyChanges(s, page.value.changes, page.value.cursor, p).value;
      ApplyChangesKeepsEdits(s, page.value.changes, page.value.cursor, p);
      forall key ensures PendingOf(candidate.(cursor := page.value.cursor), key) == PendingOf(candidate, key) {}
    }
  }

  lemma {:induction false} PullAllKeepsEdits(s: SyncData, me: Account, net: Network, i: nat, p: Parsers)
    ensures var r := PullAll(s, me, net, i, p); r.Ok? ==> SameEdits(s, r.value)
    decreases MAX_PAGES - i
  {
    hide Pull, SameEdits;
    if PullAll(s, me, net, i, p).Ok? {
      PullKeepsEdits(s, me, net.changes(i, s.cursor), p);
      var (next, more) := Pull(s, me, net.changes(i, s.cursor), p).value;
      if more {
        PullAllKeepsEdits(next, me, net, i + 1, p);
        SameEditsTransitive(s, next, PullAll(next, me, net, i + 1, p).value);
      }
    }
  }

  ghost predicate NoEdits(s: SyncData) {
    forall key :: PendingOf(s, key).None?
  }

  lemma {:induction false} ApplyListingHasNoEdits(s: SyncData, after: Option<string>, records: seq<Record>, p: Parsers)
    requires NoEdits(s)
    ensures var r := ApplyListing(s, after, records, p); r.Ok? ==> NoEdits(r.value) && r.value.cursor == s.cursor
    decreases |records|
  {
    hide ValidRecord;
    if records != [] {
      var front, last := records[..|records| - 1], records[|records| - 1];
      ApplyListingHasNoEdits(s, after, front, p);
      var before, all := ApplyListing(s, after, front, p), ApplyListing(s, after, records, p);
      if all.Ok? {
        forall key ensures PendingOf(all.value, key).None? {
          assert PendingOf(before.value, key).None?;
          assert PendingOf(before.value, last.key).None?;
        }
      }
    }
  }

  lemma {:induction false} ListFromHasNoEdits(s: SyncData, after: Option<string>, net: Network, i: nat, p: Parsers)
    requires NoEdits(s)
    ensures var r := ListFrom(s, after, net, i, p); r.Ok? ==> NoEdits(r.value) && r.value.cursor == s.cursor
    decreases MAX_PAGES - i
  {
    hide NoEdits, ApplyListing;
    if i < MAX_PAGES && net.listing(i, after).Ok? {
      var listing := net.listing(i, after).value;
      ApplyListingHasNoEdits(s, after, listing.records, p);
      var next := ApplyListing(s, after, listing.records, p);
      if next.Ok? && listing.nextAfter.Some? { ListFromHasNoEdits(next.value, listing.nextAfter, net, i + 1, p); }
    }
  }

  lemma MergeKeepsEdits(s: SyncData, listed: SyncData)
    requires NoEdits(listed)
    ensures SameEdits(s, Merge(s, listed))
  {
    forall key ensures SameEdit(PendingOf(s, key), PendingOf(Merge(s, listed), key)) {
      assert PendingOf(listed, key).None?;
    }
  }

  /** A rebuild keeps every unsent edit with its base. */
  lemma RebuildKeepsEdits(s: SyncData, me: Account, net: Network, p: Parsers)
    ensures var r := Rebuild(s, me, net, p); r.Ok? ==> SameEdits(s, r.value)
  {
    hide ListFrom, PullAll, Merge, SameEdits;
    if Rebuild(s, me, net, p).Ok? {
      var empty := SyncData(s.account, net.head.value, map[]);
      ListFromHasNoEdits(empty, None, net, 0, p);
      var listed := ListFrom(empty, None, net, 0, p).value;
      MergeKeepsEdits(s, listed);
      PullAllKeepsEdits(Merge(s, listed), me, net, 0, p);
      SameEditsTransitive(s, Merge(s, listed), Rebuild(s, me, net, p).value);
    }
  }

  /** The user drops the edit, or the server confirms exactly that edit. */
  predicate Releases(s: SyncData, op: SyncOp, key: string, me: Account, p: Parsers) {
    match op
    case Discarded(k) => k == key
    case Pushed(k, answer) =>
      k == key && Sent(s, key, me).Some? &&
      (match answer(Sent(s, key, me).value)
       case Ok(record) => Echoes(record, Sent(s, key, me).value.edit) && record.key == key
       case Err(_) => false)
    case _ => false
  }

  /**
   * What a step may do to an edit: it stays with its content and its base unless the user
   * restages, rebases or drops it, or the server confirmed it; only a rebase clears a conflict.
   */
  lemma StepKeepsEdit(s: SyncData, op: SyncOp, key: string, me: Account, p: Parsers)
    requires PendingOf(s, key).Some? && !Releases(s, op, key, me, p)
    ensures var (before, after) := (PendingOf(s, key).value, PendingOf(Step(s, op, me, p), key));
      && after.Some?
      && (after.value.edit == before.edit || (op.Staged? && op.key == key && after.value.edit == op.edit))
      && (after.value.baseRevision == before.baseRevision || (op.Rebased? && op.key == key))
      && (before.conflict ==> after.value.conflict || (op.Rebased? && op.key == key))
  {
    hide ValidKey, ValidSelection, ValidRecord, Pull, Rebuild;
    match op {
      case PulledPage(page) =>
        PullKeepsEdits(s, me, page, p);
        assert SameEdit(PendingOf(s, key), PendingOf(Step(s, op, me, p), key)) || Step(s, op, me, p) == s;
      case RebuiltFrom(net) =>
        RebuildKeepsEdits(s, me, net, p);
        assert SameEdit(PendingOf(s, key), PendingOf(Step(s, op, me, p), key)) || Step(s, op, me, p) == s;
      case _ =>
    }
  }

  /** Somewhere in the run the edit of a key was dropped by the user or confirmed by the server. */
  ghost predicate Released(s: SyncData, ops: seq<SyncOp>, key: string, me: Account, p: Parsers) {
    exists i :: 0 <= i < |ops| && Releases(Run(s, ops[..i], me, p), ops[i], key, me, p)
  }

  /** Over any run, an edit that is gone was dropped by the user or confirmed by the server. */
  lemma {:induction false} EditsAreNeverLost(s: SyncData, ops: seq<SyncOp>, key: string, me: Account, p: Parsers)
    requires PendingOf(s, key).Some? && PendingOf(Run(s, ops, me, p), key).None?
    ensures Released(s, ops, key, me, p)
    decreases |ops|
  {
    hide PendingOf, Step, Releases;
    var front := ops[..|ops| - 1];
    if PendingOf(Run(s, front, me, p), key).Some? {
      if !Releases(Run(s, front, me, p), ops[|ops| - 1], key, me, p) {
        StepKeepsEdit(Run(s, front, me, p), ops[|ops| - 1], key, me, p);
      }
    } else {
      EditsAreNeverLost(s, front, key, me, p);
      var i :| 0 <= i < |front| && Releases(Run(s, front[..i], me, p), front[i], key, me, p);
      assert ops[..i] == front[..i];
    }
  }

  // ---- growth --------------------------------------------------------------

  /** Nothing known about a key is older than before. */
  predicate NotOlder(before: Option<Record>, after: Option<Record>) {
    before.Some? ==> after.Some? && after.value.revision >= before.value.revision
  }

  ghost predicate Grows(a: SyncData, b: SyncData) {
    a.cursor <= b.cursor && forall key :: NotOlder(RemoteOf(a, key), RemoteOf(b, key))
  }

  lemma GrowsTransitive(a: SyncData, b: SyncData, c: SyncData)
    requires Grows(a, b) && Grows(b, c)
    ensures Grows(a, c)
  {
    forall key ensures NotOlder(RemoteOf(a, key), RemoteOf(c, key)) {
      assert NotOlder(RemoteOf(a, key), RemoteOf(b, key));
      assert NotOlder(RemoteOf(b, key), RemoteOf(c, key));
    }
  }

  lemma {:induction false} ApplyChangesGrows(s: SyncData, changes: seq<Record>, limit: i64, p: Parsers)
    ensures var r := ApplyChanges(s, changes, limit, p); r.Ok? ==> Grows(s, r.value) && r.value.cursor == s.cursor
    decreases |changes|
  {
    if changes != [] {
      hide ValidRecord, Grows;
      var front, last := changes[..|changes| - 1], changes[|changes| - 1];
      ApplyChangesGrows(s, front, limit, p);
      var before, after := ApplyChanges(s, front, limit, p), ApplyChanges(s, changes, limit, p);
      if after.Ok? {
        ApplyGrows(before.value, last, p);
        GrowsTransitive(s, before.value, after.value);
      }
    }
  }

  lemma ApplyGrows(s: SyncData, record: Record, p: Parsers)
    ensures var r := Apply(s, record, p); r.Ok? ==>
      && Grows(s, r.value) && r.value.cursor == s.cursor
      && RemoteOf(r.value, record.key).Some? && RemoteOf(r.value, record.key).value.revision >= record.revision
  {
    hide ValidRecord;
  }

  /** Outside a rebuild neither the cursor nor any known revision goes back. */
  lemma StepGrows(s: SyncData, op: SyncOp, me: Account, p: Parsers)
    requires ValidState(s, p) && !op.RebuiltFrom?
    ensures Grows(s, Step(s, op, me, p))
  {
    hide ValidKey, ValidSelection, ApplyChanges, ValidRecord, ValidAccount;
    match op {
      case PulledPage(page) =>
        if Pull(s, me, page, p).Ok? { ApplyChangesGrows(s, page.value.changes, page.value.cursor, p); }
      case Pushed(key, answer) =>
        if key in s.entries { assert ValidEntry(key, s.entries[key], p); }
      case _ =>
    }
  }

  lemma {:induction false} RunGrows(s: SyncData, ops: seq<SyncOp>, me: Account, p: Parsers)
    requires ValidState(s, p) && forall op :: op in ops ==> !op.RebuiltFrom?
    ensures Grows(s, Run(s, ops, me, p))
    decreases |ops|
  {
    hide ValidState, Step, Grows;
    if ops == [] {
      GrowsReflexive(s);
    } else {
      var front := ops[..|ops| - 1];
      RunGrows(s, front, me, p);
      RunValid(s, front, me, p);
      StepGrows(Run(s, front, me, p), ops[|ops| - 1], me, p);
      GrowsTransitive(s, Run(s, front, me, p), Run(s, ops, me, p));
    }
  }

  lemma GrowsReflexive(s: SyncData)
    ensures Grows(s, s)
  {
  }

  /**
   * A record that a push got confirmed never raises a conflict afterwards: after any run without
   * a rebuild, with whatever edits staged on it meanwhile, pulling it back changes nothing.
   */
  lemma OwnWriteComesBackUnnoticed(s: SyncData, key: string, answer: Write -> Result<Record, SyncError>,
                                   ops: seq<SyncOp>, me: Account, p: Parsers)
    requires ValidState(s, p) && Push(s, key, me, answer, p).1.Ok?
    requires forall op :: op in ops ==> !op.RebuiltFrom?
    ensures Sent(s, key, me).Some? && answer(Sent(s, key, me).value).Ok?
    ensures var pushed := Push(s, key, me, answer, p).0;
      var later := Run(pushed, ops, me, p);
      Apply(later, answer(Sent(s, key, me).value).value, p) == Ok(later)
  {
    hide ValidState, Step, ValidKey, ValidRecord;
    var pushed := Push(s, key, me, answer, p).0;
    PushValid(s, key, me, answer, p);
    RunGrows(pushed, ops, me, p);
    assert NotOlder(RemoteOf(pushed, key), RemoteOf(Run(pushed, ops, me, p), key));
  }
}
