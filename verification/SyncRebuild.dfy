/** Rebuilding from a listing read page by page while the server goes on changing. */
module SyncRebuild {
  import opened Common
  import opened Ordering
  import opened SyncModel
  import opened SyncRuns
  import opened SyncServer

  // ---- the listing ---------------------------------------------------------

  predicate Seen(after: Option<string>, key: string) {
    after.Some? && !TextBefore(after.value, key)
  }

  /** Halfway through the listing: what was passed is known, the rest is blank. */
  ghost predicate ListedTo(log: seq<Record>, head: i64, s: SyncData, after: Option<string>) {
    && FromLog(log, s)
    && (forall key :: !Seen(after, key) ==> RemoteOf(s, key).None?)
    && (forall key :: Seen(after, key) && Current(log, key).Some? && Current(log, key).value.revision <= head ==>
         Mirrors(log, key, RemoteOf(s, key)))
  }

  /** Accepted listing records lie past the previous page, and the last one is the greatest. */
  lemma {:induction false} ListedKeysGrow(s: SyncData, after: Option<string>, records: seq<Record>, p: Parsers)
    requires ApplyListing(s, after, records, p).Ok?
    ensures forall r :: r in records ==> (after.Some? ==> TextBefore(after.value, r.key))
    ensures forall r :: r in records ==> Seen(LastKey(after, records), r.key)
    decreases |records|
  {
    hide Apply;
    if records != [] {
      var front, last := records[..|records| - 1], records[|records| - 1];
      assert records == front + [last];
      ListedKeysGrow(s, after, front, p);
      TextIrreflexive(last.key);
      forall r | r in front ensures !TextBefore(last.key, r.key) {
        var previous := LastKey(after, front).value;
        if TextBefore(last.key, r.key) { TextTransitive(previous, last.key, r.key); }
      }
      if after.Some? && front != [] {
        assert front[|front| - 1] in front;
        TextTransitive(after.value, LastKey(after, front).value, last.key);
      }
    }
  }

  /** What was passed stays passed. */
  lemma SeenGrows(s: SyncData, after: Option<string>, records: seq<Record>, key: string, p: Parsers)
    requires ApplyListing(s, after, records, p).Ok? && Seen(after, key)
    ensures Seen(LastKey(after, records), key)
  {
    if records != [] {
      ListedKeysGrow(s, after, records, p);
      var last := records[|records| - 1];
      assert last in records;
      if TextBefore(last.key, key) { TextTransitive(after.value, last.key, key); }
    }
  }

  /** An honest listing page settles the keys it covers, although it may be newer than the head. */
  lemma PageSettles(log: seq<Record>, m0: nat, m: nat, s: SyncData, after: Option<string>, listing: Listing,
                    key: string, p: Parsers)
    requires IsLog(log, p) && m0 <= m <= |log| && ServedListing(log[..m], after, listing)
    requires ApplyListing(s, after, listing.records, p).Ok?
    requires ListedTo(log, Head(log[..m0]), s, after)
    requires Current(log, key).Some? && Current(log, key).value.revision <= Head(log[..m0])
    requires Seen(after, key) || Covers(after, listing.nextAfter, key)
    ensures Mirrors(log, key, RemoteOf(ApplyListing(s, after, listing.records, p).value, key))
  {
    hide Takes, ApplyListing, Current, ValidRecord;
    var next := ApplyListing(s, after, listing.records, p).value;
    ApplyListingTakes(s, after, listing.records, p);
    ListedKeysGrow(s, after, listing.records, p);
    ListedFromLog(log, m, s, after, listing, next, p);
    var c := Current(log, key).value;
    if c in listing.records {
      ArrivedIsHeld(log, s, listing.records, next, key, p);
    } else {
      HeadGrows(log, m0, m, p);
      CurrentEarlier(log, m, key, p);
      assert forall r :: r in listing.records ==> r.key != key;
      TakesOthers(s, listing.records, next, key);
    }
  }

  lemma HeadGrows(log: seq<Record>, m0: nat, m: nat, p: Parsers)
    requires IsLog(log, p) && m0 <= m <= |log|
    ensures Head(log[..m0]) <= Head(log[..m])
  {
    hide ValidKey, ValidSelection;
  }

  lemma ListedFromLog(log: seq<Record>, m: nat, s: SyncData, after: Option<string>, listing: Listing, next: SyncData,
                      p: Parsers)
    requires IsLog(log, p) && m <= |log| && ServedListing(log[..m], after, listing) && FromLog(log, s)
    requires Takes(s, listing.records, next)
    ensures FromLog(log, next)
  {
    hide Takes, ValidRecord;
    PrefixIsLog(log, m, p);
    forall r | r in listing.records ensures r in log {
      CurrentIsNewest(log[..m], r.key, p);
    }
    TakesFromLog(log, s, listing.records, next);
  }

  /** One page of the listing moves the frontier to its last key. */
  lemma PageLearns(log: seq<Record>, m0: nat, m: nat, s: SyncData, after: Option<string>, listing: Listing, p: Parsers)
    requires IsLog(log, p) && m0 <= m <= |log| && ServedListing(log[..m], after, listing)
    requires ApplyListing(s, after, listing.records, p).Ok?
    requires ListedTo(log, Head(log[..m0]), s, after)
    requires listing.nextAfter.Some? && LastKey(after, listing.records) == listing.nextAfter
    ensures ListedTo(log, Head(log[..m0]), ApplyListing(s, after, listing.records, p).value, listing.nextAfter)
  {
    hide Takes, ApplyListing, Current, ValidRecord;
    var next := ApplyListing(s, after, listing.records, p).value;
    ApplyListingTakes(s, after, listing.records, p);
    ListedKeysGrow(s, after, listing.records, p);
    ListedFromLog(log, m, s, after, listing, next, p);
    forall key | !Seen(listing.nextAfter, key) ensures RemoteOf(next, key).None? {
      if Seen(after, key) { SeenGrows(s, after, listing.records, key, p); }
      TakesOthers(s, listing.records, next, key);
    }
    forall key | Seen(listing.nextAfter, key) && Current(log, key).Some?
      && Current(log, key).value.revision <= Head(log[..m0])
      ensures Mirrors(log, key, RemoteOf(next, key))
    {
      PageSettles(log, m0, m, s, after, listing, key, p);
    }
  }

  /** The complete listing tells a client all that happened up to the head. */
  lemma {:induction false} ListingLearns(log: seq<Record>, clock: Clock, net: Network, s: SyncData,
                                         after: Option<string>, i: nat, p: Parsers)
    requires IsLog(log, p) && Honest(log, clock, net) && ListedTo(log, Head(log[..clock.head]), s, after)
    requires ListFrom(s, after, net, i, p).Ok?
    ensures KnowsUpTo(log, Head(log[..clock.head]), ListFrom(s, after, net, i, p).value)
    decreases MAX_PAGES - i
  {
    hide ListedTo, ServedListing, ServedPage, ApplyListing, Current, ValidRecord, Head;
    var listing := net.listing(i, after).value;
    var m := clock.listing(i);
    var next := ApplyListing(s, after, listing.records, p).value;
    if listing.nextAfter.Some? {
      PageLearns(log, clock.head, m, s, after, listing, p);
      ListingLearns(log, clock, net, next, listing.nextAfter, i + 1, p);
    } else {
      LastPageLearns(log, clock.head, m, s, after, listing, p);
    }
  }

  lemma LastPageLearns(log: seq<Record>, m0: nat, m: nat, s: SyncData, after: Option<string>, listing: Listing,
                       p: Parsers)
    requires IsLog(log, p) && m0 <= m <= |log| && ServedListing(log[..m], after, listing)
    requires ApplyListing(s, after, listing.records, p).Ok?
    requires ListedTo(log, Head(log[..m0]), s, after) && listing.nextAfter.None?
    ensures KnowsUpTo(log, Head(log[..m0]), ApplyListing(s, after, listing.records, p).value)
  {
    hide Takes, ApplyListing, Current, ValidRecord;
    var next := ApplyListing(s, after, listing.records, p).value;
    ApplyListingTakes(s, after, listing.records, p);
    ListedFromLog(log, m, s, after, listing, next, p);
    forall key | Current(log, key).Some? && Current(log, key).value.revision <= Head(log[..m0])
      ensures Mirrors(log, key, RemoteOf(next, key))
    {
      PageSettles(log, m0, m, s, after, listing, key, p);
    }
  }

  // ---- the changes since ---------------------------------------------------

  lemma {:induction false} PullingLearns(log: seq<Record>, clock: Clock, net: Network, s: SyncData, me: Account, i: nat,
                                         p: Parsers)
    requires IsLog(log, p) && Honest(log, clock, net) && KnowsUpTo(log, s.cursor, s) && s.cursor <= Head(log)
    requires PullAll(s, me, net, i, p).Ok?
    ensures var r := PullAll(s, me, net, i, p).value; KnowsUpTo(log, r.cursor, r) && r.cursor == Head(log)
    decreases MAX_PAGES - i
  {
    hide KnowsUpTo, ServedListing, ApplyChanges, Current, ValidRecord, Head;
    var page := net.changes(i, s.cursor).value;
    var (next, more) := Pull(s, me, net.changes(i, s.cursor), p).value;
    PullLearns(log, clock.changes(i), s, me, page, p);
    PulledPageIs(s, me, page, p);
    if more {
      PullingLearns(log, clock, net, next, me, i + 1, p);
    } else {
      assert log[..|log|] == log;
    }
  }

  lemma PulledPageIs(s: SyncData, me: Account, page: Page, p: Parsers)
    requires Pull(s, me, Ok(page), p).Ok?
    ensures var (next, more) := Pull(s, me, Ok(page), p).value; next.cursor == page.cursor && more == page.hasMore
  {
  }

  /** A key whose last known revision is not newer than the cursor was not touched by later pulls. */
  lemma {:induction false} OldKeysStay(s: SyncData, me: Account, net: Network, i: nat, key: string, p: Parsers)
    requires PullAll(s, me, net, i, p).Ok?
    requires var r := RemoteOf(PullAll(s, me, net, i, p).value, key); r.Some? ==> r.value.revision <= s.cursor
    ensures EntryOf(PullAll(s, me, net, i, p).value, key) == EntryOf(s, key)
    decreases MAX_PAGES - i
  {
    hide ValidRecord, ApplyChanges, Takes, Grows, EntryOf;
    var page := net.changes(i, s.cursor).value;
    var (next, more) := Pull(s, me, net.changes(i, s.cursor), p).value;
    var candidate := ApplyChanges(s, page.changes, page.cursor, p).value;
    ApplyChangesTakes(s, page.changes, page.cursor, p);
    SameEntries(candidate, next, key);
    var final := PullAll(s, me, net, i, p).value;
    if more {
      OldKeysStay(next, me, net, i + 1, key, p);
    }
    assert RemoteOf(final, key) == RemoteOf(next, key) == RemoteOf(candidate, key);
    forall r | r in page.changes ensures r.key != key {
      TakesEach(s, page.changes, candidate, r);
    }
    TakesOthers(s, page.changes, candidate, key);
  }

  lemma SameEntries(a: SyncData, b: SyncData, key: string)
    requires a.entries == b.entries
    ensures EntryOf(a, key) == EntryOf(b, key)
  {
  }

  // ---- the whole rebuild ---------------------------------------------------

  lemma MergeKeepsRemotes(s: SyncData, listed: SyncData, key: string)
    ensures RemoteOf(Merge(s, listed), key) == RemoteOf(listed, key)
  {
  }

  lemma MergeKnows(log: seq<Record>, cursor: i64, s: SyncData, listed: SyncData)
    requires KnowsUpTo(log, cursor, listed)
    ensures KnowsUpTo(log, cursor, Merge(s, listed))
  {
    hide Merge, Current, Mirrors;
    forall key ensures RemoteOf(Merge(s, listed), key) == RemoteOf(listed, key) { MergeKeepsRemotes(s, listed, key); }
  }

  lemma {:induction false} ListFromKeepsHeader(s: SyncData, after: Option<string>, net: Network, i: nat, p: Parsers)
    requires ListFrom(s, after, net, i, p).Ok?
    ensures var r := ListFrom(s, after, net, i, p).value; r.cursor == s.cursor && r.account == s.account
    decreases MAX_PAGES - i
  {
    hide ApplyListing, Takes;
    var listing := net.listing(i, after).value;
    ApplyListingTakes(s, after, listing.records, p);
    var next := ApplyListing(s, after, listing.records, p).value;
    assert next.cursor == s.cursor && next.account == s.account by { TakesHeader(s, listing.records, next); }
    if listing.nextAfter.Some? { ListFromKeepsHeader(next, listing.nextAfter, net, i + 1, p); }
  }

  lemma TakesHeader(a: SyncData, records: seq<Record>, b: SyncData)
    requires Takes(a, records, b)
    ensures b.account == a.account && b.cursor == a.cursor
  {
  }

  /** The listed state in the middle of a rebuild. */
  function Relisted(s: SyncData, net: Network, p: Parsers): SyncData
    requires net.head.Ok? && ListFrom(SyncData(s.account, net.head.value, map[]), None, net, 0, p).Ok?
  {
    ListFrom(SyncData(s.account, net.head.value, map[]), None, net, 0, p).value
  }

  lemma PullKeepsAccount(s: SyncData, me: Account, page: Result<Page, SyncError>, p: Parsers)
    ensures var r := Pull(s, me, page, p); r.Ok? ==> r.value.0.account == s.account
  {
    hide ApplyChanges, Takes;
    if Pull(s, me, page, p).Ok? {
      var candidate := ApplyChanges(s, page.value.changes, page.value.cursor, p).value;
      ApplyChangesTakes(s, page.value.changes, page.value.cursor, p);
      TakesHeader(s, page.value.changes, candidate);
    }
  }

  lemma {:induction false} PullAllKeepsAccount(s: SyncData, me: Account, net: Network, i: nat, p: Parsers)
    ensures var r := PullAll(s, me, net, i, p); r.Ok? ==> r.value.account == s.account
    decreases MAX_PAGES - i
  {
    hide Pull;
    if i < MAX_PAGES {
      PullKeepsAccount(s, me, net.changes(i, s.cursor), p);
      var r := Pull(s, me, net.changes(i, s.cursor), p);
      if r.Ok? && r.value.1 { PullAllKeepsAccount(r.value.0, me, net, i + 1, p); }
    }
  }

  lemma RebuildKeepsAccount(s: SyncData, me: Account, net: Network, p: Parsers)
    ensures var r := Rebuild(s, me, net, p); r.Ok? ==> r.value.account == s.account
  {
    hide ListFrom, PullAll, Merge;
    if Rebuild(s, me, net, p).Ok? {
      ListFromKeepsHeader(SyncData(s.account, net.head.value, map[]), None, net, 0, p);
      MergeHeader(s, Relisted(s, net, p));
      PullAllKeepsAccount(Merge(s, Relisted(s, net, p)), me, net, 0, p);
    }
  }

  /** No operation moves a state to another account. */
  lemma StepKeepsAccount(s: SyncData, op: SyncOp, me: Account, p: Parsers)
    ensures Step(s, op, me, p).account == s.account
  {
    hide Pull, Rebuild, ValidRecord, ValidKey;
    match op {
      case PulledPage(page) => PullKeepsAccount(s, me, page, p);
      case RebuiltFrom(net) => RebuildKeepsAccount(s, me, net, p);
      case _ =>
    }
  }

  /**
   * Convergence: after a rebuild against an honest server the client mirrors every key of the log
   * as it stood when the last page was read, and its cursor is the head of that log.
   */
  lemma RebuildConverges(log: seq<Record>, clock: Clock, net: Network, s: SyncData, me: Account, p: Parsers)
    requires IsLog(log, p) && Honest(log, clock, net) && Rebuild(s, me, net, p).Ok?
    ensures var r := Rebuild(s, me, net, p).value;
      && KnowsUpTo(log, r.cursor, r) && r.cursor == Head(log)
      && forall key :: Mirrors(log, key, RemoteOf(r, key))
  {
    hide ListFrom, PullAll, Merge, ServedListing, ServedPage, Current, ValidRecord, KnowsUpTo, Mirrors, Head;
    var empty := SyncData(s.account, net.head.value, map[]);
    ListedFromNothing(log, net.head.value, empty);
    ListingLearns(log, clock, net, empty, None, 0, p);
    var listed := Relisted(s, net, p);
    MergeKnows(log, net.head.value, s, listed);
    ListFromKeepsHeader(empty, None, net, 0, p);
    MergeHeader(s, listed);
    HeadOfAll(log, clock.head, p);
    PullingLearns(log, clock, net, Merge(s, listed), me, 0, p);
    var r := Rebuild(s, me, net, p).value;
    forall key ensures Mirrors(log, key, RemoteOf(r, key)) { UpToDateMirrors(log, r, key, p); }
  }

  lemma HeadOfAll(log: seq<Record>, m: nat, p: Parsers)
    requires IsLog(log, p) && m <= |log|
    ensures Head(log[..m]) <= Head(log)
  {
    HeadGrows(log, m, |log|, p);
    assert log[..|log|] == log;
  }

  lemma MergeHeader(s: SyncData, listed: SyncData)
    ensures Merge(s, listed).cursor == listed.cursor && Merge(s, listed).account == listed.account
  {
  }

  lemma ListedFromNothing(log: seq<Record>, head: i64, empty: SyncData)
    requires empty.entries == map[]
    ensures ListedTo(log, head, empty, None)
  {
  }

  // ---- conflicts -----------------------------------------------------------

  /** Between two states a key's record only got newer, and an entry whose record did not is as it was. */
  predicate Moves(a: SyncData, b: SyncData, key: string) {
    && NotOlder(RemoteOf(a, key), RemoteOf(b, key))
    && (Revision(RemoteOf(b, key)) == Revision(RemoteOf(a, key)) ==> EntryOf(b, key) == EntryOf(a, key))
  }

  lemma {:induction false} ChangesMove(s: SyncData, changes: seq<Record>, limit: i64, key: string, p: Parsers)
    requires ApplyChanges(s, changes, limit, p).Ok?
    ensures Moves(s, ApplyChanges(s, changes, limit, p).value, key)
    decreases |changes|
  {
    hide ValidRecord;
    if changes != [] { ChangesMove(s, changes[..|changes| - 1], limit, key, p); }
  }

  lemma {:induction false} PullsMove(s: SyncData, me: Account, net: Network, i: nat, key: string, p: Parsers)
    requires PullAll(s, me, net, i, p).Ok?
    ensures Moves(s, PullAll(s, me, net, i, p).value, key)
    decreases MAX_PAGES - i
  {
    hide ApplyChanges, EntryOf;
    var page := net.changes(i, s.cursor).value;
    var (next, more) := Pull(s, me, net.changes(i, s.cursor), p).value;
    ChangesMove(s, page.changes, page.cursor, key, p);
    SameEntries(ApplyChanges(s, page.changes, page.cursor, p).value, next, key);
    if more { PullsMove(next, me, net, i + 1, key, p); }
  }

  /**
   * Whatever the server answers, conflicts after a rebuild are exactly the old ones and those of edits whose
   * base is not the revision that was listed, or not the one known in the end.
   */
  lemma RebuildConflictsExactly(s: SyncData, me: Account, net: Network, key: string, p: Parsers)
    requires ValidState(s, p) && Rebuild(s, me, net, p).Ok? && PendingOf(s, key).Some?
    ensures var (before, r) := (PendingOf(s, key).value, Rebuild(s, me, net, p).value);
      PendingOf(r, key) == Some(before.(
        conflict := before.conflict
          || before.baseRevision != Revision(RemoteOf(Relisted(s, net, p), key))
          || before.baseRevision != Revision(RemoteOf(r, key))))
  {
    hide ListFrom, PullAll, ValidKey, ValidSelection, SameEdits, ValidAccount;
    var listed := Relisted(s, net, p);
    var merged := Merge(s, listed);
    var r := Rebuild(s, me, net, p).value;
    RebuildValid(s, me, net, p);
    RebuildKeepsEdits(s, me, net, p);
    SameEditAt(s, r, key);
    assert ValidEntry(key, EntryOf(r, key), p);
    PullAllKeepsEdits(merged, me, net, 0, p);
    SameEditAt(merged, r, key);
    PullsMove(merged, me, net, 0, key, p);
    MergeKeepsRemotes(s, listed, key);
  }

  lemma SameEditAt(a: SyncData, b: SyncData, key: string)
    requires SameEdits(a, b)
    ensures SameEdit(PendingOf(a, key), PendingOf(b, key))
  {
  }

  /** A base that is not newer than the head cannot be missed by the listing and found afterwards. */
  lemma ListedBase(s: SyncData, me: Account, net: Network, key: string, base: i64, p: Parsers)
    requires Rebuild(s, me, net, p).Ok? && base <= net.head.value
    requires Revision(RemoteOf(Rebuild(s, me, net, p).value, key)) == Some(base)
    ensures Revision(RemoteOf(Relisted(s, net, p), key)) == Some(base)
  {
    hide ListFrom, PullAll;
    var listed := Relisted(s, net, p);
    ListFromKeepsHeader(SyncData(s.account, net.head.value, map[]), None, net, 0, p);
    OldKeysStay(Merge(s, listed), me, net, 0, key, p);
    MergeKeepsRemotes(s, listed, key);
  }

  /**
   * An edit whose base the head covers, or that has none, conflicts after a rebuild exactly if it did before or
   * its base is not the known revision.
   */
  lemma CoveredEditsConflictExactly(s: SyncData, me: Account, net: Network, key: string, p: Parsers)
    requires ValidState(s, p) && Rebuild(s, me, net, p).Ok? && PendingOf(s, key).Some?
    requires PendingOf(s, key).value.baseRevision.Some? ==> PendingOf(s, key).value.baseRevision.value <= net.head.value
    ensures var (before, r) := (PendingOf(s, key).value, Rebuild(s, me, net, p).value);
      PendingOf(r, key) == Some(before.(
        conflict := before.conflict || before.baseRevision != Revision(RemoteOf(r, key))))
  {
    hide Rebuild, Relisted, ValidState, Merge;
    var before := PendingOf(s, key).value;
    RebuildConflictsExactly(s, me, net, key, p);
    if before.baseRevision == Revision(RemoteOf(Rebuild(s, me, net, p).value, key)) {
      if before.baseRevision.Some? {
        ListedBase(s, me, net, key, before.baseRevision.value, p);
      } else {
        NothingListed(s, me, net, key, p);
      }
    }
  }

  /** A key unknown in the end was not listed. */
  lemma NothingListed(s: SyncData, me: Account, net: Network, key: string, p: Parsers)
    requires Rebuild(s, me, net, p).Ok? && RemoteOf(Rebuild(s, me, net, p).value, key).None?
    ensures RemoteOf(Relisted(s, net, p), key).None?
  {
    hide ListFrom, PullAll;
    PullsMove(Merge(s, Relisted(s, net, p)), me, net, 0, key, p);
    MergeKeepsRemotes(s, Relisted(s, net, p), key);
  }
}
