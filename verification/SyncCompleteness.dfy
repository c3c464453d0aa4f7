/** When pulls and rebuilds succeed: exactly if the server's pages are in order and there are not too many. */
module SyncCompleteness {
  import opened Common
  import opened Ordering
  import opened SyncModel
  import opened SyncRebuild

  predicate AllValid(records: seq<Record>, p: Parsers) {
    forall i :: 0 <= i < |records| ==> ValidRecord(records[i], p)
  }

  lemma AllValidNext(records: seq<Record>, p: Parsers)
    requires records != []
    ensures AllValid(records, p) <==>
      AllValid(records[..|records| - 1], p) && ValidRecord(records[|records| - 1], p)
  {
    hide ValidRecord;
    var front := records[..|records| - 1];
    assert forall i :: 0 <= i < |front| ==> front[i] == records[i];
  }

  // ---- listing pages -------------------------------------------------------

  /** Keys that grow, from one key on. */
  predicate KeysGrow(after: Option<string>, records: seq<Record>) {
    && (forall i, j :: 0 <= i < j < |records| ==> TextBefore(records[i].key, records[j].key))
    && (forall i :: 0 <= i < |records| && after.Some? ==> TextBefore(after.value, records[i].key))
  }

  lemma KeysGrowNext(after: Option<string>, records: seq<Record>)
    requires records != []
    ensures var (front, last) := (records[..|records| - 1], records[|records| - 1]);
      KeysGrow(after, records) <==>
        KeysGrow(after, front) && (LastKey(after, front).Some? ==> TextBefore(LastKey(after, front).value, last.key))
  {
    var front, last := records[..|records| - 1], records[|records| - 1];
    if KeysGrow(after, front) && (LastKey(after, front).Some? ==> TextBefore(LastKey(after, front).value, last.key)) {
      forall i | 0 <= i < |front| ensures TextBefore(records[i].key, last.key) {
        if i < |front| - 1 { TextTransitive(front[i].key, front[|front| - 1].key, last.key); }
      }
      if after.Some? && front != [] { TextTransitive(after.value, front[|front| - 1].key, last.key); }
    }
  }

  /** Listed records are taken exactly if all are valid and their keys grow. */
  lemma {:induction false} ListingIsTakenExactly(s: SyncData, after: Option<string>, records: seq<Record>, p: Parsers)
    ensures ApplyListing(s, after, records, p).Ok? <==> AllValid(records, p) && KeysGrow(after, records)
    decreases |records|
  {
    hide ValidRecord, KeysGrow, AllValid;
    if records == [] {
      NothingIsInOrder(after, p);
    } else {
      ListingIsTakenExactly(s, after, records[..|records| - 1], p);
      KeysGrowNext(after, records);
      AllValidNext(records, p);
    }
  }

  lemma NothingIsInOrder(after: Option<string>, p: Parsers)
    ensures AllValid([], p) && KeysGrow(after, [])
  {
  }

  /**
   * The pages of a listing, each asked for with the last key of the one before: valid records under growing
   * keys, every page but the last one names its last key, the last one names none.
   */
  predicate ListingPages(net: Network, after: Option<string>, i: nat, pages: seq<Listing>, p: Parsers)
    decreases |pages|
  {
    && pages != []
    && net.listing(i, after) == Ok(pages[0])
    && AllValid(pages[0].records, p) && KeysGrow(after, pages[0].records)
    && if |pages| == 1 then pages[0].nextAfter.None?
       else
         && pages[0].records != []
         && pages[0].nextAfter == Some(pages[0].records[|pages[0].records| - 1].key)
         && ListingPages(net, pages[0].nextAfter, i + 1, pages[1..], p)
  }

  /** A listing in order is read to its end if that comes within the page limit. */
  lemma {:induction false} ListingSucceeds(s: SyncData, after: Option<string>, net: Network, i: nat,
                                           pages: seq<Listing>, p: Parsers)
    requires ListingPages(net, after, i, pages, p) && i + |pages| <= 200
    ensures ListFrom(s, after, net, i, p).Ok?
    decreases |pages|
  {
    hide ApplyListing, AllValid, KeysGrow;
    ListingIsTakenExactly(s, after, pages[0].records, p);
    if |pages| > 1 {
      LastGrows(after, pages[0].records);
      ListingSucceeds(ApplyListing(s, after, pages[0].records, p).value, pages[0].nextAfter, net, i + 1, pages[1..], p);
    }
  }

  lemma LastGrows(after: Option<string>, records: seq<Record>)
    requires KeysGrow(after, records) && records != []
    ensures LastKey(after, records) == Some(records[|records| - 1].key)
    ensures after.Some? ==> TextBefore(after.value, records[|records| - 1].key)
  {
  }

  /** A listing that was read came in pages in order, within the page limit. */
  lemma {:induction false} ListingWasInOrder(s: SyncData, after: Option<string>, net: Network, i: nat, p: Parsers)
    returns (pages: seq<Listing>)
    requires ListFrom(s, after, net, i, p).Ok?
    ensures ListingPages(net, after, i, pages, p) && i + |pages| <= 200
    decreases MAX_PAGES - i
  {
    hide ApplyListing, AllValid, KeysGrow;
    var listing := net.listing(i, after).value;
    ListingIsTakenExactly(s, after, listing.records, p);
    var next := ApplyListing(s, after, listing.records, p).value;
    if listing.nextAfter.None? {
      pages := [listing];
    } else {
      NothingNew(after, listing.records);
      var rest := ListingWasInOrder(next, listing.nextAfter, net, i + 1, p);
      pages := [listing] + rest;
      assert pages[1..] == rest;
    }
  }

  lemma NothingNew(after: Option<string>, records: seq<Record>)
    ensures records == [] ==> LastKey(after, records) == after
    ensures records != [] ==> LastKey(after, records) == Some(records[|records| - 1].key)
    ensures after.Some? ==> !TextBefore(after.value, after.value)
  {
    if after.Some? { TextIrreflexive(after.value); }
  }

  // ---- pages of changes ----------------------------------------------------

  /** Revisions that grow, from a cursor on. */
  predicate RevisionsGrow(cursor: i64, changes: seq<Record>) {
    && (forall i, j :: 0 <= i < j < |changes| ==> changes[i].revision < changes[j].revision)
    && (forall i :: 0 <= i < |changes| ==> cursor < changes[i].revision)
  }

  lemma RevisionsGrowNext(cursor: i64, changes: seq<Record>)
    requires changes != []
    ensures var (front, last) := (changes[..|changes| - 1], changes[|changes| - 1]);
      && (RevisionsGrow(cursor, changes) <==>
           RevisionsGrow(cursor, front) && LastRevision(cursor, front) < last.revision)
      && (RevisionsGrow(cursor, changes) ==> LastRevision(cursor, front) <= last.revision)
  {
  }

  /** Changes are taken exactly if all are valid, their revisions grow, and the last is within the limit. */
  lemma {:induction false} ChangesAreTakenExactly(s: SyncData, changes: seq<Record>, limit: i64, p: Parsers)
    ensures ApplyChanges(s, changes, limit, p).Ok? <==>
      && AllValid(changes, p) && RevisionsGrow(s.cursor, changes)
      && (changes != [] ==> LastRevision(s.cursor, changes) <= limit)
    decreases |changes|
  {
    hide ValidRecord, RevisionsGrow, AllValid;
    if changes == [] {
      NoChanges(s.cursor, p);
    } else {
      ChangesAreTakenExactly(s, changes[..|changes| - 1], limit, p);
      RevisionsGrowNext(s.cursor, changes);
      AllValidNext(changes, p);
    }
  }

  lemma NoChanges(cursor: i64, p: Parsers)
    ensures AllValid([], p) && RevisionsGrow(cursor, [])
  {
  }

  /** A page of changes: valid, growing, ending at the page's own cursor; one that promises more brings something. */
  predicate PageInOrder(cursor: i64, page: Page, p: Parsers) {
    && AllValid(page.changes, p) && RevisionsGrow(cursor, page.changes)
    && page.cursor == (if page.changes == [] then cursor else page.changes[|page.changes| - 1].revision)
    && (page.hasMore ==> page.changes != [])
  }

  lemma PagesDoNotGoBack(cursor: i64, page: Page)
    requires RevisionsGrow(cursor, page.changes) && page.cursor == LastRevision(cursor, page.changes)
    ensures page.cursor >= cursor && (page.cursor == cursor <==> page.changes == [])
  {
  }

  /** A pull succeeds exactly for one's own account and a page in order, and then ends at the page's cursor. */
  lemma PullSucceedsExactly(s: SyncData, me: Account, answer: Result<Page, SyncError>, p: Parsers)
    ensures Pull(s, me, answer, p).Ok? <==>
      s.account == me && answer.Ok? && PageInOrder(s.cursor, answer.value, p)
    ensures Pull(s, me, answer, p).Ok? ==>
      var (next, more) := Pull(s, me, answer, p).value;
      next.cursor == answer.value.cursor && more == answer.value.hasMore && next.account == s.account
  {
    hide ApplyChanges, AllValid, RevisionsGrow;
    PullKeepsAccount(s, me, answer, p);
    if answer.Ok? {
      var page := answer.value;
      ChangesAreTakenExactly(s, page.changes, page.cursor, p);
      if RevisionsGrow(s.cursor, page.changes) && page.cursor == LastRevision(s.cursor, page.changes) {
        PagesDoNotGoBack(s.cursor, page);
      }
    }
  }

  /** The pages of changes from a cursor on, each asked for with the cursor of the one before. */
  predicate ChangePages(net: Network, cursor: i64, i: nat, pages: seq<Page>, p: Parsers)
    decreases |pages|
  {
    && pages != []
    && net.changes(i, cursor) == Ok(pages[0])
    && PageInOrder(cursor, pages[0], p)
    && if |pages| == 1 then !pages[0].hasMore
       else pages[0].hasMore && ChangePages(net, pages[0].cursor, i + 1, pages[1..], p)
  }

  lemma {:induction false} PullingSucceeds(s: SyncData, me: Account, net: Network, i: nat, pages: seq<Page>, p: Parsers)
    requires s.account == me && ChangePages(net, s.cursor, i, pages, p) && i + |pages| <= 200
    ensures PullAll(s, me, net, i, p).Ok?
    decreases |pages|
  {
    hide Pull, PageInOrder;
    PullSucceedsExactly(s, me, net.changes(i, s.cursor), p);
    if |pages| > 1 {
      PullingSucceeds(Pull(s, me, net.changes(i, s.cursor), p).value.0, me, net, i + 1, pages[1..], p);
    }
  }

  lemma {:induction false} PullingWasInOrder(s: SyncData, me: Account, net: Network, i: nat, p: Parsers)
    returns (pages: seq<Page>)
    requires PullAll(s, me, net, i, p).Ok?
    ensures ChangePages(net, s.cursor, i, pages, p) && i + |pages| <= 200 && s.account == me
    decreases MAX_PAGES - i
  {
    hide Pull, PageInOrder;
    PullSucceedsExactly(s, me, net.changes(i, s.cursor), p);
    var page := net.changes(i, s.cursor).value;
    var (next, more) := Pull(s, me, net.changes(i, s.cursor), p).value;
    if more {
      var rest := PullingWasInOrder(next, me, net, i + 1, p);
      pages := [page] + rest;
      assert pages[1..] == rest;
    } else {
      pages := [page];
    }
  }

  // ---- the whole rebuild ---------------------------------------------------

  /** The listing comes in at most 200 pages in order. */
  ghost predicate ListingEnds(net: Network, p: Parsers) {
    exists pages :: |pages| <= 200 && ListingPages(net, None, 0, pages, p)
  }

  /** The changes since the head come in at most 200 pages in order. */
  ghost predicate ChangesEnd(net: Network, head: i64, p: Parsers) {
    exists pages :: |pages| <= 200 && ChangePages(net, head, 0, pages, p)
  }

  /**
   * A rebuild succeeds exactly if the state is one's own, the head is answered and not negative, and the listing
   * and the changes since come in order and end, each within 200 pages. What the state held does not matter.
   */
  lemma RebuildSucceedsExactly(s: SyncData, me: Account, net: Network, p: Parsers)
    ensures Rebuild(s, me, net, p).Ok? <==>
      && s.account == me && net.head.Ok? && net.head.value >= 0
      && ListingEnds(net, p) && ChangesEnd(net, net.head.value, p)
  {
    hide ListFrom, PullAll, Merge, ListingPages, ChangePages;
    if s.account == me && net.head.Ok? && net.head.value >= 0 {
      var empty := SyncData(s.account, net.head.value, map[]);
      if ListFrom(empty, None, net, 0, p).Ok? {
        ListFromKeepsHeader(empty, None, net, 0, p);
        MergeHeader(s, Relisted(s, net, p));
        var listed := ListingWasInOrder(empty, None, net, 0, p);
        if Rebuild(s, me, net, p).Ok? {
          var pulled := PullingWasInOrder(Merge(s, Relisted(s, net, p)), me, net, 0, p);
        }
      }
      if pages :| |pages| <= 200 && ListingPages(net, None, 0, pages, p) {
        ListingSucceeds(empty, None, net, 0, pages, p);
        if changes :| |changes| <= 200 && ChangePages(net, net.head.value, 0, changes, p) {
          PullingSucceeds(Merge(s, Relisted(s, net, p)), me, net, 0, changes, p);
        }
      }
    }
  }
}
