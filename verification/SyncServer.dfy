/** The server as an append-only log, and what its honest answers bring a client. */
module SyncServer {
  import opened Common
  import opened Ordering
  import opened SyncModel
  import opened SyncRuns

  /** Every accepted write, oldest first. */
  ghost predicate IsLog(log: seq<Record>, p: Parsers) {
    && (forall i :: 0 <= i < |log| ==> ValidRecord(log[i], p))
    && (forall i, j :: 0 <= i < j < |log| ==> log[i].revision < log[j].revision)
  }

  function Head(log: seq<Record>): i64 {
    LastRevision(0, log)
  }

  /** The last write of a key. */
  function Current(log: seq<Record>, key: string): Option<Record>
    decreases |log|
  {
    if log == [] then None
    else if log[|log| - 1].key == key then Some(log[|log| - 1])
    else Current(log[..|log| - 1], key)
  }

  lemma {:induction false} CurrentIsNewest(log: seq<Record>, key: string, p: Parsers)
    requires IsLog(log, p)
    ensures match Current(log, key)
      case None => forall r :: r in log ==> r.key != key
      case Some(c) => c in log && c.key == key && forall r :: r in log && r.key == key ==> r.revision <= c.revision
    decreases |log|
  {
    if log != [] {
      var front, last := log[..|log| - 1], log[|log| - 1];
      CurrentIsNewest(front, key, p);
      assert log == front + [last];
    }
  }

  lemma RevisionsAreUnique(log: seq<Record>, a: Record, b: Record, p: Parsers)
    requires IsLog(log, p) && a in log && b in log && a.revision == b.revision
    ensures a == b
  {
  }

  lemma PrefixIsLog(log: seq<Record>, m: nat, p: Parsers)
    requires IsLog(log, p) && m <= |log|
    ensures IsLog(log[..m], p)
  {
  }

  /** What an earlier log already held is current in it when it is current later on. */
  lemma CurrentEarlier(log: seq<Record>, m: nat, key: string, p: Parsers)
    requires IsLog(log, p) && m <= |log|
    requires Current(log, key).Some? && Current(log, key).value.revision <= Head(log[..m])
    ensures Current(log[..m], key) == Current(log, key)
  {
    CurrentIsNewest(log, key, p);
    PrefixIsLog(log, m, p);
    CurrentIsNewest(log[..m], key, p);
    var c := Current(log, key).value;
    assert c in log[..m] by {
      var i :| 0 <= i < |log| && log[i] == c;
      assert i < m;
      assert log[..m][i] == c;
    }
    RevisionsAreUnique(log, c, Current(log[..m], key).value, p);
  }

  // ---- honest answers ------------------------------------------------------

  /**
   * A page of changes: writes after the cursor, in which a superseded write may be left out but
   * never one that is still current; the last page reaches the end of the log.
   */
  ghost predicate ServedPage(log: seq<Record>, cursor: i64, page: Page) {
    && (forall r :: r in page.changes ==> r in log)
    && (forall i :: 0 <= i < |log| && cursor < log[i].revision <= page.cursor ==>
         (Current(log, log[i].key) == Some(log[i]) ==> log[i] in page.changes))
    && (!page.hasMore ==> page.cursor >= Head(log))
  }

  predicate Covers(after: Option<string>, nextAfter: Option<string>, key: string) {
    && (after.Some? ==> TextBefore(after.value, key))
    && (nextAfter.Some? ==> !TextBefore(nextAfter.value, key))
  }

  /** A page of the listing: current records; those of its range that are not deleted are all there. */
  ghost predicate ServedListing(log: seq<Record>, after: Option<string>, listing: Listing) {
    && (forall r :: r in listing.records ==> Current(log, r.key) == Some(r))
    && (forall key :: Covers(after, listing.nextAfter, key) && Current(log, key).Some? ==>
         Current(log, key).value.deleted || Current(log, key).value in listing.records)
  }

  /** How long the log was when each call was answered. */
  datatype Clock = Clock(head: nat, listing: nat -> nat, changes: nat -> nat)

  /**
   * Every successful answer is an honest view of the log at its own moment. Listing pages are
   * read at or after the head; `log` is the log when the last page of changes is read.
   */
  ghost predicate Honest(log: seq<Record>, clock: Clock, net: Network) {
    && clock.head <= |log|
    && (net.head.Ok? ==> net.head.value == Head(log[..clock.head]))
    && (forall i, after :: net.listing(i, after).Ok? ==>
         && clock.head <= clock.listing(i) <= |log|
         && ServedListing(log[..clock.listing(i)], after, net.listing(i, after).value))
    && (forall i, cursor :: net.changes(i, cursor).Ok? ==>
         && clock.changes(i) <= |log|
         && ServedPage(log[..clock.changes(i)], cursor, net.changes(i, cursor).value)
         && (!net.changes(i, cursor).value.hasMore ==> clock.changes(i) == |log|))
  }

  // ---- what a client knows -------------------------------------------------

  /** A client's remote record is the server's current one, or a deletion it was never shown. */
  predicate Mirrors(log: seq<Record>, key: string, remote: Option<Record>) {
    match Current(log, key)
    case None => remote.None?
    case Some(c) => remote == Some(c) || (c.deleted && remote.None?)
  }

  ghost predicate FromLog(log: seq<Record>, s: SyncData) {
    forall key :: RemoteOf(s, key).Some? ==> RemoteOf(s, key).value in log && RemoteOf(s, key).value.key == key
  }

  /** A client knows what became of every key whose last write its cursor passed. */
  ghost predicate KnowsUpTo(log: seq<Record>, cursor: i64, s: SyncData) {
    && FromLog(log, s)
    && forall key :: Current(log, key).Some? && Current(log, key).value.revision <= cursor ==>
         Mirrors(log, key, RemoteOf(s, key))
  }

  lemma UpToDateMirrors(log: seq<Record>, s: SyncData, key: string, p: Parsers)
    requires IsLog(log, p) && KnowsUpTo(log, s.cursor, s) && s.cursor >= Head(log)
    ensures Mirrors(log, key, RemoteOf(s, key))
  {
    CurrentIsNewest(log, key, p);
  }

  // ---- applying records ----------------------------------------------------

  /** The effect of applying records: per key the newest of what was there and what came. */
  ghost predicate Takes(a: SyncData, records: seq<Record>, b: SyncData) {
    && (forall key :: NotOlder(RemoteOf(a, key), RemoteOf(b, key)))
    && (forall key :: RemoteOf(b, key) == RemoteOf(a, key)
                      || (RemoteOf(b, key).Some? && RemoteOf(b, key).value in records
                        && RemoteOf(b, key).value.key == key))
    && (forall r :: r in records ==> NotOlder(Some(r), RemoteOf(b, r.key)))
    && (forall key :: (forall r :: r in records ==> r.key != key) ==> EntryOf(b, key) == EntryOf(a, key))
    && b.account == a.account && b.cursor == a.cursor
  }

  lemma TakesNone(s: SyncData)
    ensures Takes(s, [], s)
  {
  }

  lemma TakesNext(a: SyncData, front: seq<Record>, b: SyncData, last: Record, p: Parsers)
    requires Takes(a, front, b) && Apply(b, last, p).Ok?
    ensures Takes(a, front + [last], Apply(b, last, p).value)
  {
    hide ValidRecord;
    var c := Apply(b, last, p).value;
    var all := front + [last];
    forall key ensures NotOlder(RemoteOf(a, key), RemoteOf(c, key)) {
      assert NotOlder(RemoteOf(a, key), RemoteOf(b, key));
    }
    forall r | r in all ensures NotOlder(Some(r), RemoteOf(c, r.key)) {
      if r in front { assert NotOlder(Some(r), RemoteOf(b, r.key)); }
    }
    forall key | forall r :: r in all ==> r.key != key ensures EntryOf(c, key) == EntryOf(a, key) {
      assert last in all;
      assert forall r :: r in front ==> r in all;
    }
  }

  lemma {:induction false} ApplyChangesTakes(s: SyncData, changes: seq<Record>, limit: i64, p: Parsers)
    requires ApplyChanges(s, changes, limit, p).Ok?
    ensures Takes(s, changes, ApplyChanges(s, changes, limit, p).value)
    ensures forall r :: r in changes ==> s.cursor < r.revision <= limit
    ensures s.cursor <= LastRevision(s.cursor, changes)
    ensures forall r :: r in changes ==> r.revision <= LastRevision(s.cursor, changes)
    decreases |changes|
  {
    hide Apply, Takes;
    if changes == [] {
      TakesNone(s);
    } else {
      var front, last := changes[..|changes| - 1], changes[|changes| - 1];
      assert changes == front + [last];
      ApplyChangesTakes(s, front, limit, p);
      TakesNext(s, front, ApplyChanges(s, front, limit, p).value, last, p);
    }
  }

  lemma {:induction false} ApplyListingTakes(s: SyncData, after: Option<string>, records: seq<Record>, p: Parsers)
    requires ApplyListing(s, after, records, p).Ok?
    ensures Takes(s, records, ApplyListing(s, after, records, p).value)
    decreases |records|
  {
    hide Apply, Takes;
    if records == [] {
      TakesNone(s);
    } else {
      var front, last := records[..|records| - 1], records[|records| - 1];
      assert records == front + [last];
      ApplyListingTakes(s, after, front, p);
      TakesNext(s, front, ApplyListing(s, after, front, p).value, last, p);
    }
  }

  lemma TakesFromLog(log: seq<Record>, a: SyncData, records: seq<Record>, b: SyncData)
    requires Takes(a, records, b) && FromLog(log, a) && forall r :: r in records ==> r in log
    ensures FromLog(log, b)
  {
  }

  /** Once the current record of a key arrived, it is what the client holds. */
  lemma ArrivedIsHeld(log: seq<Record>, a: SyncData, records: seq<Record>, b: SyncData, key: string, p: Parsers)
    requires IsLog(log, p) && Takes(a, records, b) && FromLog(log, b)
    requires Current(log, key).Some? && Current(log, key).value in records
    ensures RemoteOf(b, key) == Current(log, key)
  {
    hide Takes, ValidRecord;
    CurrentIsNewest(log, key, p);
    var c := Current(log, key).value;
    assert NotOlder(Some(c), RemoteOf(b, key)) by { assert Takes(a, records, b); TakesEach(a, records, b, c); }
    RevisionsAreUnique(log, c, RemoteOf(b, key).value, p);
  }

  lemma TakesEach(a: SyncData, records: seq<Record>, b: SyncData, r: Record)
    requires Takes(a, records, b) && r in records
    ensures NotOlder(Some(r), RemoteOf(b, r.key))
  {
  }

  // ---- pulling -------------------------------------------------------------

  /** A page served from any earlier moment of the log extends what a client knows to its cursor. */
  lemma PullLearns(log: seq<Record>, m: nat, s: SyncData, me: Account, page: Page, p: Parsers)
    requires IsLog(log, p) && m <= |log| && KnowsUpTo(log, s.cursor, s)
    requires ServedPage(log[..m], s.cursor, page) && Pull(s, me, Ok(page), p).Ok?
    ensures var next := Pull(s, me, Ok(page), p).value.0;
      KnowsUpTo(log, next.cursor, next) && (s.cursor <= Head(log) ==> next.cursor <= Head(log))
  {
    hide ValidRecord, Takes, ApplyChanges, Current;
    var candidate := ApplyChanges(s, page.changes, page.cursor, p).value;
    var next := Pull(s, me, Ok(page), p).value.0;
    ApplyChangesTakes(s, page.changes, page.cursor, p);
    TakesFromLog(log, s, page.changes, candidate);
    forall key | Current(log, key).Some? && Current(log, key).value.revision <= next.cursor
      ensures Mirrors(log, key, RemoteOf(next, key))
    {
      assert RemoteOf(next, key) == RemoteOf(candidate, key);
      CurrentIsNewest(log, key, p);
      var c := Current(log, key).value;
      if c.revision <= s.cursor {
        assert forall r :: r in page.changes ==> r.key != key;
        TakesOthers(s, page.changes, candidate, key);
      } else {
        DeliveredInTime(log, m, s.cursor, page, key, p);
        ArrivedIsHeld(log, s, page.changes, candidate, key, p);
      }
    }
    if page.changes != [] { NotPastHead(log, page.changes[|page.changes| - 1], p); }
    forall key | RemoteOf(next, key).Some?
      ensures RemoteOf(next, key).value in log && RemoteOf(next, key).value.key == key
    {
      assert RemoteOf(next, key) == RemoteOf(candidate, key);
    }
  }

  lemma NotPastHead(log: seq<Record>, r: Record, p: Parsers)
    requires IsLog(log, p) && r in log
    ensures r.revision <= Head(log)
  {
  }

  lemma TakesOthers(a: SyncData, records: seq<Record>, b: SyncData, key: string)
    requires Takes(a, records, b) && forall r :: r in records ==> r.key != key
    ensures EntryOf(b, key) == EntryOf(a, key)
  {
  }

  /** A current record between two cursors was in the page that led from one to the other. */
  lemma DeliveredInTime(log: seq<Record>, m: nat, cursor: i64, page: Page, key: string, p: Parsers)
    requires IsLog(log, p) && m <= |log| && ServedPage(log[..m], cursor, page)
    requires page.cursor == LastRevision(cursor, page.changes)
    requires Current(log, key).Some? && cursor < Current(log, key).value.revision <= page.cursor
    ensures Current(log, key).value in page.changes
  {
    hide ValidRecord;
    var view := log[..m];
    PrefixIsLog(log, m, p);
    assert page.changes != [];
    var last := page.changes[|page.changes| - 1];
    assert last in view;
    assert last.revision <= Head(view);
    CurrentEarlier(log, m, key, p);
    CurrentIsNewest(view, key, p);
    var c := Current(view, key).value;
    var i :| 0 <= i < |view| && view[i] == c;
  }
}
