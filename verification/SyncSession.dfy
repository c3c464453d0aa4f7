/** The client's state and session as objects updated in place. */
module SyncSession {
  import opened Common
  import opened Ordering
  import opened SyncModel

  class SyncState {
    var account: Account
    var cursor: i64
    var entries: map<string, Entry>
    const parsers: Parsers

    ghost function Data(): SyncData
      reads this
    {
      SyncData(account, cursor, entries)
    }

    constructor (account: Account, parsers: Parsers)
      ensures Data() == NewState(account) && this.parsers == parsers
    {
      this.account, cursor, entries, this.parsers := account, 0, map[], parsers;
    }

    /** A separate copy to work on. */
    constructor Clone(state: SyncState)
      ensures Data() == state.Data() && parsers == state.parsers
    {
      account, cursor, entries, parsers := state.account, state.cursor, state.entries, state.parsers;
    }

    method Stage(key: string, edit: Edit) returns (r: Result<(), SyncError>)
      modifies this
      ensures Outcome(SyncModel.Stage(old(Data()), key, edit, parsers), old(Data()), Data(), r)
    {
      if !ValidKey(key) || !ValidEdit(edit, key, parsers) {
        return Err(Configuration);
      }
      var entry := if key in entries then entries[key] else Entry(None, None);
      if entry.pending.Some? {
        entry := entry.(pending := Some(entry.pending.value.(edit := edit)));
      } else {
        entry := entry.(pending := Some(Pending(Revision(entry.remote), edit, false)));
      }
      entries := entries[key := entry];
      return Ok(());
    }

    method Rebase(key: string) returns (r: Result<(), SyncError>)
      modifies this
      ensures Outcome(SyncModel.Rebase(old(Data()), key), old(Data()), Data(), r)
    {
      if key !in entries || entries[key].pending.None? {
        return Err(NoPendingEdit);
      }
      var entry := entries[key];
      var pending := entry.pending.value.(baseRevision := Revision(entry.remote), conflict := false);
      entries := entries[key := entry.(pending := Some(pending))];
      return Ok(());
    }

    method Discard(key: string) returns (r: Result<(), SyncError>)
      modifies this
      ensures Outcome(SyncModel.Discard(old(Data()), key), old(Data()), Data(), r)
    {
      if key !in entries || entries[key].pending.None? {
        return Err(NoPendingEdit);
      }
      entries := entries[key := entries[key].(pending := None)];
      return Ok(());
    }

    method Apply(record: Record) returns (r: Result<(), SyncError>)
      modifies this
      ensures Outcome(SyncModel.Apply(old(Data()), record, parsers), old(Data()), Data(), r)
    {
      if !ValidRecord(record, parsers) {
        return Err(Protocol);
      }
      var entry := if record.key in entries then entries[record.key] else Entry(None, None);
      if entry.remote.Some? && entry.remote.value.revision >= record.revision {
        return Ok(());
      }
      if entry.pending.Some? && entry.pending.value.baseRevision != Some(record.revision) {
        entry := entry.(pending := Some(entry.pending.value.(conflict := true)));
      }
      entries := entries[record.key := entry.(remote := Some(record))];
      return Ok(());
    }

    /** Replaces the whole state by a finished copy. */
    method Commit(candidate: SyncState)
      modifies this
      ensures Data() == old(candidate.Data())
    {
      account, cursor, entries := candidate.account, candidate.cursor, candidate.entries;
    }

    /** The write of a key's edit was refused. */
    method Flag(key: string)
      requires key in entries && entries[key].pending.Some?
      modifies this
      ensures Data() == Conflicting(old(Data()), key)
    {
      var entry := entries[key];
      entries := entries[key := entry.(pending := Some(entry.pending.value.(conflict := true)))];
    }
  }

  /** A successful operation leaves its result, a failed one leaves everything. */
  ghost predicate Outcome(expected: Result<SyncData, SyncError>, before: SyncData, after: SyncData,
                          r: Result<(), SyncError>)
  {
    match expected
    case Ok(s) => r == Ok(()) && after == s
    case Err(e) => r == Err(e) && after == before
  }

  class Session {
    const account: Account
    const parsers: Parsers

    constructor (account: Account, parsers: Parsers)
      ensures this.account == account && this.parsers == parsers
    {
      this.account, this.parsers := account, parsers;
    }

    method NewState() returns (state: SyncState)
      ensures fresh(state) && state.Data() == SyncModel.NewState(account) && state.parsers == parsers
    {
      state := new SyncState(account, parsers);
    }

    /** Applies one page of changes in memory, all of it or nothing. */
    method PullPage(state: SyncState, answer: Result<Page, SyncError>) returns (r: Result<bool, SyncError>)
      requires state.parsers == parsers
      modifies state
      ensures match Pull(old(state.Data()), account, answer, parsers)
        case Ok((next, more)) => r == Ok(more) && state.Data() == next
        case Err(e) => r == Err(e) && state.Data() == old(state.Data())
    {
      hide ValidRecord, SyncModel.Apply;
      if state.account != account {
        return Err(WrongAccount);
      }
      if answer.Err? {
        return Err(answer.error);
      }
      var page := answer.value;
      if page.cursor < state.cursor || (page.hasMore && page.cursor == state.cursor) {
        return Err(Protocol);
      }
      var candidate := new SyncState.Clone(state);
      var last := state.cursor;
      ghost var start := state.Data();
      for i := 0 to |page.changes|
        invariant fresh(candidate) && candidate.parsers == parsers && state.Data() == start
        invariant ApplyChanges(start, page.changes[..i], page.cursor, parsers) == Ok(candidate.Data())
        invariant last == LastRevision(start.cursor, page.changes[..i])
      {
        var record := page.changes[i];
        assert page.changes[..i + 1][..i] == page.changes[..i];
        ChangesFailEarly(start, page.changes, i + 1, page.cursor, parsers);
        if record.revision <= last || record.revision > page.cursor {
          return Err(Protocol);
        }
        last := record.revision;
        assert ApplyChanges(start, page.changes[..i + 1], page.cursor, parsers)
            == SyncModel.Apply(candidate.Data(), record, parsers);
        var applied := candidate.Apply(record);
        if applied.Err? {
          return Err(applied.error);
        }
      }
      assert page.changes[..|page.changes|] == page.changes;
      if last != page.cursor {
        return Err(Protocol);
      }
      candidate.cursor := page.cursor;
      state.Commit(candidate);
      return Ok(page.hasMore);
    }

    /** Sends one edit; a refused one stays for the user to resolve. */
    method Push(state: SyncState, key: string, send: Write -> Result<Record, SyncError>)
      returns (r: Result<(), SyncError>)
      requires state.parsers == parsers
      modifies state
      ensures (state.Data(), r) == SyncModel.Push(old(state.Data()), key, account, send, parsers)
    {
      hide ValidRecord, ValidKey, Echoes;
      if state.account != account {
        return Err(WrongAccount);
      }
      if !ValidKey(key) {
        return Err(Configuration);
      }
      if key !in state.entries || state.entries[key].pending.None? {
        return Err(NoPendingEdit);
      }
      var pending := state.entries[key].pending.value;
      if pending.conflict {
        return Err(Conflict);
      }
      if pending.baseRevision.None? && pending.edit.Delete? {
        state.Flag(key);
        return Err(Conflict);
      }
      var condition := if pending.baseRevision.Some? then IfMatch(pending.baseRevision.value) else IfNoneMatch;
      var response := send(Write(key, pending.edit, condition));
      if response == Err(Conflict) {
        state.Flag(key);
        return Err(Conflict);
      }
      if response.Err? {
        return Err(response.error);
      }
      var record := response.value;
      if !ValidRecord(record, parsers) || !Echoes(record, pending.edit) || record.key != key
         || (pending.baseRevision.Some? && record.revision <= pending.baseRevision.value)
      {
        return Err(Protocol);
      }
      state.entries := state.entries[key := Entry(Some(record), None)];
      return Ok(());
    }

    /** Reads the whole listing into a fresh candidate. */
    method ReadListing(candidate: SyncState, net: Network) returns (r: Result<(), SyncError>)
      requires candidate.parsers == parsers
      modifies candidate
      ensures match ListFrom(old(candidate.Data()), None, net, 0, parsers)
        case Ok(listed) => r == Ok(()) && candidate.Data() == listed
        case Err(e) => r == Err(e)
    {
      hide SyncModel.Apply, ApplyListing;
      var after: Option<string> := None;
      for i := 0 to MAX_PAGES
        invariant ListFrom(candidate.Data(), after, net, i, parsers)
          == ListFrom(old(candidate.Data()), None, net, 0, parsers)
      {
        var answer := net.listing(i, after);
        if answer.Err? {
          return Err(answer.error);
        }
        var listing := answer.value;
        r := ReadRecords(candidate, after, listing.records);
        if r.Err? { return; }
        if listing.nextAfter.None? {
          return Ok(());
        }
        var next := listing.nextAfter.value;
        if LastKey(after, listing.records) != Some(next) || (after.Some? && !TextBefore(after.value, next)) {
          return Err(Protocol);
        }
        after := Some(next);
      }
      return Err(TooManyPages);
    }

    method ReadRecords(candidate: SyncState, after: Option<string>, records: seq<Record>)
      returns (r: Result<(), SyncError>)
      requires candidate.parsers == parsers
      modifies candidate
      ensures match ApplyListing(old(candidate.Data()), after, records, parsers)
        case Ok(next) => r == Ok(()) && candidate.Data() == next
        case Err(e) => r == Err(e)
    {
      hide SyncModel.Apply;
      ghost var start := candidate.Data();
      var previous := after;
      for i := 0 to |records|
        invariant ApplyListing(start, after, records[..i], parsers) == Ok(candidate.Data())
        invariant previous == LastKey(after, records[..i])
      {
        assert records[..i + 1][..i] == records[..i];
        ListingFailsEarly(start, after, records, i + 1, parsers);
        if previous.Some? && !TextBefore(previous.value, records[i].key) {
          return Err(Protocol);
        }
        previous := Some(records[i].key);
        r := candidate.Apply(records[i]);
        if r.Err? { return; }
      }
      assert records[..|records|] == records;
      return Ok(());
    }

    /** Carries every unsent edit over to the candidate. */
    method CarryEdits(state: SyncState, candidate: SyncState)
      requires state != candidate
      modifies candidate
      ensures candidate.Data() == Merge(state.Data(), old(candidate.Data()))
    {
      ghost var listed := candidate.Data();
      var edited := set key | key in state.entries && state.entries[key].pending.Some?;
      var todo := edited;
      while todo != {}
        invariant todo <= edited && candidate.account == listed.account && candidate.cursor == listed.cursor
        invariant candidate.entries.Keys == listed.entries.Keys + (edited - todo)
        invariant forall key :: key in candidate.entries ==>
          candidate.entries[key] == if key in todo then EntryOf(listed, key) else Merged(state.Data(), listed, key)
      {
        var key :| key in todo;
        var entry := if key in candidate.entries then candidate.entries[key] else Entry(None, None);
        var pending := state.entries[key].pending.value;
        if pending.baseRevision != Revision(entry.remote) {
          pending := pending.(conflict := true);
        }
        candidate.entries := candidate.entries[key := entry.(pending := Some(pending))];
        todo := todo - {key};
      }
    }

    /** Starts over from the server's listing; the state changes only when every page succeeded. */
    method Rebuild(state: SyncState, net: Network) returns (r: Result<(), SyncError>)
      requires state.parsers == parsers
      modifies state
      ensures Outcome(SyncModel.Rebuild(old(state.Data()), account, net, parsers), old(state.Data()), state.Data(), r)
    {
      hide ListFrom, Merge, Pull;
      if state.account != account {
        return Err(WrongAccount);
      }
      if net.head.Err? {
        return Err(net.head.error);
      }
      if net.head.value < 0 {
        return Err(Protocol);
      }
      var candidate := new SyncState(state.account, parsers);
      candidate.cursor := net.head.value;
      r := ReadListing(candidate, net);
      if r.Err? { return; }
      CarryEdits(state, candidate);
      ghost var merged := candidate.Data();
      for i := 0 to MAX_PAGES
        invariant fresh(candidate) && candidate.parsers == parsers && state.Data() == old(state.Data())
        invariant PullAll(candidate.Data(), account, net, i, parsers) == PullAll(merged, account, net, 0, parsers)
      {
        var more := PullPage(candidate, net.changes(i, candidate.cursor));
        if more.Err? {
          return Err(more.error);
        }
        if !more.value {
          state.Commit(candidate);
          return Ok(());
        }
      }
      return Err(TooManyPages);
    }
  }

  /** A failure in the first changes is the failure of the page. */
  lemma {:induction false} ChangesFailEarly(s: SyncData, changes: seq<Record>, n: nat, limit: i64, p: Parsers)
    requires n <= |changes|
    ensures ApplyChanges(s, changes[..n], limit, p).Err?
      ==> ApplyChanges(s, changes, limit, p) == ApplyChanges(s, changes[..n], limit, p)
    decreases |changes|
  {
    if n < |changes| {
      var front := changes[..|changes| - 1];
      assert front[..n] == changes[..n];
      ChangesFailEarly(s, front, n, limit, p);
    } else {
      assert changes[..n] == changes;
    }
  }

  lemma {:induction false} ListingFailsEarly(s: SyncData, after: Option<string>, records: seq<Record>, n: nat,
                                             p: Parsers)
    requires n <= |records|
    ensures ApplyListing(s, after, records[..n], p).Err?
      ==> ApplyListing(s, after, records, p) == ApplyListing(s, after, records[..n], p)
    decreases |records|
  {
    if n < |records| {
      var front := records[..|records| - 1];
      assert front[..n] == records[..n];
      ListingFailsEarly(s, after, front, n, p);
    } else {
      assert records[..n] == records;
    }
  }
}
