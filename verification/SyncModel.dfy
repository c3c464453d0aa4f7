/** Synchronised plugin selections, and what every client operation does to them. */
module SyncModel {
  import opened Common
  import opened Ordering

  type i64 = x: int | -0x8000_0000_0000_0000 <= x <= 0x7FFF_FFFF_FFFF_FFFF

  const COLLECTION := "plugin-selections"
  const MAX_PAGES := 200

  datatype SyncError =
    | Configuration
    | Network
    | Unauthorized
    | WrongAccount
    | Conflict
    | CursorExpired
    | RateLimited(retryAfterSeconds: Option<u64>)
    | Http(status: nat)
    | Protocol
    | TooManyPages
    | NoPendingEdit

  datatype Selection = Selection(schemaVersion: nat, pluginId: string, version: string, enabled: bool)

  datatype Record = Record(collection: string, key: string, revision: i64, deleted: bool, value: Option<Selection>)

  datatype Edit = Put(selection: Selection) | Delete

  datatype Pending = Pending(baseRevision: Option<i64>, edit: Edit, conflict: bool)

  datatype Entry = Entry(remote: Option<Record>, pending: Option<Pending>)

  datatype SyncData = SyncData(account: Account, cursor: i64, entries: map<string, Entry>)

  /** Whose data a state or a session belongs to. */
  datatype Account = Account(origin: string, id: string)

  /** Verdicts of the parsers the client relies on: version numbers and web origins. */
  datatype Parsers = Parsers(isVersion: string -> bool, isOrigin: string -> bool)

  function NewState(account: Account): SyncData {
    SyncData(account, 0, map[])
  }

  // ---- validity ------------------------------------------------------------

  /** The parts of a text between its dots. */
  function Parts(s: string): (parts: seq<string>)
    ensures |parts| > 0
  {
    if s == [] then [""]
    else
      var rest := Parts(s[1..]);
      if s[0] == '.' then [""] + rest else [[s[0]] + rest[0]] + rest[1..]
  }

  predicate KeyChar(c: char) {
    'a' <= c <= 'z' || '0' <= c <= '9' || c == '-' || c == '_'
  }

  predicate ValidKey(key: string) {
    && Bytes(key) <= 128
    && '.' in key
    && forall part :: part in Parts(key) ==> part != "" && forall c :: c in part ==> KeyChar(c)
  }

  predicate ValidSelection(v: Selection, key: string, p: Parsers) {
    v.schemaVersion == 1 && v.pluginId == key && Bytes(v.version) <= 64 && p.isVersion(v.version)
  }

  predicate ValidRecord(record: Record, p: Parsers) {
    && record.collection == COLLECTION
    && ValidKey(record.key)
    && record.revision > 0
    && record.deleted == record.value.None?
    && (record.value.Some? ==> ValidSelection(record.value.value, record.key, p))
  }

  predicate ValidEdit(edit: Edit, key: string, p: Parsers) {
    edit.Put? ==> ValidSelection(edit.selection, key, p)
  }

  predicate ValidEntry(key: string, e: Entry, p: Parsers) {
    && ValidKey(key)
    && (e.remote.Some? ==> e.remote.value.key == key && ValidRecord(e.remote.value, p))
    && (e.pending.Some? ==>
         var pending := e.pending.value;
         && (pending.baseRevision.Some? ==> pending.baseRevision.value > 0)
         && (pending.conflict || pending.baseRevision == Revision(e.remote))
         && ValidEdit(pending.edit, key, p))
  }

  predicate ValidAccount(account: Account, p: Parsers) {
    p.isOrigin(account.origin) && 0 < Bytes(account.id) <= 256
  }

  /** What the store demands of a state before it writes it and after it reads it. */
  predicate ValidState(s: SyncData, p: Parsers) {
    && ValidAccount(s.account, p)
    && s.cursor >= 0
    && forall key :: key in s.entries ==> ValidEntry(key, s.entries[key], p)
  }

  // ---- local edits ---------------------------------------------------------

  function Revision(remote: Option<Record>): Option<i64> {
    if remote.Some? then Some(remote.value.revision) else None
  }

  function EntryOf(s: SyncData, key: string): Entry {
    if key in s.entries then s.entries[key] else Entry(None, None)
  }

  function RemoteOf(s: SyncData, key: string): Option<Record> {
    EntryOf(s, key).remote
  }

  function PendingOf(s: SyncData, key: string): Option<Pending> {
    EntryOf(s, key).pending
  }

  function With(s: SyncData, key: string, e: Entry): SyncData {
    s.(entries := s.entries[key := e])
  }

  /** Stages an edit; a repeated edit keeps the revision the first one started from. */
  function Stage(s: SyncData, key: string, edit: Edit, p: Parsers): Result<SyncData, SyncError> {
    if !ValidKey(key) || !ValidEdit(edit, key, p) then Err(Configuration)
    else
      var e := EntryOf(s, key);
      var pending := match e.pending
        case Some(earlier) => earlier.(edit := edit)
        case None => Pending(Revision(e.remote), edit, false);
      Ok(With(s, key, e.(pending := Some(pending))))
  }

  /** The user keeps the local edit after seeing what it conflicts with. */
  function Rebase(s: SyncData, key: string): Result<SyncData, SyncError> {
    match PendingOf(s, key)
    case None => Err(NoPendingEdit)
    case Some(pending) =>
      var e := EntryOf(s, key);
      Ok(With(s, key, e.(pending := Some(pending.(baseRevision := Revision(e.remote), conflict := false)))))
  }

  /** The user drops the local edit. */
  function Discard(s: SyncData, key: string): Result<SyncData, SyncError> {
    if PendingOf(s, key).None? then Err(NoPendingEdit)
    else Ok(With(s, key, EntryOf(s, key).(pending := None)))
  }

  // ---- pulling -------------------------------------------------------------

  /** An edit that did not start from the record that arrived conflicts with it. */
  function Flagged(pending: Option<Pending>, revision: Option<i64>): Option<Pending> {
    if pending.Some? && pending.value.baseRevision != revision then Some(pending.value.(conflict := true)) else pending
  }

  /** Takes a newer remote record over; an old one changes nothing. */
  function Apply(s: SyncData, record: Record, p: Parsers): Result<SyncData, SyncError> {
    if !ValidRecord(record, p) then Err(Protocol)
    else
      var e := EntryOf(s, record.key);
      if e.remote.Some? && e.remote.value.revision >= record.revision then Ok(s)
      else Ok(With(s, record.key, Entry(Some(record), Flagged(e.pending, Some(record.revision)))))
  }

  datatype Page = Page(changes: seq<Record>, cursor: i64, hasMore: bool)

  function LastRevision(start: i64, changes: seq<Record>): i64 {
    if changes == [] then start else changes[|changes| - 1].revision
  }

  /** Applies changes in order; each must be newer than the one before and not past the limit. */
  function ApplyChanges(s: SyncData, changes: seq<Record>, limit: i64, p: Parsers): Result<SyncData, SyncError>
    decreases |changes|
  {
    if changes == [] then Ok(s)
    else
      var front, last := changes[..|changes| - 1], changes[|changes| - 1];
      match ApplyChanges(s, front, limit, p)
      case Err(e) => Err(e)
      case Ok(before) =>
        if last.revision <= LastRevision(s.cursor, front) || last.revision > limit then Err(Protocol)
        else Apply(before, last, p)
  }

  /** Applies one page of changes, all of it or nothing; also tells whether more is waiting. */
  function Pull(s: SyncData, me: Account, answer: Result<Page, SyncError>, p: Parsers)
    : Result<(SyncData, bool), SyncError>
  {
    if s.account != me then Err(WrongAccount)
    else match answer
    case Err(e) => Err(e)
    case Ok(page) =>
      if page.cursor < s.cursor || (page.hasMore && page.cursor == s.cursor) then Err(Protocol)
      else match ApplyChanges(s, page.changes, page.cursor, p)
      case Err(e) => Err(e)
      case Ok(candidate) =>
        if LastRevision(s.cursor, page.changes) != page.cursor then Err(Protocol)
        else Ok((candidate.(cursor := page.cursor), page.hasMore))
  }

  // ---- pushing -------------------------------------------------------------

  /** The precondition of a write (sections 13.1.1 and 13.1.2 of RFC 9110). */
  datatype Condition = IfMatch(revision: i64) | IfNoneMatch

  datatype Write = Write(key: string, edit: Edit, condition: Condition)

  function WriteOf(key: string, pending: Pending): Write {
    Write(key, pending.edit, if pending.baseRevision.Some? then IfMatch(pending.baseRevision.value) else IfNoneMatch)
  }

  /** Whether a record is what an edit asked for. */
  predicate Echoes(record: Record, edit: Edit) {
    match edit
    case Put(v) => record.value == Some(v) && !record.deleted
    case Delete => record.deleted && record.value.None?
  }

  /** The write a push sends, when it gets as far as sending one. */
  function Sent(s: SyncData, key: string, me: Account): Option<Write> {
    match PendingOf(s, key)
    case None => None
    case Some(pending) =>
      if s.account != me || !ValidKey(key) || pending.conflict
         || (pending.baseRevision.None? && pending.edit.Delete?)
      then None
      else Some(WriteOf(key, pending))
  }

  function Conflicting(s: SyncData, key: string): SyncData {
    match PendingOf(s, key)
    case None => s
    case Some(pending) => With(s, key, EntryOf(s, key).(pending := Some(pending.(conflict := true))))
  }

  /** Sends one edit; `answer` is what the server replies, a refused precondition being `Conflict`. */
  function Push(s: SyncData, key: string, me: Account, answer: Write -> Result<Record, SyncError>, p: Parsers)
    : (SyncData, Result<(), SyncError>)
  {
    if s.account != me then (s, Err(WrongAccount))
    else if !ValidKey(key) then (s, Err(Configuration))
    else match PendingOf(s, key)
    case None => (s, Err(NoPendingEdit))
    case Some(pending) =>
      if pending.conflict then (s, Err(Conflict))
      else if pending.baseRevision.None? && pending.edit.Delete? then (Conflicting(s, key), Err(Conflict))
      else match answer(WriteOf(key, pending))
      case Err(e) => (if e == Conflict then Conflicting(s, key) else s, Err(e))
      case Ok(record) =>
        if !Acknowledges(record, key, pending, p) then (s, Err(Protocol))
        else (With(s, key, Entry(Some(record), None)), Ok(()))
  }

  /** A reply that confirms a write: the edit itself, under a newer revision. */
  predicate Acknowledges(record: Record, key: string, pending: Pending, p: Parsers) {
    && ValidRecord(record, p)
    && Echoes(record, pending.edit)
    && record.key == key
    && (pending.baseRevision.Some? ==> record.revision > pending.baseRevision.value)
  }

  // ---- rebuilding ----------------------------------------------------------

  datatype Listing = Listing(records: seq<Record>, nextAfter: Option<string>)

  /** Replies during a rebuild, by the number of the call and by what it asks for. */
  datatype Network = Network(
    head: Result<i64, SyncError>,
    listing: (nat, Option<string>) -> Result<Listing, SyncError>,
    changes: (nat, i64) -> Result<Page, SyncError>)

  function LastKey(after: Option<string>, records: seq<Record>): Option<string> {
    if records == [] then after else Some(records[|records| - 1].key)
  }

  /** Applies listed records; their keys must keep growing. */
  function ApplyListing(s: SyncData, after: Option<string>, records: seq<Record>, p: Parsers)
    : Result<SyncData, SyncError>
    decreases |records|
  {
    if records == [] then Ok(s)
    else
      var front, last := records[..|records| - 1], records[|records| - 1];
      match ApplyListing(s, after, front, p)
      case Err(e) => Err(e)
      case Ok(before) =>
        var previous := LastKey(after, front);
        if previous.Some? && !TextBefore(previous.value, last.key) then Err(Protocol) else Apply(before, last, p)
  }

  /** Reads the listing from its `i`-th page on. */
  function ListFrom(s: SyncData, after: Option<string>, net: Network, i: nat, p: Parsers): Result<SyncData, SyncError>
    decreases MAX_PAGES - i
  {
    if i >= MAX_PAGES then Err(TooManyPages)
    else match net.listing(i, after)
    case Err(e) => Err(e)
    case Ok(listing) =>
      match ApplyListing(s, after, listing.records, p)
      case Err(e) => Err(e)
      case Ok(next) =>
        match listing.nextAfter
        case None => Ok(next)
        case Some(key) =>
          if LastKey(after, listing.records) != Some(key) || (after.Some? && !TextBefore(after.value, key))
          then Err(Protocol)
          else ListFrom(next, Some(key), net, i + 1, p)
  }

  /** Carries the unsent edits of a state over to a freshly listed one. */
  function Merge(s: SyncData, listed: SyncData): SyncData {
    var edited := set key | key in s.entries && s.entries[key].pending.Some?;
    listed.(entries := map key | key in listed.entries.Keys + edited :: Merged(s, listed, key))
  }

  function Merged(s: SyncData, listed: SyncData, key: string): Entry {
    var e := EntryOf(listed, key);
    match PendingOf(s, key)
    case None => e
    case Some(pending) => e.(pending := Flagged(Some(pending), Revision(e.remote)))
  }

  /** Pulls pages until none is left, from the `i`-th on. */
  function PullAll(s: SyncData, me: Account, net: Network, i: nat, p: Parsers): Result<SyncData, SyncError>
    decreases MAX_PAGES - i
  {
    if i >= MAX_PAGES then Err(TooManyPages)
    else match Pull(s, me, net.changes(i, s.cursor), p)
    case Err(e) => Err(e)
    case Ok((next, more)) => if more then PullAll(next, me, net, i + 1, p) else Ok(next)
  }

  /** Starts over from a listing and the changes since it began, keeping the unsent edits. */
  function Rebuild(s: SyncData, me: Account, net: Network, p: Parsers): Result<SyncData, SyncError> {
    if s.account != me then Err(WrongAccount)
    else match net.head
    case Err(e) => Err(e)
    case Ok(cursor) =>
      if cursor < 0 then Err(Protocol)
      else match ListFrom(SyncData(s.account, cursor, map[]), None, net, 0, p)
      case Err(e) => Err(e)
      case Ok(listed) => PullAll(Merge(s, listed), me, net, 0, p)
  }
}
