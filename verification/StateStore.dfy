/** The stored client state: one cell under a lock, replaced only by compare-and-swap. */
module StateStore {
  import opened Common
  import opened SyncModel
  import opened SyncRuns
  import SyncRebuild

  const FORMAT_VERSION := 1
  const MAX_STATE_BYTES := 4 * 1024 * 1024

  datatype StoreError = Io | InvalidState | ConcurrentChange | WrongIdentity | UnsafeDirectory

  datatype Snapshot = Snapshot(generation: u64, state: SyncData)

  datatype Envelope = Envelope(formatVersion: nat, generation: u64, state: SyncData)

  /** What the directory holds under the state's name; `Garbage` is too long or does not parse. */
  datatype File = Absent | NotAFile | Garbage | Holds(envelope: Envelope)

  /** What the file system does during one call; `LockUnsafe` is a lock path that is not a file. */
  datatype Fault = Works | LockUnsafe | LockFails | ReadFails | WriteFails | LateSyncFails

  /** The error of a call that does not get as far as the contents of the file. */
  function Blocked(fault: Fault): Option<StoreError> {
    match fault
    case LockUnsafe => Some(UnsafeDirectory)
    case LockFails => Some(Io)
    case ReadFails => Some(Io)
    case _ => None
  }

  /** Rules from outside: the parsers, and how long an envelope gets when written out. */
  datatype Format = Format(parsers: Parsers, size: Envelope -> nat)

  function Read(file: File, f: Format): Result<Option<Snapshot>, StoreError> {
    match file
    case Absent => Ok(None)
    case NotAFile => Err(UnsafeDirectory)
    case Garbage => Err(InvalidState)
    case Holds(e) =>
      if e.formatVersion != FORMAT_VERSION || e.generation == 0 || !ValidState(e.state, f.parsers)
      then Err(InvalidState)
      else Ok(Some(Snapshot(e.generation, e.state)))
  }

  function Generation(found: Option<Snapshot>): Option<u64> {
    if found.Some? then Some(found.value.generation) else None
  }

  datatype Attempt = Attempt(expected: Option<u64>, state: SyncData, fault: Fault)

  /** The file and the answer after an attempt; a late failure still leaves the new file. */
  function SaveFile(file: File, a: Attempt, f: Format): (File, Result<Snapshot, StoreError>) {
    if !ValidState(a.state, f.parsers) then (file, Err(InvalidState))
    else if Blocked(a.fault).Some? then (file, Err(Blocked(a.fault).value))
    else match Read(file, f)
    case Err(e) => (file, Err(e))
    case Ok(found) =>
      if Generation(found) != a.expected then (file, Err(ConcurrentChange))
      else if found.Some? && found.value.state.account != a.state.account then (file, Err(WrongIdentity))
      else if a.expected == Some(U64_MAX) then (file, Err(InvalidState))
      else
        var e := Envelope(FORMAT_VERSION, (if a.expected.Some? then a.expected.value else 0) + 1, a.state);
        if f.size(e) > MAX_STATE_BYTES then (file, Err(InvalidState))
        else if a.fault == WriteFails then (file, Err(Io))
        else (Holds(e), if a.fault == LateSyncFails then Err(Io) else Ok(Snapshot(e.generation, e.state)))
  }

  class StateStore {
    var file: File
    const format: Format

    constructor (file: File, format: Format)
      ensures this.file == file && this.format == format
    {
      this.file, this.format := file, format;
    }

    method ReadLocked() returns (r: Result<Option<Snapshot>, StoreError>)
      ensures r == Read(file, format)
    {
      match file {
        case Absent => return Ok(None);
        case NotAFile => return Err(UnsafeDirectory);
        case Garbage => return Err(InvalidState);
        case Holds(e) =>
          if e.formatVersion != FORMAT_VERSION || e.generation == 0 || !ValidState(e.state, format.parsers) {
            return Err(InvalidState);
          }
          return Ok(Some(Snapshot(e.generation, e.state)));
      }
    }

    method Load(fault: Fault) returns (r: Result<Option<Snapshot>, StoreError>)
      ensures r == if Blocked(fault).Some? then Err(Blocked(fault).value) else Read(file, format)
    {
      var blocked := Blocked(fault);
      if blocked.Some? {
        return Err(blocked.value);
      }
      r := ReadLocked();
    }

    /** Replaces the file if it still is the generation the caller read. */
    method Save(expected: Option<u64>, state: SyncData, fault: Fault) returns (r: Result<Snapshot, StoreError>)
      modifies this
      ensures (file, r) == SaveFile(old(file), Attempt(expected, state, fault), format)
    {
      hide ValidState, Read;
      if !ValidState(state, format.parsers) {
        return Err(InvalidState);
      }
      var blocked := Blocked(fault);
      if blocked.Some? {
        return Err(blocked.value);
      }
      var current := ReadLocked();
      if current.Err? {
        return Err(current.error);
      }
      if Generation(current.value) != expected {
        return Err(ConcurrentChange);
      }
      if current.value.Some? && current.value.value.state.account != state.account {
        return Err(WrongIdentity);
      }
      var base: u64 := if expected.Some? then expected.value else 0;
      if base == U64_MAX {
        return Err(InvalidState);
      }
      var envelope := Envelope(FORMAT_VERSION, base + 1, state);
      if format.size(envelope) > MAX_STATE_BYTES {
        return Err(InvalidState);
      }
      if fault == WriteFails {
        return Err(Io);
      }
      file := Holds(envelope);
      if fault == LateSyncFails {
        return Err(Io);
      }
      return Ok(Snapshot(base + 1, state));
    }
  }

  // ---- one save ------------------------------------------------------------

  function GenerationOf(file: File): nat {
    if file.Holds? then file.envelope.generation else 0
  }

  /**
   * A save changes the file only to exactly the attempted state under the next generation, and
   * only if the caller named the generation that was there.
   */
  lemma SaveCommits(file: File, a: Attempt, f: Format)
    ensures var after := SaveFile(file, a, f).0; after != file ==>
      && Read(file, f).Ok? && a.expected == Generation(Read(file, f).value)
      && Read(after, f) == Ok(Some(Snapshot(GenerationOf(file) + 1, a.state)))
      && GenerationOf(after) == GenerationOf(file) + 1
      && (file.Holds? ==> file.envelope.state.account == a.state.account)
    ensures SaveFile(file, a, f).1.Ok? ==> SaveFile(file, a, f).0 != file
  {
    hide ValidState;
  }

  /**
   * A save succeeds exactly if the file system works, the state is valid, the file is the generation the caller
   * named and belongs to the same account, and the next generation exists and takes at most four mebibytes.
   */
  lemma SaveSucceedsExactly(file: File, a: Attempt, f: Format)
    ensures SaveFile(file, a, f).1.Ok? <==>
      && a.fault == Works && ValidState(a.state, f.parsers)
      && GenerationOf(file) < U64_MAX
      && f.size(Envelope(1, GenerationOf(file) + 1, a.state)) <= 4 * 1024 * 1024
      && match file
         case Absent => a.expected.None?
         case Holds(e) =>
           && a.expected == Some(e.generation) && 0 < e.generation && e.formatVersion == 1
           && ValidState(e.state, f.parsers) && e.state.account == a.state.account
         case _ => false
  {
    hide ValidState;
  }

  /** Every state a client reaches is stored when the file system works, and loads as it was saved. */
  lemma ReachableStatesAreStored(file: File, me: Account, ops: seq<SyncOp>, f: Format)
    requires ValidAccount(me, f.parsers) && Read(file, f).Ok?
    requires var found := Read(file, f).value; found.Some? ==>
      found.value.state.account == me && found.value.generation < U64_MAX
    ensures var state := Run(NewState(me), ops, me, f.parsers);
      var (after, r) := SaveFile(file, Attempt(Generation(Read(file, f).value), state, Works), f);
      f.size(Envelope(FORMAT_VERSION, GenerationOf(file) + 1, state)) <= MAX_STATE_BYTES ==>
        r == Ok(Snapshot(GenerationOf(file) + 1, state)) && Read(after, f) == Ok(Some(r.value))
  {
    hide ValidState, Step;
    ReachableStatesAreValid(me, ops, f.parsers);
    RunKeepsAccount(NewState(me), ops, me, f.parsers);
  }

  lemma {:induction false} RunKeepsAccount(s: SyncData, ops: seq<SyncOp>, me: Account, p: Parsers)
    requires s.account == me
    ensures Run(s, ops, me, p).account == me
    decreases |ops|
  {
    hide Step;
    if ops != [] {
      RunKeepsAccount(s, ops[..|ops| - 1], me, p);
      SyncRebuild.StepKeepsAccount(Run(s, ops[..|ops| - 1], me, p), ops[|ops| - 1], me, p);
    }
  }

  // ---- many writers --------------------------------------------------------

  /** The files left by one attempt after another; the lock puts them in an order. */
  predicate History(files: seq<File>, attempts: seq<Attempt>, f: Format) {
    && |files| == |attempts| + 1
    && forall i :: 0 <= i < |attempts| ==> files[i + 1] == SaveFile(files[i], attempts[i], f).0
  }

  /** Generations only grow, and a file that lasted over two moments lasted in between. */
  lemma {:induction false} GenerationsGrow(files: seq<File>, attempts: seq<Attempt>, i: nat, j: nat, f: Format)
    requires History(files, attempts, f) && i <= j < |files|
    ensures GenerationOf(files[i]) <= GenerationOf(files[j])
    ensures GenerationOf(files[i]) == GenerationOf(files[j]) ==> files[i] == files[j]
    decreases j - i
  {
    hide SaveFile;
    if i < j {
      GenerationsGrow(files, attempts, i, j - 1, f);
      SaveCommits(files[j - 1], attempts[j - 1], f);
    }
  }

  /** Nobody's save is lost: what a save replaces is exactly what its generation stood for. */
  lemma NoLostUpdate(files: seq<File>, attempts: seq<Attempt>, i: nat, j: nat, f: Format)
    requires History(files, attempts, f) && i <= j < |attempts|
    requires Read(files[i], f).Ok? && attempts[j].expected == Generation(Read(files[i], f).value)
    requires files[j + 1] != files[j]
    ensures files[j] == files[i]
  {
    hide SaveFile, ValidState;
    SaveCommits(files[j], attempts[j], f);
    GenerationsGrow(files, attempts, i, j, f);
  }

  /** Of all attempts that name the same generation, at most one changes the file. */
  lemma OneWinnerPerGeneration(files: seq<File>, attempts: seq<Attempt>, i: nat, j: nat, f: Format)
    requires History(files, attempts, f) && i < j < |attempts|
    requires files[i + 1] != files[i] && files[j + 1] != files[j]
    ensures attempts[i].expected != attempts[j].expected
  {
    hide SaveFile, ValidState;
    SaveCommits(files[i], attempts[i], f);
    SaveCommits(files[j], attempts[j], f);
    GenerationsGrow(files, attempts, i + 1, j, f);
  }

  /** A file that cannot be read is never overwritten. */
  lemma {:induction false} UnreadableFilesStay(files: seq<File>, attempts: seq<Attempt>, i: nat, f: Format)
    requires History(files, attempts, f) && i < |files| && Read(files[0], f).Err?
    ensures files[i] == files[0]
  {
    hide SaveFile, ValidState;
    if i > 0 {
      UnreadableFilesStay(files, attempts, i - 1, f);
      SaveCommits(files[i - 1], attempts[i - 1], f);
    }
  }
}
