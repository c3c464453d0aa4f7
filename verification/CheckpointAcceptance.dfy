/** A checkpoint is accepted exactly if it says what the ranking itself could have exported. */
module CheckpointAcceptance {
  import opened Common
  import opened Totals
  import opened Model
  import opened Boards
  import opened Rankings
  import opened Checkpoints
  import opened CheckpointRoundTrip

  predicate Lists(entries: seq<Entry>, key: string, score: u64) {
    exists i :: 0 <= i < |entries| && entries[i].key == key && entries[i].score == score
  }

  predicate NoKeyTwice(entries: seq<Entry>) {
    forall i, j :: 0 <= i < j < |entries| ==> entries[i].key != entries[j].key
  }

  /** Two lists of entries name the same keys, each once and with the same score; order and captions may differ. */
  ghost predicate SameScores(a: seq<Entry>, b: seq<Entry>) {
    && |a| == |b| && NoKeyTwice(a) && NoKeyTwice(b)
    && forall key, score :: Lists(a, key, score) <==> Lists(b, key, score)
  }

  /**
   * A checkpoint says what an exported one says: the same definition, names, window, counters, integrity, paused
   * flag, revision, totals, clock, window events, users and scores. It may leave the identity out.
   */
  ghost predicate SaysTheSame(x: Checkpoint, cp: Checkpoint) {
    var (a, b) := (x.snapshot, cp.snapshot);
    && cp.schemaVersion == 1 && b.schemaVersion == 1
    && cp.definition == x.definition
    && b.rankingId == a.rankingId && b.creatorId == a.creatorId && b.roomId == a.roomId && b.window == a.window
    && b.revision == a.revision && b.paused == a.paused
    && (b.instanceId.Some? ==> b.instanceId == a.instanceId)
    && b.rejected == a.rejected && b.dropped == a.dropped
    && b.limited == a.limited && b.cooldownRejected == a.cooldownRejected
    && b.integrityStatus == (if a.rejected == 0 && a.dropped == 0 then "unknown" else "degraded")
    && b.totalScore == a.totalScore && b.totalParticipants == a.totalParticipants
    && SameScores(a.entries, b.entries)
    && cp.windowEvents == x.windowEvents && cp.lastTime == x.lastTime && cp.users == x.users
  }

  // ---- entries -------------------------------------------------------------

  /** The entries name exactly the scores, each once. */
  ghost predicate Tells(entries: seq<Entry>, scores: map<string, u64>) {
    && |entries| == |scores| && NoKeyTwice(entries)
    && forall key, score :: Lists(entries, key, score) <==> key in scores && scores[key] == score
  }

  lemma TellingTheSame(a: seq<Entry>, b: seq<Entry>, scores: map<string, u64>)
    requires Tells(a, scores)
    ensures SameScores(a, b) <==> Tells(b, scores)
  {
    hide Lists, NoKeyTwice;
  }

  lemma ExportTells(b: Board, limit: nat)
    requires |b.scores| <= limit
    ensures Tells(Ranking(b, limit), b.scores)
  {
    hide Ranking, Display;
    ExportDescribes(b, limit);
    forall key, score ensures Lists(Ranking(b, limit), key, score) <==> key in b.scores && b.scores[key] == score {
      if key in b.scores {
        ExportedKey(b, limit, key);
        DisplayedScore(b, key);
      }
      if i :| 0 <= i < |Ranking(b, limit)| && Ranking(b, limit)[i].key == key { DisplayedScore(b, key); }
    }
  }

  lemma DisplayedScore(b: Board, key: string)
    requires key in b.scores
    ensures Display(b, key, b.scores[key]).score == b.scores[key] && Display(b, key, b.scores[key]).key == key
  {
  }

  lemma ListsNext(front: seq<Entry>, last: Entry, key: string, score: u64)
    ensures Lists(front + [last], key, score)
       <==> Lists(front, key, score) || (key == last.key && score == last.score)
  {
    var all := front + [last];
    assert all[|front|] == last;
    if i :| 0 <= i < |front| && front[i].key == key && front[i].score == score { assert all[i] == front[i]; }
  }

  lemma AddedEntry(before: map<string, u64>, after: map<string, u64>, front: seq<Entry>, last: Entry)
    requires Tells(front, before) && last.key !in before && after == before[last.key := last.score]
    ensures Tells(front + [last], after)
  {
    hide Lists;
    SizeWithKey(before, last.key, last.score);
    forall key, score { ListsNext(front, last, key, score); }
    forall i | 0 <= i < |front| ensures front[i].key != last.key { ListedAt(front, i); }
  }

  lemma ListedAt(entries: seq<Entry>, i: nat)
    requires i < |entries|
    ensures Lists(entries, entries[i].key, entries[i].score)
  {
  }

  lemma NothingTold(b: Board)
    requires b.scores == map[]
    ensures Tells([], b.scores)
  {
  }

  lemma NewKeyApplied(b: Board, key: string, score: u64)
    requires key !in b.scores && score > 0
    ensures var r := Boards.Apply(b, key, score, 1);
      && (r.Ok? ==> r.value == b.(scores := b.scores[key := score], revision := b.revision + 1))
      && (r.Ok? <==>
           && ValidKey(key) && |b.scores| < b.capacity && Sum(b.scores) + score <= U64_MAX && b.revision < U64_MAX)
  {
    hide Bytes, Sum;
    assert score * 1 == score;
  }

  /** Accepted entries are told as they are, and each of them takes one revision. */
  lemma {:induction false} RestoredEntriesTell(b: Board, entries: seq<Entry>)
    requires b.scores == map[] && b.revision == 0
    ensures var r := RestoreEntries(b, entries);
      r.Ok? ==> Tells(entries, r.value.scores) && r.value.revision == |entries|
    decreases |entries|
  {
    hide Bytes, Sum, Boards.Apply, Bounded, Tells;
    if entries == [] {
      NothingTold(b);
    } else if RestoreEntries(b, entries).Ok? {
      var front, last := entries[..|entries| - 1], entries[|entries| - 1];
      RestoredEntriesTell(b, front);
      var before := RestoreEntries(b, front).value;
      assert forall i :: 0 <= i < |front| ==> front[i].key == entries[i].key;
      ToldKeys(front, before.scores, last.key);
      NewKeyApplied(before, last.key, last.score);
      AddedEntry(before.scores, RestoreEntries(b, entries).value.scores, front, last);
      assert entries == front + [last];
    }
  }

  lemma ToldKeys(entries: seq<Entry>, scores: map<string, u64>, key: string)
    requires Tells(entries, scores)
    ensures key in scores ==> exists i :: 0 <= i < |entries| && entries[i].key == key
  {
    assert key in scores ==> Lists(entries, key, scores[key]);
  }

  /** Some of the scores of a map, told by the first entries. */
  ghost function Told(entries: seq<Entry>, n: nat, scores: map<string, u64>): map<string, u64>
    requires n <= |entries|
  {
    map key | key in scores && key in KeysOf(entries[..n]) :: scores[key]
  }

  lemma ToldNext(entries: seq<Entry>, n: nat, scores: map<string, u64>)
    requires Tells(entries, scores) && 0 < n <= |entries|
    ensures var (last, before) := (entries[n - 1], Told(entries, n - 1, scores));
      && last.key in scores && scores[last.key] == last.score && last.key !in before
      && Told(entries, n, scores) == before[last.key := last.score]
  {
    hide Lists, KeysOf;
    ListedAt(entries, n - 1);
    KeysOfNext(entries, n);
  }

  /** Entries that tell scores which fit are accepted in any order. */
  lemma {:induction false} ToldEntriesRestore(capacity: nat, entries: seq<Entry>, n: nat, scores: map<string, u64>)
    requires Tells(entries, scores) && n <= |entries| && Fits(scores, capacity) && |scores| <= U64_MAX
    requires forall key :: key in scores ==> scores[key] > 0 && ValidKey(key)
    ensures var r := RestoreEntries(EmptyBoard(capacity), entries[..n]);
      && r.Ok? && r.value.scores == Told(entries, n, scores)
      && |r.value.scores| == r.value.revision == n && r.value.capacity == capacity
  {
    hide Bytes, Sum, Boards.Apply, Bounded, KeysOf, Told, Lists;
    if n == 0 {
      assert entries[..0] == [];
      NothingToldYet(entries, scores);
    } else {
      ToldEntriesRestore(capacity, entries, n - 1, scores);
      var front, last := entries[..n - 1], entries[n - 1];
      assert entries[..n][..n - 1] == front && entries[..n][n - 1] == last;
      var before := RestoreEntries(EmptyBoard(capacity), front).value;
      ToldNext(entries, n, scores);
      SizeWithKey(before.scores, last.key, last.score);
      SumUpdate(before.scores, last.key, last.score);
      ToldFits(entries, n, scores);
      NewKeyApplied(before, last.key, last.score);
    }
  }

  lemma ToldFits(entries: seq<Entry>, n: nat, scores: map<string, u64>)
    requires n <= |entries|
    ensures Sum(Told(entries, n, scores)) <= Sum(scores)
  {
    hide Sum, KeysOf;
    SumOfPart(Told(entries, n, scores), scores);
  }

  lemma NothingToldYet(entries: seq<Entry>, scores: map<string, u64>)
    ensures Told(entries, 0, scores) == map[]
  {
    assert entries[..0] == [];
  }

  lemma AllTold(entries: seq<Entry>, scores: map<string, u64>)
    requires Tells(entries, scores)
    ensures Told(entries, |entries|, scores) == scores
  {
    assert entries[..|entries|] == entries;
    forall key | key in scores ensures key in KeysOf(entries) {
      assert Lists(entries, key, scores[key]);
    }
  }

  // ---- acceptance ----------------------------------------------------------

  lemma CapacityIsBounded(r: RankState)
    requires Consistent(r)
    ensures |r.board.scores| <= r.definition.capacity == r.board.capacity && r.definition.capacity <= U64_MAX
    ensures Fits(r.board.scores, r.definition.capacity)
    ensures forall key :: key in r.board.scores ==> r.board.scores[key] > 0 && ValidKey(key)
  {
    hide Bytes, Sum;
    CapacityBounds(r);
  }

  /** What was accepted is exported again as it came. */
  lemma AcceptedIsExported(r: RankState, cp: Checkpoint)
    requires Consistent(r) && Restore(r, cp).Ok?
    ensures var q := Restore(r, cp).value;
      && Consistent(q) && q.definition == r.definition && |q.board.scores| <= q.board.revision
      && r.board.revision == 0 && SaysTheSame(Export(q), cp)
  {
    hide Bytes, Sum, RestoreEntries, Ranking, WindowError, UsersFit, ValidDefinition, ValidInstanceId, WindowConsistent,
         UsersConsistent, Sound, Tells, SameScores, EmptyBoard;
    AcceptedCheckpointIsConsistent(r, cp);
    var q := Restore(r, cp).value;
    EmptyBoardIsEmpty(r.definition.capacity);
    RestoredEntriesTell(EmptyBoard(r.definition.capacity), cp.snapshot.entries);
    CapacityIsBounded(q);
    ExportTells(q.board, q.definition.capacity);
    TellingTheSame(Export(q).snapshot.entries, cp.snapshot.entries, q.board.scores);
    ToldSize(cp.snapshot.entries, q.board.scores);
  }

  lemma EmptyBoardIsEmpty(capacity: nat)
    ensures EmptyBoard(capacity).scores == map[] && EmptyBoard(capacity).revision == 0
  {
  }

  lemma ToldSize(entries: seq<Entry>, scores: map<string, u64>)
    requires Tells(entries, scores)
    ensures |entries| == |scores|
  {
  }

  /** What a ranking in order could have exported is accepted by an unused ranking of the same definition. */
  lemma ExportableIsAccepted(r: RankState, q: RankState, cp: Checkpoint)
    requires Consistent(q) && q.definition == r.definition && |q.board.scores| <= q.board.revision
    requires r.board.revision == 0 && SaysTheSame(Export(q), cp)
    ensures Restore(r, cp).Ok?
  {
    hide Bytes, Sum, RestoreEntries, Ranking, ValidDefinition, WindowConsistent, UsersConsistent, Sound, Tells,
         SameScores, WindowError, UsersFit;
    CapacityIsBounded(q);
    var entries := cp.snapshot.entries;
    ExportTells(q.board, q.definition.capacity);
    TellingTheSame(Export(q).snapshot.entries, entries, q.board.scores);
    ToldSize(entries, q.board.scores);
    ToldEntriesRestore(q.definition.capacity, entries, |entries|, q.board.scores);
    AllTold(entries, q.board.scores);
    assert entries[..|entries|] == entries;
    EvidenceFits(q, cp);
  }

  lemma EvidenceFits(q: RankState, cp: Checkpoint)
    requires Consistent(q)
    requires cp.windowEvents == q.windowEvents && cp.lastTime == q.lastTime && cp.users == q.users
    ensures WindowError(q.definition.window, q.board.scores, cp).None?
    ensures UsersFit(q.definition.userLimits, q.board.scores, cp)
  {
    hide Sum, Bytes, Sound, ValidInstanceId, ValidDefinition, IsTally, WindowTotals, KeySum;
    if q.definition.window.Rolling? {
      WindowIsItsEvidence(q.board.scores, q.windowEvents, q.lastTime);
    }
  }

  /** A ranking in order that would export what the checkpoint says. */
  ghost predicate Exports(q: RankState, d: Definition, cp: Checkpoint) {
    Consistent(q) && q.definition == d && |q.board.scores| <= q.board.revision && SaysTheSame(Export(q), cp)
  }

  /**
   * A checkpoint, whoever produced it, is accepted exactly by an unused ranking and exactly if some ranking of the
   * very same definition, in order, would export what it says; the restored ranking is one that does.
   */
  lemma AcceptedExactlyIfExportable(r: RankState, cp: Checkpoint)
    requires Consistent(r)
    ensures Restore(r, cp).Ok? <==> r.board.revision == 0 && exists q :: Exports(q, r.definition, cp)
    ensures Restore(r, cp).Ok? ==> Exports(Restore(r, cp).value, r.definition, cp)
  {
    hide Consistent, Restore, SaysTheSame, Export;
    if Restore(r, cp).Ok? {
      AcceptedIsExported(r, cp);
      assert Exports(Restore(r, cp).value, r.definition, cp);
    }
    if q :| r.board.revision == 0 && Exports(q, r.definition, cp) {
      ExportableIsAccepted(r, q, cp);
    }
  }
}
