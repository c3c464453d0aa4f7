/** Exporting and restoring a ranking changes nothing that later events can observe. */
module CheckpointRoundTrip {
  import opened Common
  import opened Ordering
  import opened Totals
  import opened RankingIndex
  import opened Model
  import opened Boards
  import opened Rankings
  import opened Checkpoints

  // ---- the window ----------------------------------------------------------

  lemma {:induction false} WindowTotalsSucceed(events: seq<Event>, n: nat, lastTime: u64)
    requires n <= |events| && TimeSorted(events, lastTime)
    requires forall i :: 0 <= i < |events| ==> events[i].score > 0
    requires forall key :: KeySum(events, key) <= U64_MAX
    ensures WindowTotals(events[..n], lastTime).Ok?
  {
    hide KeySum, IsTally;
    if n > 0 {
      var front, e := events[..n - 1], events[n - 1];
      WindowTotalsSucceed(events, n - 1, lastTime);
      assert events[..n][..n - 1] == front;
      RoomForNext(events, n - 1, lastTime);
    }
  }

  /** The totals so far leave room for the next event when the whole window fits. */
  lemma RoomForNext(events: seq<Event>, n: nat, lastTime: u64)
    requires n < |events| && KeySum(events, events[n].key) <= U64_MAX && WindowTotals(events[..n], lastTime).Ok?
    ensures Get(WindowTotals(events[..n], lastTime).value, events[n].key) + events[n].score <= U64_MAX
  {
    hide WindowTotals;
    var front, key := events[..n], events[n].key;
    WindowTotalsExact(front, lastTime);
    assert events == front + events[n..];
    KeySumConcat(front, events[n..], key);
    assert KeySum(front, key) == Get(WindowTotals(front, lastTime).value, key);
  }

  /** A consistent window is accepted as the evidence of its own scores. */
  lemma WindowIsItsEvidence(scores: map<string, u64>, events: seq<Event>, lastTime: u64)
    requires WindowBacks(scores, events) && TimeSorted(events, lastTime)
    ensures WindowTotals(events, lastTime) == Ok(scores)
  {
    forall key ensures KeySum(events, key) <= U64_MAX {
      assert KeySum(events, key) == Get(scores, key);
    }
    WindowTotalsSucceed(events, |events|, lastTime);
    assert events[..|events|] == events;
    WindowTotalsExact(events, lastTime);
    TallyIsUnique(scores, WindowTotals(events, lastTime).value, events);
  }

  // ---- the entries ---------------------------------------------------------

  lemma {:induction false} SumOfPart(part: map<string, u64>, whole: map<string, u64>)
    requires part.Keys <= whole.Keys && forall k :: k in part ==> part[k] == whole[k]
    ensures Sum(part) <= Sum(whole)
    decreases |part|
  {
    if part != map[] {
      var k :| k in part;
      SumWithout(part, k);
      SumWithout(whole, k);
      SumOfPart(part - {k}, whole - {k});
    }
  }

  /** A board restricted to some of its keys, as its exported entries describe them. */
  ghost function Part(b: Board, keys: set<string>): Board
    requires keys <= b.scores.Keys && |keys| <= U64_MAX
  {
    Board(map key | key in keys :: b.scores[key],
          map key | key in keys :: EntryFields(Display(b, key, b.scores[key])),
          b.capacity, |keys|)
  }

  ghost predicate Describes(b: Board, entries: seq<Entry>) {
    && (forall i :: 0 <= i < |entries| ==>
        entries[i].key in b.scores
          && entries[i] == Display(b, entries[i].key, b.scores[entries[i].key]).(rank := i + 1))
    && (forall i, j :: 0 <= i < j < |entries| ==> entries[i].key != entries[j].key)
  }

  ghost function KeysOf(entries: seq<Entry>): set<string> {
    set i | 0 <= i < |entries| :: entries[i].key
  }

  /** The `i`-th exported entry shows the `i`-th pair of the full order. */
  lemma ExportedEntry(b: Board, limit: nat, i: nat)
    requires |b.scores| <= limit && i < |b.scores|
    ensures |Ranking(b, limit)| == |b.scores| == |FullOrder(b.scores)|
    ensures var e := Ranking(b, limit)[i];
      && e.key in b.scores && e == Display(b, e.key, b.scores[e.key]).(rank := i + 1)
      && FullOrder(b.scores)[i] == Ranked(b.scores[e.key], e.key)
  {
    hide RankedBefore;
    RankingInOrder(b, limit);
    FullOrderSize(b.scores);
    assert FullOrder(b.scores)[i] in Elements(FullOrder(b.scores));
    assert FullOrder(b.scores)[i] in Pairs(b.scores);
  }

  lemma ExportedKeysDiffer(b: Board, limit: nat, i: nat, j: nat)
    requires |b.scores| <= limit && i < j < |b.scores|
    ensures |Ranking(b, limit)| == |b.scores|
    ensures Ranking(b, limit)[i].key != Ranking(b, limit)[j].key
  {
    hide Ranking;
    ExportedEntry(b, limit, i);
    ExportedEntry(b, limit, j);
    assert RankedBefore(FullOrder(b.scores)[i], FullOrder(b.scores)[j]);
    TextIrreflexive(Ranking(b, limit)[i].key);
  }

  lemma ExportedKey(b: Board, limit: nat, key: string)
    requires |b.scores| <= limit && key in b.scores
    ensures key in KeysOf(Ranking(b, limit))
  {
    hide Ranking, RankedBefore;
    FullOrderSize(b.scores);
    var full := FullOrder(b.scores);
    assert Ranked(b.scores[key], key) in Elements(full);
    var m :| 0 <= m < |full| && full[m] == Ranked(b.scores[key], key);
    ExportedEntry(b, limit, m);
    assert Ranking(b, limit)[m].key == key;
  }

  lemma ExportDescribes(b: Board, limit: nat)
    requires |b.scores| <= limit
    ensures Describes(b, Ranking(b, limit))
    ensures |Ranking(b, limit)| == |b.scores|
    ensures KeysOf(Ranking(b, limit)) == b.scores.Keys
  {
    hide Ranking, Display;
    ExportSize(b, limit);
    var entries := Ranking(b, limit);
    forall i | 0 <= i < |entries|
      ensures entries[i].key in b.scores
      ensures entries[i] == Display(b, entries[i].key, b.scores[entries[i].key]).(rank := i + 1)
    {
      ExportedEntry(b, limit, i);
    }
    forall i, j | 0 <= i < j < |entries| ensures entries[i].key != entries[j].key {
      ExportedKeysDiffer(b, limit, i, j);
    }
    forall key | key in b.scores ensures key in KeysOf(entries) { ExportedKey(b, limit, key); }
  }

  lemma ExportSize(b: Board, limit: nat)
    requires |b.scores| <= limit
    ensures |Ranking(b, limit)| == |b.scores|
  {
    RankingInOrder(b, limit);
    FullOrderSize(b.scores);
  }

  /** The caption of an entry of a sound board fits a label. */
  lemma EntryFieldsBounded(b: Board, key: string)
    requires Sound(b) && key in b.scores
    ensures Bounded(EntryFields(Display(b, key, b.scores[key]))) == EntryFields(Display(b, key, b.scores[key]))
  {
    hide Bytes;
    assert ValidKey(key);
    assert key in b.metadata ==> IsBounded(b.metadata[key]);
  }

  lemma CreditNext(b: Board, keys: set<string>, key: string)
    requires Sound(b) && keys <= b.scores.Keys && key in b.scores && key !in keys
    requires |b.scores| <= U64_MAX && |keys| < |b.scores|
    ensures Boards.Apply(Part(b, keys), key, b.scores[key], 1)
         == Ok(Part(b, keys).(scores := map k | k in keys + {key} :: b.scores[k], revision := |keys| + 1))
  {
    hide Bytes, Sum, Display;
    var before := Part(b, keys);
    var scores := map k | k in keys + {key} :: b.scores[k];
    assert |before.scores| == |keys| by { assert before.scores.Keys == keys; }
    assert before.scores[key := b.scores[key]] == scores;
    SumUpdate(before.scores, key, b.scores[key]);
    SumOfPart(scores, b.scores);
    assert b.scores[key] * 1 == b.scores[key] > 0;
  }

  lemma DescribeNext(b: Board, keys: set<string>, key: string, credited: Board)
    requires Sound(b) && keys <= b.scores.Keys && key in b.scores && key !in keys
    requires |b.scores| <= U64_MAX && |keys| < |b.scores|
    requires credited == Part(b, keys).(scores := map k | k in keys + {key} :: b.scores[k], revision := |keys| + 1)
    ensures WithMetadata(credited, key, EntryFields(Display(b, key, b.scores[key]))) == Part(b, keys + {key})
  {
    hide Bytes, Sum, Display, Bounded, Sound;
    var fields := EntryFields(Display(b, key, b.scores[key]));
    EntryFieldsBounded(b, key);
    assert Described(credited, key) + Bounded(fields) == fields;
    assert credited.metadata[key := fields] == Part(b, keys + {key}).metadata;
  }

  lemma KeysOfNext(entries: seq<Entry>, n: nat)
    requires 0 < n <= |entries|
    requires forall i, j :: 0 <= i < j < |entries| ==> entries[i].key != entries[j].key
    ensures KeysOf(entries[..n]) == KeysOf(entries[..n - 1]) + {entries[n - 1].key}
    ensures entries[n - 1].key !in KeysOf(entries[..n - 1])
  {
    var front := entries[..n - 1];
    assert entries[..n][n - 1] == entries[n - 1];
    forall i | 0 <= i < n - 1 ensures front[i].key in KeysOf(entries[..n]) { assert entries[..n][i] == front[i]; }
    forall i | 0 <= i < n ensures entries[..n][i].key in KeysOf(front) + {entries[n - 1].key} {
      if i < n - 1 { assert front[i] == entries[..n][i]; }
    }
  }

  lemma {:induction false} RestorePrefix(b: Board, entries: seq<Entry>, n: nat)
    requires Sound(b) && |b.scores| <= U64_MAX && n <= |entries| <= |b.scores|
    requires Describes(b, entries)
    ensures KeysOf(entries[..n]) <= b.scores.Keys && |KeysOf(entries[..n])| == n
    ensures RestoreEntries(EmptyBoard(b.capacity), entries[..n]) == Ok(Part(b, KeysOf(entries[..n])))
  {
    hide Sum, Bytes, Boards.Apply, WithMetadata, Display, Sound, KeysOf, Part;
    if n > 0 {
      RestorePrefix(b, entries, n - 1);
      var front, e := entries[..n - 1], entries[n - 1];
      assert entries[..n][..n - 1] == front;
      KeysOfNext(entries, n);
      ScorePositive(b, e.key);
      CreditNext(b, KeysOf(front), e.key);
      DescribeNext(b, KeysOf(front), e.key, Boards.Apply(Part(b, KeysOf(front)), e.key, e.score, 1).value);
      assert EntryFields(e) == EntryFields(Display(b, e.key, b.scores[e.key]));
    } else {
      assert entries[..n] == [];
      NothingRestored(b);
    }
  }

  lemma NothingRestored(b: Board)
    ensures KeysOf([]) == {} && EmptyBoard(b.capacity) == Part(b, {})
  {
  }

  lemma ScorePositive(b: Board, key: string)
    requires Sound(b) && key in b.scores
    ensures b.scores[key] > 0
    ensures Display(b, key, b.scores[key]).score == b.scores[key]
  {
  }

  // ---- observational equality ----------------------------------------------

  /** Fields that display the same: an explicit label may repeat the default, the key itself. */
  predicate SameFields(f: Metadata, g: Metadata, key: string) {
    && (if Label in f then f[Label] else key) == (if Label in g then g[Label] else key)
    && forall field :: field != Label ==> Lookup(f, field) == Lookup(g, field)
  }

  lemma SameFieldsShowTheSame(f: Metadata, g: Metadata, key: string)
    requires SameFields(f, g, key)
    ensures f - {Label} == g - {Label}
  {
    forall field ensures Lookup(f - {Label}, field) == Lookup(g - {Label}, field) {
      if field != Label { assert Lookup(f, field) == Lookup(g, field); }
    }
    assert (f - {Label}).Keys == (g - {Label}).Keys by {
      forall field ensures field in f - {Label} <==> field in g - {Label} {
        assert Lookup(f - {Label}, field) == Lookup(g - {Label}, field);
      }
    }
    forall field | field in f - {Label} ensures (f - {Label})[field] == (g - {Label})[field] {
      assert Lookup(f - {Label}, field) == Lookup(g - {Label}, field);
    }
  }

  lemma SameFieldsMerge(f: Metadata, g: Metadata, update: Metadata, key: string)
    requires SameFields(f, g, key)
    ensures SameFields(f + update, g + update, key)
  {
    forall field | field != Label ensures Lookup(f + update, field) == Lookup(g + update, field) {
      assert Lookup(f, field) == Lookup(g, field);
    }
  }

  /** Boards that show the same entries. */
  ghost predicate SameBoard(a: Board, b: Board) {
    && a.scores == b.scores && a.capacity == b.capacity && a.revision == b.revision
    && forall key :: key in a.scores ==> SameFields(Described(a, key), Described(b, key), key)
  }

  /** Rankings that differ at most in their local instance number and explicit labels. */
  ghost predicate Alike(a: RankState, b: RankState) {
    SameBoard(a.board, b.board) && a == b.(board := a.board, instance := a.instance)
  }

  lemma AlikeShowsTheSame(a: RankState, b: RankState, limit: nat)
    requires Alike(a, b)
    ensures View(a, limit) == View(b, limit)
  {
    RankingInOrder(a.board, limit);
    RankingInOrder(b.board, limit);
    var full := FullOrder(a.board.scores);
    var order := Take(full, limit);
    forall i | 0 <= i < |order|
      ensures Display(a.board, order[i].key, order[i].score) == Display(b.board, order[i].key, order[i].score)
    {
      assert full[i] in Elements(full);
      assert order[i] in Pairs(a.board.scores);
      SameFieldsShowTheSame(Described(a.board, order[i].key), Described(b.board, order[i].key), order[i].key);
    }
    assert Candidates(a.board, limit) == Candidates(b.board, limit);
  }

  lemma ExportedEntriesRestore(r: RankState)
    requires Consistent(r)
    ensures |r.board.scores.Keys| == |r.board.scores| <= r.definition.capacity <= 100_000
    ensures RestoreEntries(EmptyBoard(r.definition.capacity), Export(r).snapshot.entries)
         == Ok(Part(r.board, r.board.scores.Keys))
    ensures |Export(r).snapshot.entries| == |r.board.scores|
  {
    hide Sum, Bytes, WindowConsistent, UsersConsistent, Display, Sound, ValidInstanceId, Part, RestoreEntries, Ranking;
    var entries := Export(r).snapshot.entries;
    CapacityBounds(r);
    ExportDescribes(r.board, r.definition.capacity);
    RestorePrefix(r.board, entries, |entries|);
    assert entries[..|entries|] == entries;
    assert |r.board.scores.Keys| == |r.board.scores|;
  }

  lemma ExportedEvidenceFits(r: RankState)
    requires Consistent(r)
    ensures WindowError(r.definition.window, r.board.scores, Export(r)).None?
    ensures UsersFit(r.definition.userLimits, r.board.scores, Export(r))
  {
    hide Sum, Bytes, Ranking, Sound, ValidInstanceId, ValidDefinition, IsTally, WindowTotals, KeySum;
    if r.definition.window.Rolling? {
      WindowIsItsEvidence(r.board.scores, r.windowEvents, r.lastTime);
    }
  }

  /**
   * Round trip: the checkpoint of a consistent ranking is accepted by a fresh instance exactly
   * when the revision covers the participants, and then restores the same ranking.
   */
  lemma RoundTrip(r: RankState, instance: u64, instanceId: string)
    requires Consistent(r)
    ensures var restored := Restore(Fresh(r.definition, instance, instanceId), Export(r));
      && (restored.Ok? <==> |r.board.scores| <= r.board.revision)
      && (restored.Ok? ==> Alike(restored.value, r) && restored.value.instance == instance)
  {
    hide Sum, Bytes, WindowConsistent, UsersConsistent, ValidDefinition, ValidInstanceId, Sound, Ranking,
         RestoreEntries, WindowError, UsersFit, SameBoard;
    ExportedEntriesRestore(r);
    ExportedEvidenceFits(r);
    PartShowsTheSame(r.board);
    assert Part(r.board, r.board.scores.Keys).scores == r.board.scores;
  }

  lemma CapacityBounds(r: RankState)
    requires Consistent(r)
    ensures |r.board.scores| <= r.board.capacity == r.definition.capacity <= 100_000
  {
    hide Bytes, Sum;
  }

  lemma PartShowsTheSame(b: Board)
    requires |b.scores.Keys| <= U64_MAX
    ensures SameBoard(Part(b, b.scores.Keys).(revision := b.revision), b)
  {
    var part := Part(b, b.scores.Keys).(revision := b.revision);
    assert part.scores == b.scores;
    forall key | key in part.scores ensures SameFields(Described(part, key), Described(b, key), key) {
      var fields := Described(b, key);
      assert Described(part, key) == (fields - {Label})[Label := if Label in fields then fields[Label] else key];
    }
  }
}
