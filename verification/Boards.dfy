/** What a score board means: its scores, with the total and the order derived from them. */
module Boards {
  import opened Common
  import opened Ordering
  import opened Totals
  import opened Model
  import opened RankingIndex

  datatype Board = Board(
    scores: map<string, u64>,
    metadata: map<string, Metadata>,
    capacity: nat,
    revision: u64)

  function EmptyBoard(capacity: nat): Board {
    Board(map[], map[], capacity, 0)
  }

  /** The accounting invariant of a board. */
  ghost predicate Sound(b: Board) {
    Fits(b.scores, b.capacity) && WellKeyed(b.scores, b.metadata)
  }

  /** The scores stay within the capacity, their total within a word. */
  ghost predicate Fits(scores: map<string, u64>, capacity: nat) {
    |scores| <= capacity && Sum(scores) <= U64_MAX
  }

  /** Valid keys, positive scores, and display fields only for keys with a score. */
  predicate WellKeyed(scores: map<string, u64>, metadata: map<string, Metadata>) {
    && (forall key :: key in scores ==> scores[key] > 0 && ValidKey(key))
    && metadata.Keys <= scores.Keys
    && (forall key :: key in metadata ==> IsBounded(metadata[key]))
  }

  /** A valid key does not fit when it is new and the board is full. */
  predicate Full(b: Board, key: string) {
    key !in b.scores && |b.scores| >= b.capacity
  }

  function Bump(b: Board): Result<Board, Error> {
    if b.revision == U64_MAX then Err(Overflow) else Ok(b.(revision := b.revision + 1))
  }

  /** Adds delta times weight to a key. */
  ghost function Apply(b: Board, key: string, delta: u64, weight: u64): Result<Board, Error> {
    if !ValidKey(key) then Err(InvalidKey)
    else if delta * weight > U64_MAX then Err(Overflow)
    else Credit(b, key, delta * weight)
  }

  /** Adds a value to a valid key; zero changes nothing, whatever the capacity. */
  ghost function Credit(b: Board, key: string, value: u64): Result<Board, Error> {
    if value == 0 then Ok(b)
    else if Full(b, key) then Err(Capacity)
    else if Sum(b.scores) + value > U64_MAX || b.revision == U64_MAX then Err(Overflow)
    else
      SumBoundsParts(b.scores, key, key);
      Ok(b.(scores := b.scores[key := Get(b.scores, key) + value], revision := b.revision + 1))
  }

  /** Takes a key out of the scores and of the metadata. */
  function Dropped(b: Board, key: string): Board {
    b.(scores := b.scores - {key}, metadata := b.metadata - {key})
  }

  /** A score set to a new value; zero removes the key. */
  function WithScore(b: Board, key: string, score: u64): Board {
    if score == 0 then Dropped(b, key) else b.(scores := b.scores[key := score])
  }

  /** Moves `amount` from one key to another and adds `additional` to the target. */
  ghost function Reassign(b: Board, from: string, to: string, amount: u64, additional: u64): Result<Board, Error> {
    if !ValidKey(from) || !ValidKey(to) || from == to then Err(InvalidKey)
    else if from !in b.scores || b.scores[from] < amount then Err(InsufficientScore)
    else if Get(b.scores, to) + amount + additional > U64_MAX then Err(Overflow)
    else if Get(b.scores, to) + amount + additional > 0 && b.scores[from] > amount && Full(b, to) then Err(Capacity)
    else if Sum(b.scores) + additional > U64_MAX || b.revision == U64_MAX then Err(Overflow)
    else
      var moved := WithScore(b, from, b.scores[from] - amount);
      Ok(WithScore(moved, to, Get(b.scores, to) + amount + additional).(revision := b.revision + 1))
  }

  /** Takes an expired amount off a key that holds at least that much. */
  function Expire(b: Board, key: string, amount: u64): Result<Board, Error>
    requires key in b.scores && b.scores[key] >= amount
  {
    if b.revision == U64_MAX then Err(Overflow)
    else Ok(WithScore(b, key, b.scores[key] - amount).(revision := b.revision + 1))
  }

  function Reset(b: Board): Result<Board, Error> {
    if b.revision == U64_MAX then Err(Overflow)
    else Ok(Board(map[], map[], b.capacity, b.revision + 1))
  }

  /** Display fields are kept only for keys that have a score. */
  function WithMetadata(b: Board, key: string, metadata: Metadata): Board {
    if key in b.scores then b.(metadata := b.metadata[key := Described(b, key) + Bounded(metadata)]) else b
  }

  function Described(b: Board, key: string): Metadata {
    if key in b.metadata then b.metadata[key] else map[]
  }

  // ---- the invariant -------------------------------------------------------

  lemma WithScoreWellKeyed(b: Board, key: string, score: u64)
    requires WellKeyed(b.scores, b.metadata) && ValidKey(key)
    ensures WellKeyed(WithScore(b, key, score).scores, WithScore(b, key, score).metadata)
  {
  }

  lemma SumWithScore(b: Board, key: string, score: u64)
    ensures Sum(WithScore(b, key, score).scores) == Sum(b.scores) - Get(b.scores, key) + score
  {
    SumUpdate(b.scores, key, score);
    SumRemove(b.scores, key);
  }

  lemma SizeWithKey(scores: map<string, u64>, key: string, score: u64)
    ensures |scores[key := score]| == |scores| + (if key in scores then 0 else 1)
  {
    assert scores[key := score].Keys == scores.Keys + {key};
    assert |scores[key := score].Keys| == |scores[key := score]| && |scores.Keys| == |scores|;
  }

  lemma SizeWithoutKey(scores: map<string, u64>, key: string)
    ensures |scores - {key}| == |scores| - (if key in scores then 1 else 0)
  {
    assert (scores - {key}).Keys == scores.Keys - {key};
    assert |(scores - {key}).Keys| == |scores - {key}| && |scores.Keys| == |scores|;
  }

  lemma WithScoreSize(b: Board, key: string, score: u64)
    ensures |WithScore(b, key, score).scores|
         == |b.scores| - (if key in b.scores then 1 else 0) + (if score > 0 then 1 else 0)
  {
    SizeWithKey(b.scores, key, score);
    SizeWithoutKey(b.scores, key);
  }

  /** Changing one score of a sound board keeps it sound if it still fits. */
  lemma WithScoreSound(b: Board, key: string, score: u64)
    requires Sound(b) && ValidKey(key)
    requires score > 0 ==> !Full(b, key)
    requires Sum(b.scores) - Get(b.scores, key) + score <= U64_MAX
    ensures Sound(WithScore(b, key, score))
  {
    hide Sum, Bytes;
    WithScoreWellKeyed(b, key, score);
    assert Fits(WithScore(b, key, score).scores, b.capacity) by {
      SumWithScore(b, key, score);
      WithScoreSize(b, key, score);
    }
  }

  lemma CreditSound(b: Board, key: string, value: u64)
    requires Sound(b) && ValidKey(key)
    ensures Credit(b, key, value).Ok? ==> Sound(Credit(b, key, value).value)
  {
    hide Sum, Bytes;
    if Credit(b, key, value).Ok? && value != 0 {
      SumBoundsParts(b.scores, key, key);
      WithScoreSound(b, key, Get(b.scores, key) + value);
    }
  }

  lemma ApplySound(b: Board, key: string, delta: u64, weight: u64)
    requires Sound(b)
    ensures var r := Apply(b, key, delta, weight); r.Ok? ==> Sound(r.value) && r.value.capacity == b.capacity
  {
    if Apply(b, key, delta, weight).Ok? { CreditSound(b, key, delta * weight); }
  }

  /** The source of a reassignment gives its amount away. */
  lemma SourceSound(b: Board, from: string, to: string, amount: u64)
    requires Sound(b) && ValidKey(from) && from in b.scores && b.scores[from] >= amount && from != to
    ensures var moved := WithScore(b, from, b.scores[from] - amount);
      && Sound(moved) && moved.capacity == b.capacity && Sum(moved.scores) == Sum(b.scores) - amount
      && Get(moved.scores, to) == Get(b.scores, to)
      && (Full(moved, to) ==> Full(b, to) && b.scores[from] > amount)
  {
    hide Sum, Bytes, WellKeyed;
    SumBoundsParts(b.scores, from, to);
    WithScoreSound(b, from, b.scores[from] - amount);
    SumWithScore(b, from, b.scores[from] - amount);
    WithScoreSize(b, from, b.scores[from] - amount);
  }

  lemma ReassignSound(b: Board, from: string, to: string, amount: u64, additional: u64)
    requires Sound(b)
    ensures var r := Reassign(b, from, to, amount, additional);
      r.Ok? ==> Sound(r.value) && r.value.capacity == b.capacity
  {
    hide Sum, Bytes, Sound, Full, WithScore;
    if Reassign(b, from, to, amount, additional).Ok? {
      SourceSound(b, from, to, amount);
      var moved, score := WithScore(b, from, b.scores[from] - amount), Get(b.scores, to) + amount + additional;
      WithScoreSound(moved, to, score);
      WithScoreKeepsHeader(moved, to, score);
      SoundIgnoresRevision(WithScore(moved, to, score), b.revision + 1);
    }
  }

  lemma WithScoreKeepsHeader(b: Board, key: string, score: u64)
    ensures WithScore(b, key, score).capacity == b.capacity && WithScore(b, key, score).revision == b.revision
  {
  }

  lemma SoundIgnoresRevision(b: Board, revision: u64)
    requires Sound(b)
    ensures Sound(b.(revision := revision))
  {
  }

  lemma ExpireSound(b: Board, key: string, amount: u64)
    requires Sound(b) && key in b.scores && b.scores[key] >= amount
    ensures Expire(b, key, amount).Ok? ==> Sound(Expire(b, key, amount).value)
  {
    WithScoreSound(b, key, b.scores[key] - amount);
  }

  /** Only a spent revision keeps an expiry from taking its amount off its key. */
  lemma ExpireIsExact(b: Board, key: string, amount: u64)
    requires WellKeyed(b.scores, b.metadata) && key in b.scores && b.scores[key] >= amount
    ensures Expire(b, key, amount).Ok? <==> b.revision < U64_MAX
    ensures Expire(b, key, amount).Ok? ==> Moves(b.scores, Expire(b, key, amount).value.scores, key, amount, key, 0)
  {
    hide Bytes;
  }

  /** Conservation: an expiry takes its amount off the grand total. */
  lemma ExpireTotal(b: Board, key: string, amount: u64)
    requires key in b.scores && b.scores[key] >= amount
    ensures Sum(WithScore(b, key, b.scores[key] - amount).scores) == Sum(b.scores) - amount
    ensures amount <= Sum(b.scores)
  {
    hide Sum;
    SumWithScore(b, key, b.scores[key] - amount);
    SumBoundsParts(b.scores, key, key);
  }

  lemma WithMetadataSound(b: Board, key: string, metadata: Metadata)
    requires Sound(b)
    ensures var r := WithMetadata(b, key, metadata);
      Sound(r) && r == b.(metadata := r.metadata)
  {
  }

  /** Conservation: applying adds exactly the value to the grand total. */
  lemma ApplyTotal(b: Board, key: string, delta: u64, weight: u64)
    requires Apply(b, key, delta, weight).Ok?
    ensures Sum(Apply(b, key, delta, weight).value.scores) == Sum(b.scores) + delta * weight
  {
    SumBoundsParts(b.scores, key, key);
    if delta * weight != 0 { SumUpdate(b.scores, key, Get(b.scores, key) + delta * weight); }
  }

  /** Conservation: a reassignment changes the grand total only by the additional score. */
  lemma ReassignTotal(b: Board, from: string, to: string, amount: u64, additional: u64)
    requires Reassign(b, from, to, amount, additional).Ok?
    ensures Sum(Reassign(b, from, to, amount, additional).value.scores) == Sum(b.scores) + additional
  {
    var moved := WithScore(b, from, b.scores[from] - amount);
    SumWithScore(b, from, b.scores[from] - amount);
    SumWithScore(moved, to, Get(b.scores, to) + amount + additional);
  }

  // ---- what is accepted ----------------------------------------------------

  /** Scores after one key lost an amount and one gained one: keys without score do not stay. */
  ghost predicate Moves(before: map<string, u64>, after: map<string, u64>, from: string, lost: nat, to: string,
                        gained: nat)
  {
    && (forall key ::
         Get(after, key) == Get(before, key) - (if key == from then lost else 0) + (if key == to then gained else 0))
    && (forall key :: key in after ==> after[key] > 0)
  }

  /** The scores after a value for one key fit the board. */
  ghost predicate CreditFits(b: Board, key: string, value: nat) {
    exists after :: Moves(b.scores, after, key, 0, key, value) && Fits(after, b.capacity)
  }

  /** A map without zeros is determined by its values. */
  lemma SameScoresFromGet(a: map<string, u64>, b: map<string, u64>)
    requires forall k :: Get(a, k) == Get(b, k)
    requires forall k :: k in a ==> a[k] > 0
    requires forall k :: k in b ==> b[k] > 0
    ensures a == b
  {
    forall k ensures (k in a <==> k in b) && (k in a ==> a[k] == b[k]) {
      assert Get(a, k) == Get(b, k);
    }
  }

  /** The scores after a move fit the board. */
  ghost predicate MoveFits(b: Board, from: string, lost: nat, to: string, gained: nat) {
    exists after :: Moves(b.scores, after, from, lost, to, gained) && Fits(after, b.capacity)
  }

  /** A board after a move that nothing refused. */
  function Moved(b: Board, from: string, lost: nat, to: string, gained: nat): Board
    requires lost <= Get(b.scores, from) && Get(b.scores, to) + gained <= U64_MAX
  {
    WithScore(WithScore(b, from, Get(b.scores, from) - lost), to, Get(b.scores, to) + gained)
  }

  lemma MovedScores(b: Board, from: string, lost: nat, to: string, gained: nat)
    requires WellKeyed(b.scores, b.metadata) && from != to
    requires lost <= Get(b.scores, from) && Get(b.scores, to) + gained <= U64_MAX
    ensures Moves(b.scores, Moved(b, from, lost, to, gained).scores, from, lost, to, gained)
  {
    hide Bytes;
  }

  /** How many keys a move leaves, and their sum. */
  lemma MovedSize(b: Board, from: string, lost: nat, to: string, gained: nat)
    requires from != to && lost <= Get(b.scores, from) && Get(b.scores, to) + gained <= U64_MAX
    ensures var after := Moved(b, from, lost, to, gained).scores;
      && Sum(after) == Sum(b.scores) - lost + gained
      && |after| == |b.scores|
           - (if from in b.scores then 1 else 0) + (if Get(b.scores, from) > lost then 1 else 0)
           - (if to in b.scores then 1 else 0) + (if Get(b.scores, to) + gained > 0 then 1 else 0)
  {
    hide Sum, WithScore;
    var left := WithScore(b, from, Get(b.scores, from) - lost);
    OtherKeysStay(b, from, Get(b.scores, from) - lost, to);
    SumWithScore(b, from, Get(b.scores, from) - lost);
    SumWithScore(left, to, Get(b.scores, to) + gained);
    WithScoreSize(b, from, Get(b.scores, from) - lost);
    WithScoreSize(left, to, Get(b.scores, to) + gained);
  }

  lemma OtherKeysStay(b: Board, key: string, score: u64, other: string)
    requires key != other
    ensures var after := WithScore(b, key, score).scores;
      Get(after, other) == Get(b.scores, other) && (other in after <==> other in b.scores)
  {
  }

  lemma MovesIsUnique(before: map<string, u64>, a: map<string, u64>, b: map<string, u64>, from: string, lost: nat,
                      to: string, gained: nat)
    requires Moves(before, a, from, lost, to, gained) && Moves(before, b, from, lost, to, gained)
    ensures a == b
  {
    forall k ensures Get(a, k) == Get(b, k) {}
    SameScoresFromGet(a, b);
  }

  /** Scores after a move exist within words exactly when the target does, and they are the moved board's. */
  lemma MoveFitsExactly(b: Board, from: string, lost: nat, to: string, gained: nat)
    requires WellKeyed(b.scores, b.metadata) && from != to && lost <= Get(b.scores, from)
    ensures MoveFits(b, from, lost, to, gained) <==>
      Get(b.scores, to) + gained <= U64_MAX && Fits(Moved(b, from, lost, to, gained).scores, b.capacity)
  {
    hide Sum, Bytes, Moves;
    if Get(b.scores, to) + gained <= U64_MAX {
      MovedScores(b, from, lost, to, gained);
      if after :| Moves(b.scores, after, from, lost, to, gained) && Fits(after, b.capacity) {
        MovesIsUnique(b.scores, after, Moved(b, from, lost, to, gained).scores, from, lost, to, gained);
      }
    } else if after :| Moves(b.scores, after, from, lost, to, gained) && Fits(after, b.capacity) {
      TargetMoves(b.scores, after, from, lost, to, gained);
    }
  }

  lemma TargetMoves(before: map<string, u64>, after: map<string, u64>, from: string, lost: nat, to: string,
                    gained: nat)
    requires Moves(before, after, from, lost, to, gained) && from != to
    ensures Get(after, to) == Get(before, to) + gained
  {
  }

  lemma CreditedMoves(b: Board, key: string, value: nat)
    requires WellKeyed(b.scores, b.metadata) && Get(b.scores, key) + value <= U64_MAX
    ensures value == 0 ==> Moves(b.scores, b.scores, key, 0, key, value)
    ensures value > 0 ==> Moves(b.scores, b.scores[key := Get(b.scores, key) + value], key, 0, key, value)
  {
    hide Bytes;
  }

  lemma CreditFitsExactly(b: Board, key: string, value: nat)
    requires Sound(b)
    ensures value > 0 ==> (CreditFits(b, key, value) <==> !Full(b, key) && Sum(b.scores) + value <= U64_MAX)
  {
    hide Sum, Bytes, Moves, WellKeyed;
    SumBoundsParts(b.scores, key, key);
    if value > 0 && Get(b.scores, key) + value <= U64_MAX {
      var credited := b.scores[key := Get(b.scores, key) + value];
      CreditedMoves(b, key, value);
      SumUpdate(b.scores, key, Get(b.scores, key) + value);
      SizeWithKey(b.scores, key, Get(b.scores, key) + value);
      if after :| Moves(b.scores, after, key, 0, key, value) && Fits(after, b.capacity) {
        MovesIsUnique(b.scores, after, credited, key, 0, key, value);
      }
    } else if after :| value > 0 && Moves(b.scores, after, key, 0, key, value) && Fits(after, b.capacity) {
      KeyMoves(b.scores, after, key, value);
    }
  }

  lemma KeyMoves(before: map<string, u64>, after: map<string, u64>, key: string, value: nat)
    requires Moves(before, after, key, 0, key, value)
    ensures Get(after, key) == Get(before, key) + value
  {
  }

  /**
   * A reassignment is accepted exactly when both keys are valid and different, the source holds the amount, the
   * scores after the move fit the board, and the revision is not spent; and those are then its scores.
   */
  lemma ReassignIsExact(b: Board, from: string, to: string, amount: u64, additional: u64)
    requires Sound(b)
    ensures var r := Reassign(b, from, to, amount, additional);
      && (r.Ok? <==>
           && ValidKey(from) && ValidKey(to) && from != to && from in b.scores && amount <= b.scores[from]
           && MoveFits(b, from, amount, to, amount + additional) && b.revision < U64_MAX)
      && (r.Ok? ==> Moves(b.scores, r.value.scores, from, amount, to, amount + additional))
      && (r == Err(InvalidKey) <==> !ValidKey(from) || !ValidKey(to) || from == to)
      && (r == Err(Capacity) ==>
           forall after :: Moves(b.scores, after, from, amount, to, amount + additional) ==> |after| > b.capacity)
  {
    hide Sum, Bytes, Moves, WithScore, MoveFits, WellKeyed;
    if from in b.scores && amount <= b.scores[from] && from != to {
      MoveFitsExactly(b, from, amount, to, amount + additional);
      SumBoundsParts(b.scores, from, to);
      if Get(b.scores, to) + amount + additional <= U64_MAX {
        MovedScores(b, from, amount, to, amount + additional);
        MovedSize(b, from, amount, to, amount + additional);
        var moved := Moved(b, from, amount, to, amount + additional).scores;
        forall after | Moves(b.scores, after, from, amount, to, amount + additional) ensures |after| == |moved| {
          MovesIsUnique(b.scores, after, moved, from, amount, to, amount + additional);
        }
      }
    }
  }

  /** A contribution is accepted exactly when its key is valid and it is worth nothing, or what it makes fits. */
  lemma ApplyIsExact(b: Board, key: string, delta: u64, weight: u64)
    requires Sound(b)
    ensures var r := Apply(b, key, delta, weight);
      && (r.Ok? <==>
           && ValidKey(key)
           && (delta * weight == 0 || (CreditFits(b, key, delta * weight) && b.revision < U64_MAX)))
      && (r.Ok? ==> Moves(b.scores, r.value.scores, key, 0, key, delta * weight))
  {
    hide Sum, Bytes, Moves, CreditFits, WellKeyed;
    CreditFitsExactly(b, key, delta * weight);
    SumBoundsParts(b.scores, key, key);
    if Get(b.scores, key) + delta * weight <= U64_MAX { CreditedMoves(b, key, delta * weight); }
  }

  /** The order in which accepted contributions arrive does not matter. */
  lemma ApplyCommutes(b: Board, first: string, second: string, delta1: u64, weight1: u64, delta2: u64, weight2: u64)
    requires Apply(b, first, delta1, weight1).Ok?
    requires Apply(Apply(b, first, delta1, weight1).value, second, delta2, weight2).Ok?
    ensures Apply(b, second, delta2, weight2).Ok?
    ensures Apply(Apply(b, second, delta2, weight2).value, first, delta1, weight1)
         == Apply(Apply(b, first, delta1, weight1).value, second, delta2, weight2)
  {
    hide Bytes, Credit;
    CreditCommutes(b, first, second, delta1 * weight1, delta2 * weight2);
  }

  lemma CreditCommutes(b: Board, first: string, second: string, v1: u64, v2: u64)
    requires Credit(b, first, v1).Ok? && Credit(Credit(b, first, v1).value, second, v2).Ok?
    ensures Credit(b, second, v2).Ok?
    ensures Credit(Credit(b, second, v2).value, first, v1) == Credit(Credit(b, first, v1).value, second, v2)
  {
    hide Sum, Full;
    if v1 > 0 && v2 > 0 {
      Credited(b, first, v1);
      Credited(Credit(b, first, v1).value, second, v2);
      RoomIsShared(b, first, second, Get(b.scores, first) + v1, Get(b.scores, second) + v2, b.revision + 1);
      assert Credit(b, second, v2).Ok?;
      Credited(b, second, v2);
      var other := Credit(b, second, v2).value;
      assert Credit(other, first, v1).Ok?;
      Credited(other, first, v1);
      UpdatesCommute(b.scores, first, second, v1, v2);
    }
  }

  /** What an accepted value leaves. */
  lemma Credited(b: Board, key: string, value: u64)
    requires value > 0 && Credit(b, key, value).Ok?
    ensures !Full(b, key) && Get(b.scores, key) + value <= U64_MAX
    ensures Credit(b, key, value).value
         == b.(scores := b.scores[key := Get(b.scores, key) + value], revision := b.revision + 1)
    ensures Sum(Credit(b, key, value).value.scores) == Sum(b.scores) + value
  {
    hide Sum, Full;
    SumBoundsParts(b.scores, key, key);
    SumUpdate(b.scores, key, Get(b.scores, key) + value);
  }

  /** A board with room for two keys one after the other has room for them the other way round. */
  lemma RoomIsShared(b: Board, first: string, second: string, score1: u64, score2: u64, revision: u64)
    requires !Full(b, first) && !Full(b.(scores := b.scores[first := score1], revision := revision), second)
    ensures !Full(b, second) && !Full(b.(scores := b.scores[second := score2], revision := revision), first)
  {
    SizeWithKey(b.scores, first, score1);
    SizeWithKey(b.scores, second, score2);
  }

  lemma UpdatesCommute(scores: map<string, u64>, first: string, second: string, v1: u64, v2: u64)
    requires Get(scores, first) + v1 <= U64_MAX && Get(scores, second) + v2 <= U64_MAX
    requires first == second ==> Get(scores, first) + v1 + v2 <= U64_MAX
    ensures var a, z := scores[first := Get(scores, first) + v1], scores[second := Get(scores, second) + v2];
      a[second := Get(a, second) + v2] == z[first := Get(z, first) + v1]
  {
  }

  // ---- snapshots -----------------------------------------------------------

  datatype Entry = Entry(key: string, rank: nat, score: u64, caption: string, metadata: Metadata)

  function Display(b: Board, key: string, score: u64): Entry {
    var fields := Described(b, key);
    Entry(key, 0, score, if Label in fields then fields[Label] else key, fields - {Label})
  }

  function DisplayAll(b: Board, order: seq<Ranked>): (r: seq<Entry>)
    ensures |r| == |order|
    ensures forall i :: 0 <= i < |r| ==> r[i] == Display(b, order[i].key, order[i].score)
  {
    seq(|order|, i requires 0 <= i < |order| => Display(b, order[i].key, order[i].score))
  }

  /** The first `limit` entries in order, not yet numbered. */
  ghost function Candidates(b: Board, limit: nat): seq<Entry> {
    DisplayAll(b, Take(FullOrder(b.scores), limit))
  }

  predicate EntryBefore(a: Entry, b: Entry) {
    RankedBefore(Ranked(a.score, a.key), Ranked(b.score, b.key))
  }

  function Numbered(entries: seq<Entry>): (r: seq<Entry>)
    ensures |r| == |entries|
    ensures forall i :: 0 <= i < |r| ==> r[i] == entries[i].(rank := i + 1)
  {
    seq(|entries|, i requires 0 <= i < |entries| => entries[i].(rank := i + 1))
  }

  /** Sorting, cutting to the limit and numbering from one. */
  function Rank(entries: seq<Entry>, limit: nat): seq<Entry> {
    Numbered(Take(InsertionSort(EntryBefore, entries), limit))
  }

  ghost function Ranking(b: Board, limit: nat): seq<Entry> {
    Rank(Candidates(b, limit), limit)
  }

  lemma EntryOrderIsWeak()
    ensures StrictWeak(EntryBefore)
  {
    RankedIsStrictTotal();
    forall a: Entry, b: Entry, c: Entry | EntryBefore(a, b) ensures EntryBefore(a, c) || EntryBefore(c, b) {
      var x, y, z := Ranked(a.score, a.key), Ranked(b.score, b.key), Ranked(c.score, c.key);
      assert x == z || RankedBefore(x, z) || RankedBefore(z, x);
    }
  }

  /** Entries numbered from one are some of the given ones, in order, and nothing left out would go before them. */
  ghost predicate RankedFrom(entries: seq<Entry>, limit: nat, ranked: seq<Entry>) {
    exists sorted: seq<Entry> {:trigger multiset(sorted)} ::
      && multiset(sorted) == multiset(entries)
      && InOrder(EntryBefore, sorted)
      && ranked == Numbered(Take(sorted, limit))
  }

  lemma RankSorts(entries: seq<Entry>, limit: nat)
    ensures RankedFrom(entries, limit, Rank(entries, limit))
  {
    EntryOrderIsWeak();
    SortingSorts(EntryBefore, entries);
    assert multiset(InsertionSort(EntryBefore, entries)) == multiset(entries);
  }

  /** Ranking a snapshot only numbers it: the index already delivers it sorted. */
  lemma RankingInOrder(b: Board, limit: nat)
    ensures Ranking(b, limit) == Numbered(Candidates(b, limit))
  {
    var order := Take(FullOrder(b.scores), limit);
    var entries := Candidates(b, limit);
    forall i, j | 0 <= i < j < |entries| ensures EntryBefore(entries[i], entries[j]) {
      assert RankedBefore(order[i], order[j]);
      assert order[i] == Ranked(entries[i].score, entries[i].key);
    }
    EntryOrderIsWeak();
    SortingSortedChangesNothing(EntryBefore, entries);
  }

  /** A snapshot of `k` entries is the first `k` of every larger one. */
  lemma SnapshotIsPrefix(b: Board, k: nat, n: nat)
    requires k <= n
    ensures Ranking(b, k) == Take(Ranking(b, n), k)
  {
    hide Display, Ranking;
    RankingInOrder(b, k);
    RankingInOrder(b, n);
    PrefixOfCandidates(b, k, n);
    NumberedPrefix(Candidates(b, n), k);
  }

  lemma PrefixOfCandidates(b: Board, k: nat, n: nat)
    requires k <= n
    ensures Candidates(b, k) == Take(Candidates(b, n), k)
  {
    hide Display;
    assert Take(FullOrder(b.scores), k) == Take(Take(FullOrder(b.scores), n), k);
  }

  lemma NumberedPrefix(entries: seq<Entry>, k: nat)
    ensures Numbered(Take(entries, k)) == Take(Numbered(entries), k)
  {
  }

  /**
   * What a snapshot shows: the best `n` participants or all of them, each with its own score,
   * ranked 1, 2, 3 and so on.
   */
  lemma SnapshotShowsScores(b: Board, n: nat)
    ensures |Ranking(b, n)| == Min(n, |b.scores|)
    ensures forall i :: 0 <= i < |Ranking(b, n)| ==>
      var e := Ranking(b, n)[i];
      e.rank == i + 1 && e.key in b.scores && e.score == b.scores[e.key]
  {
    RankingInOrder(b, n);
    FullOrderSize(b.scores);
    var full := FullOrder(b.scores);
    var top := Ranking(b, n);
    forall i | 0 <= i < |top|
      ensures top[i].rank == i + 1 && top[i].key in b.scores && top[i].score == b.scores[top[i].key]
    {
      assert full[i] == Ranked(top[i].score, top[i].key);
      assert full[i] in Elements(full);
      assert full[i] in Pairs(b.scores);
    }
  }

  predicate Shown(entries: seq<Entry>, key: string) {
    exists j :: 0 <= j < |entries| && entries[j].key == key
  }

  lemma SnapshotIsInOrder(b: Board, n: nat)
    ensures forall i, j :: 0 <= i < j < |Ranking(b, n)| ==> EntryBefore(Ranking(b, n)[i], Ranking(b, n)[j])
  {
    hide RankedBefore;
    RankingInOrder(b, n);
    var full := FullOrder(b.scores);
    var top := Ranking(b, n);
    forall i, j | 0 <= i < j < |top| ensures EntryBefore(top[i], top[j]) {
      assert full[i] == Ranked(top[i].score, top[i].key) && full[j] == Ranked(top[j].score, top[j].key);
      assert RankedBefore(full[i], full[j]);
    }
  }

  /** Whoever a snapshot does not show comes after everyone it shows. */
  lemma NobodyIsLeftOut(b: Board, n: nat, i: nat, key: string)
    requires i < |Ranking(b, n)| && key in b.scores
    ensures Shown(Ranking(b, n), key) || EntryBefore(Ranking(b, n)[i], Display(b, key, b.scores[key]))
  {
    hide RankedBefore;
    RankingInOrder(b, n);
    var full := FullOrder(b.scores);
    var top := Ranking(b, n);
    assert full[i] == Ranked(top[i].score, top[i].key);
    assert Ranked(b.scores[key], key) in Elements(full);
    var m :| 0 <= m < |full| && full[m] == Ranked(b.scores[key], key);
    if m < |top| {
      assert top[m].key == key;
    } else {
      assert RankedBefore(full[i], full[m]);
    }
  }

  /** Higher scores come first, and of equal scores the key that sorts first. */
  predicate Outranks(score: u64, key: string, than: u64, thanKey: string) {
    score > than || (score == than && TextBefore(key, thanKey))
  }

  /** A snapshot is ordered, and nobody outside it would have ranked inside it. */
  lemma SnapshotIsTop(b: Board, n: nat)
    ensures forall i, j :: 0 <= i < j < |Ranking(b, n)| ==>
      var (x, y) := (Ranking(b, n)[i], Ranking(b, n)[j]); Outranks(x.score, x.key, y.score, y.key)
    ensures forall i, key :: 0 <= i < |Ranking(b, n)| && key in b.scores ==>
      var x := Ranking(b, n)[i]; Shown(Ranking(b, n), key) || Outranks(x.score, x.key, b.scores[key], key)
  {
    hide Shown, Ranking;
    SnapshotIsInOrder(b, n);
    forall i, j | 0 <= i < j < |Ranking(b, n)|
      ensures var (x, y) := (Ranking(b, n)[i], Ranking(b, n)[j]); Outranks(x.score, x.key, y.score, y.key)
    {
      assert EntryBefore(Ranking(b, n)[i], Ranking(b, n)[j]);
    }
    forall i, key | 0 <= i < |Ranking(b, n)| && key in b.scores
      ensures var x := Ranking(b, n)[i]; Shown(Ranking(b, n), key) || Outranks(x.score, x.key, b.scores[key], key)
    {
      NobodyIsLeftOut(b, n, i, key);
    }
  }
}
