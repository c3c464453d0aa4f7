/**
 * The incremental board: a score map, a running total and an ordered index that every operation
 * updates in place, proved against the board they stand for.
 */
module Aggregation {
  import opened Common
  import opened Ordering
  import opened Totals
  import opened Model
  import opened RankingIndex
  import opened Boards

  /** An operation that fails leaves the board as it was. */
  ghost predicate Outcome(before: Board, after: Board, r: Result<(), Error>, expected: Result<Board, Error>) {
    match expected
    case Ok(b) => r == Ok(()) && after == b
    case Err(e) => r == Err(e) && after == before
  }

  class Aggregation {
    var scores: map<string, u64>
    var metadata: map<string, Metadata>
    const index: RankingIndex
    var capacity: nat
    var total: u64
    var revision: u64

    /** The board this object stands for. */
    ghost function View(): Board
      reads this
    {
      Board(scores, metadata, capacity, revision)
    }

    ghost predicate Valid()
      reads this, index
    {
      && index.Valid()
      && Elements(index.entries) == Pairs(scores)
      && total == Sum(scores)
      && Sound(View())
    }

    ghost function Repr(): set<object> {
      {this, index}
    }

    constructor (capacity: nat)
      ensures Valid() && fresh(this) && fresh(index)
      ensures View() == EmptyBoard(capacity)
    {
      scores, metadata := map[], map[];
      index := new RankingIndex();
      this.capacity, total, revision := capacity, 0, 0;
      new;
      assert Pairs(scores) == {};
      assert Elements(index.entries) == {};
    }

    /** Stores one score, or removes the key at zero, and keeps the index in step. */
    method Put(key: string, score: u64)
      requires index.Valid() && Elements(index.entries) == Pairs(scores)
      modifies this`scores, this`metadata, index
      ensures index.Valid() && Elements(index.entries) == Pairs(scores)
      ensures View() == WithScore(old(View()), key, score)
    {
      var previous := Lookup(scores, key);
      PairsWithScore(scores, key, score);
      if score == 0 {
        scores, metadata := scores - {key}, metadata - {key};
      } else {
        scores := scores[key := score];
      }
      index.Update(key, previous, if score > 0 then Some(score) else None);
    }

    method Apply(key: string, delta: u64, weight: u64) returns (r: Result<(), Error>)
      requires Valid()
      modifies this, index
      ensures Valid()
      ensures Outcome(old(View()), View(), r, Boards.Apply(old(View()), key, delta, weight))
    {
      hide Sum, WellKeyed, Bytes;
      ApplySound(View(), key, delta, weight);
      SumBoundsParts(scores, key, key);
      if key == "" || Bytes(key) > 512 {
        return Err(InvalidKey);
      }
      if delta * weight > U64_MAX {
        return Err(Overflow);
      }
      var value: u64 := delta * weight;
      if value == 0 {
        return Ok(());
      }
      if key !in scores && |scores| >= capacity {
        return Err(Capacity);
      }
      if Get(scores, key) + value > U64_MAX {
        return Err(Overflow);
      }
      var score: u64 := Get(scores, key) + value;
      if total + value > U64_MAX {
        return Err(Overflow);
      }
      if revision == U64_MAX {
        return Err(Overflow);
      }
      ApplyTotal(View(), key, delta, weight);
      Put(key, score);
      total := total + value;
      revision := revision + 1;
      return Ok(());
    }

    method UpdateMetadata(key: string, fields: Metadata)
      requires Valid()
      modifies this`metadata
      ensures Valid()
      ensures View() == WithMetadata(old(View()), key, fields)
    {
      WithMetadataSound(View(), key, fields);
      if key in scores {
        metadata := metadata[key := (if key in metadata then metadata[key] else map[]) + Bounded(fields)];
      }
    }

    /** Moves accounted score to another group and adds an optional new score. */
    method Reassign(from: string, to: string, amount: u64, additional: u64) returns (r: Result<(), Error>)
      requires Valid()
      modifies this, index
      ensures Outcome(old(View()), View(), r, Boards.Reassign(old(View()), from, to, amount, additional))
      ensures Valid()
    {
      hide Sum, WellKeyed, Bytes;
      ghost var before := View();
      ReassignSound(before, from, to, amount, additional);
      SumBoundsParts(scores, from, to);
      if from == "" || to == "" || Bytes(from) > 512 || Bytes(to) > 512 || from == to {
        return Err(InvalidKey);
      }
      if from !in scores {
        return Err(InsufficientScore);
      }
      var oldSource := scores[from];
      if oldSource < amount {
        return Err(InsufficientScore);
      }
      var newSource: u64 := oldSource - amount;
      var oldTarget := Lookup(scores, to);
      if Get(scores, to) + amount > U64_MAX || Get(scores, to) + amount + additional > U64_MAX {
        return Err(Overflow);
      }
      var newTarget: u64 := Get(scores, to) + amount + additional;
      if newTarget > 0 && oldTarget.None? && newSource > 0 && |scores| >= capacity {
        return Err(Capacity);
      }
      if total + additional > U64_MAX {
        return Err(Overflow);
      }
      if revision == U64_MAX {
        return Err(Overflow);
      }
      ReassignTotal(before, from, to, amount, additional);
      ghost var moved := WithScore(before, from, newSource);
      assert Get(moved.scores, to) == Get(before.scores, to);
      Put(from, newSource);
      Put(to, newTarget);
      assert View() == WithScore(moved, to, newTarget);
      assert Sum(scores) == total + additional;
      total := total + additional;
      revision := revision + 1;
      return Ok(());
    }

    /** Takes an expired contribution off the key it was counted under. */
    method Expire(key: string, amount: u64) returns (r: Result<(), Error>)
      requires Valid()
      requires key in scores && scores[key] >= amount
      modifies this, index
      ensures Valid()
      ensures Outcome(old(View()), View(), r, Boards.Expire(old(View()), key, amount))
    {
      hide Sum, Sound, Bytes, WithScore;
      ExpireSound(View(), key, amount);
      ExpireTotal(View(), key, amount);
      if revision == U64_MAX {
        return Err(Overflow);
      }
      var score: u64 := scores[key] - amount;
      WithScoreKeepsHeader(View(), key, score);
      Put(key, score);
      total := total - amount;
      revision := revision + 1;
      return Ok(());
    }

    method Touch() returns (r: Result<(), Error>)
      requires Valid()
      modifies this`revision
      ensures Valid()
      ensures Outcome(old(View()), View(), r, Bump(old(View())))
    {
      if revision == U64_MAX {
        return Err(Overflow);
      }
      revision := revision + 1;
      return Ok(());
    }

    /** The new limit evicts nobody; the board is sound again as long as its participants fit. */
    method SetCapacity(capacity: nat)
      requires Valid()
      modifies this`capacity
      ensures Valid() <==> |scores| <= capacity
      ensures View() == old(View()).(capacity := capacity)
    {
      this.capacity := capacity;
    }

    method Reset() returns (r: Result<(), Error>)
      requires Valid()
      modifies this, index
      ensures Valid()
      ensures Outcome(old(View()), View(), r, Boards.Reset(old(View())))
    {
      if revision == U64_MAX {
        return Err(Overflow);
      }
      scores, metadata := map[], map[];
      index.Clear();
      assert Pairs(scores) == {};
      assert Elements(index.entries) == {};
      total, revision := 0, revision + 1;
      return Ok(());
    }

    /** Copies at most `limit` ordered candidates from the index. */
    method SnapshotCandidates(limit: nat) returns (entries: seq<Entry>)
      requires Valid()
      ensures entries == Candidates(View(), limit)
    {
      hide Sum, WellKeyed, Bytes, RankedBefore, Fits;
      index.IsFullOrder(scores);
      var top := index.Top(limit);
      assert top == Take(FullOrder(scores), limit);
      entries := [];
      for i := 0 to |top|
        invariant entries == DisplayAll(View(), top[..i])
      {
        var key, score := top[i].key, top[i].score;
        var fields := if key in metadata then metadata[key] else map[];
        var caption := if Label in fields then fields[Label] else key;
        entries := entries + [Entry(key, 0, score, caption, fields - {Label})];
        assert top[..i + 1] == top[..i] + [top[i]];
      }
      assert top[..|top|] == top;
    }
  }

  /** Sorts, cuts and then numbers the entries of a snapshot in place. */
  method RankEntries(entries: seq<Entry>, limit: nat) returns (ranked: seq<Entry>)
    ensures ranked == Rank(entries, limit) && RankedFrom(entries, limit, ranked)
  {
    RankSorts(entries, limit);
    ranked := Take(InsertionSort(EntryBefore, entries), limit);
    ghost var cut := ranked;
    for i := 0 to |ranked|
      invariant |ranked| == |cut|
      invariant forall k :: 0 <= k < i ==> ranked[k] == cut[k].(rank := k + 1)
      invariant forall k :: i <= k < |ranked| ==> ranked[k] == cut[k]
    {
      ranked := ranked[i := ranked[i].(rank := i + 1)];
    }
  }

  lemma PairsWithScore(scores: map<string, u64>, key: string, score: u64)
    ensures Pairs(if score == 0 then scores - {key} else scores[key := score])
         == Pairs(scores) - AtMostOne(Lookup(scores, key), key)
          + AtMostOne(if score > 0 then Some(score) else None, key)
  {
    PairsUpdate(scores, key, score);
    PairsRemove(scores, key);
  }
}
