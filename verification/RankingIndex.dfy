/** The incremental ordered projection of authoritative scores. */
module RankingIndex {
  import opened Common
  import opened Ordering

  datatype Ranked = Ranked(score: u64, key: string)

  /** Higher scores first; ties in key order, whatever the order of arrival. */
  predicate RankedBefore(a: Ranked, b: Ranked) {
    a.score > b.score || (a.score == b.score && TextBefore(a.key, b.key))
  }

  lemma RankedIsStrictTotal()
    ensures StrictTotal(RankedBefore)
  {
    TextIsStrictTotal();
  }

  /** What the index of a score map must contain. */
  ghost function Pairs(scores: map<string, u64>): set<Ranked> {
    set key | key in scores :: Ranked(scores[key], key)
  }

  ghost function AtMostOne(score: Option<u64>, key: string): set<Ranked> {
    if score.Some? then {Ranked(score.value, key)} else {}
  }

  /** Replacing one score of a map replaces one pair of its index. */
  lemma PairsUpdate(scores: map<string, u64>, key: string, score: u64)
    ensures Pairs(scores[key := score])
         == Pairs(scores) - AtMostOne(Lookup(scores, key), key) + {Ranked(score, key)}
  {
    forall p ensures p in Pairs(scores[key := score])
                <==> p in Pairs(scores) - AtMostOne(Lookup(scores, key), key) + {Ranked(score, key)} {
      if p.key != key && p in Pairs(scores[key := score]) {
        assert p.key in scores && scores[p.key] == p.score;
      }
      if p.key in scores && scores[p.key] == p.score && p.key != key {
        assert p.key in scores[key := score];
        assert p in Pairs(scores[key := score]);
      }
      assert key in scores[key := score];
    }
  }

  lemma PairsRemove(scores: map<string, u64>, key: string)
    ensures Pairs(scores - {key}) == Pairs(scores) - AtMostOne(Lookup(scores, key), key)
  {
    forall p ensures p in Pairs(scores - {key})
                <==> p in Pairs(scores) - AtMostOne(Lookup(scores, key), key) {
      if p in Pairs(scores) && p.key != key {
        assert p.key in scores - {key};
      }
    }
  }

  /** A map's index has one pair a key. */
  lemma PairsSize(scores: map<string, u64>)
    ensures |Pairs(scores)| == |scores|
    decreases |scores|
  {
    if scores == map[] {
      assert Pairs(scores) == {};
    } else {
      var key :| key in scores;
      PairsSize(scores - {key});
      PairsRemove(scores, key);
      assert Ranked(scores[key], key) in Pairs(scores);
    }
  }

  /** The sorted index of a score map. */
  ghost function FullOrder(scores: map<string, u64>): (r: seq<Ranked>)
    ensures Sorted(RankedBefore, r) && Elements(r) == Pairs(scores)
  {
    RankedIsStrictTotal();
    Listing(RankedBefore, Pairs(scores))
  }

  lemma FullOrderSize(scores: map<string, u64>)
    ensures |FullOrder(scores)| == |scores|
  {
    RankedIsStrictTotal();
    SortedSize(RankedBefore, FullOrder(scores));
    PairsSize(scores);
  }

  class RankingIndex {
    var entries: seq<Ranked>

    ghost predicate Valid()
      reads this
    {
      Sorted(RankedBefore, entries)
    }

    constructor ()
      ensures Valid() && entries == []
    {
      entries := [];
    }

    /** Replace a previously indexed score. `None` removes or creates an entry. */
    method Update(key: string, previous: Option<u64>, next: Option<u64>)
      requires Valid()
      modifies this
      ensures Valid()
      ensures Elements(entries) == old(Elements(entries)) - AtMostOne(previous, key) + AtMostOne(next, key)
    {
      RankedIsStrictTotal();
      if previous.Some? {
        RemoveFromSorted(RankedBefore, entries, Ranked(previous.value, key));
        entries := Ordering.Remove(entries, Ranked(previous.value, key));
      }
      if next.Some? {
        InsertKeepsSorted(RankedBefore, entries, Ranked(next.value, key));
        entries := Insert(RankedBefore, entries, Ranked(next.value, key));
      }
    }

    method Clear()
      modifies this
      ensures Valid() && entries == []
    {
      entries := [];
    }

    /** A valid index of a score map is that map's only sorted order. */
    lemma IsFullOrder(scores: map<string, u64>)
      requires Valid() && Elements(entries) == Pairs(scores)
      ensures entries == FullOrder(scores)
    {
      RankedIsStrictTotal();
      SortedListingIsUnique(RankedBefore, entries, FullOrder(scores));
    }

    /** At most `limit` entries, best first, and no entry is better than one of them without being one. */
    method Top(limit: nat) returns (top: seq<Ranked>)
      requires Valid()
      ensures top <= entries && |top| == Min(limit, |entries|)
      ensures Sorted(RankedBefore, top)
      ensures forall t, e :: t in top && e in entries && e !in top ==> RankedBefore(t, e)
    {
      top := Take(entries, limit);
      forall t, e | t in top && e in entries && e !in top ensures RankedBefore(t, e) {
        var i :| 0 <= i < |top| && top[i] == t;
        assert entries == top + entries[|top|..];
        var j :| |top| <= j < |entries| && entries[j] == e;
        assert RankedBefore(entries[i], entries[j]);
      }
    }
  }
}
