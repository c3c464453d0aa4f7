/** Sums over score maps and over event lists, in unbounded arithmetic. */
module Totals {
  import opened Common

  /** Sum of every value held by a map. */
  ghost function Sum<K(!new)>(m: map<K, u64>): nat
    decreases |m|
  {
    if m == map[] then 0
    else
      var k :| k in m;
      m[k] + Sum(m - {k})
  }

  /** The sum does not depend on which key is taken out first. */
  lemma {:induction false} SumWithout<K(!new)>(m: map<K, u64>, k: K)
    requires k in m
    ensures Sum(m) == m[k] + Sum(m - {k})
    decreases |m|
  {
    assert m != map[];
    var j :| j in m && Sum(m) == m[j] + Sum(m - {j});
    if j != k {
      SumWithout(m - {j}, k);
      SumWithout(m - {k}, j);
      assert m - {j} - {k} == m - {k} - {j};
    }
  }

  lemma SumUpdate<K(!new)>(m: map<K, u64>, k: K, v: u64)
    ensures Sum(m[k := v]) == Sum(m) - Get(m, k) + v
  {
    SumWithout(m[k := v], k);
    if k in m {
      SumWithout(m, k);
      assert m[k := v] - {k} == m - {k};
    } else {
      assert m[k := v] - {k} == m;
    }
  }

  lemma SumRemove<K(!new)>(m: map<K, u64>, k: K)
    ensures Sum(m - {k}) == Sum(m) - Get(m, k)
  {
    if k in m {
      SumWithout(m, k);
    } else {
      assert m - {k} == m;
    }
  }

  /** One value, or two values of different keys, never exceed the sum. */
  lemma SumBoundsParts<K(!new)>(m: map<K, u64>, j: K, k: K)
    ensures Get(m, j) <= Sum(m)
    ensures j != k ==> Get(m, j) + Get(m, k) <= Sum(m)
  {
    SumRemove(m, j);
    SumRemove(m - {j}, k);
  }

  /** A contribution accepted into a ranking: when, under which key, by whom, how much. */
  datatype Event = Event(at: u64, key: string, score: u64)

  /** Everything the listed events add under one key. */
  function KeySum(events: seq<Event>, key: string): nat {
    if events == [] then 0
    else (if events[0].key == key then events[0].score else 0) + KeySum(events[1..], key)
  }

  lemma {:induction false} KeySumConcat(a: seq<Event>, b: seq<Event>, key: string)
    ensures KeySum(a + b, key) == KeySum(a, key) + KeySum(b, key)
  {
    if a == [] {
      assert a + b == b;
    } else {
      KeySumConcat(a[1..], b, key);
      assert (a + b)[1..] == a[1..] + b;
    }
  }

  lemma KeySumAppend(a: seq<Event>, e: Event, key: string)
    ensures KeySum(a + [e], key) == KeySum(a, key) + (if e.key == key then e.score else 0)
  {
    KeySumConcat(a, [e], key);
  }

  /** `scores` is exactly the per-key tally of `events`: no key without score, none missing. */
  ghost predicate IsTally(scores: map<string, u64>, events: seq<Event>) {
    && (forall key :: KeySum(events, key) == Get(scores, key))
    && (forall key :: key in scores ==> scores[key] > 0)
  }

  /** One more event adds its score to its own key's tally. */
  lemma TallyAppend(scores: map<string, u64>, events: seq<Event>, e: Event)
    requires IsTally(scores, events) && e.score > 0 && Get(scores, e.key) + e.score <= U64_MAX
    ensures IsTally(scores[e.key := Get(scores, e.key) + e.score], events + [e])
  {
    hide KeySum;
    var after := scores[e.key := Get(scores, e.key) + e.score];
    forall key ensures KeySum(events + [e], key) == Get(after, key) {
      KeySumAppend(events, e, key);
      assert KeySum(events, key) == Get(scores, key);
    }
  }

  /** A tally is determined by its events. */
  lemma TallyIsUnique(a: map<string, u64>, b: map<string, u64>, events: seq<Event>)
    requires IsTally(a, events) && IsTally(b, events)
    ensures a == b
  {
    forall key ensures (key in a <==> key in b) && (key in a ==> a[key] == b[key]) {
      assert KeySum(events, key) == Get(a, key) == Get(b, key);
    }
  }
}
