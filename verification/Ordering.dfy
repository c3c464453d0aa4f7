/** Ordered sets kept as sorted sequences, for any strict total order. */
module Ordering {

  ghost predicate StrictTotal<T(!new)>(lt: (T, T) -> bool) {
    && (forall a :: !lt(a, a))
    && (forall a, b, c :: lt(a, b) && lt(b, c) ==> lt(a, c))
    && (forall a, b :: a != b ==> lt(a, b) || lt(b, a))
  }

  predicate Sorted<T>(lt: (T, T) -> bool, s: seq<T>) {
    forall i, j :: 0 <= i < j < |s| ==> lt(s[i], s[j])
  }

  function Elements<T>(s: seq<T>): set<T> {
    set x | x in s
  }

  /** Insertion into an ordered set; an element already present stays once. */
  function Insert<T(==)>(lt: (T, T) -> bool, s: seq<T>, x: T): (r: seq<T>)
    ensures Elements(r) == Elements(s) + {x}
  {
    if s == [] then [x]
    else if x == s[0] then s
    else if lt(x, s[0]) then
      assert Elements([x] + s) == Elements(s) + {x};
      [x] + s
    else
      var r := Insert(lt, s[1..], x);
      assert Elements([s[0]] + r) == {s[0]} + Elements(r);
      assert Elements(s) == {s[0]} + Elements(s[1..]) by { assert s == [s[0]] + s[1..]; }
      [s[0]] + r
  }

  /** Removal from an ordered set; an absent element changes nothing. */
  function Remove<T(==)>(s: seq<T>, x: T): (r: seq<T>)
    ensures Elements(r) <= Elements(s) && Elements(s) <= Elements(r) + {x}
    ensures |r| <= |s|
  {
    if s == [] then []
    else if x == s[0] then
      assert s == [s[0]] + s[1..];
      s[1..]
    else
      var r := Remove(s[1..], x);
      assert Elements(s) == {s[0]} + Elements(s[1..]) by { assert s == [s[0]] + s[1..]; }
      assert Elements([s[0]] + r) == {s[0]} + Elements(r);
      [s[0]] + r
  }

  /** In a strictly sorted sequence the head does not occur again. */
  lemma HeadOccursOnce<T(!new)>(lt: (T, T) -> bool, s: seq<T>)
    requires StrictTotal(lt) && Sorted(lt, s) && s != []
    ensures s[0] !in s[1..]
  {
    forall m | 0 <= m < |s[1..]| ensures s[1..][m] != s[0] {
      assert lt(s[0], s[m + 1]);
    }
  }

  lemma {:induction false} InsertKeepsSorted<T(!new)>(lt: (T, T) -> bool, s: seq<T>, x: T)
    requires StrictTotal(lt) && Sorted(lt, s)
    ensures Sorted(lt, Insert(lt, s, x))
  {
    if s != [] && x != s[0] {
      if lt(x, s[0]) {
        forall j | 0 < j < |s| + 1 ensures lt(x, ([x] + s)[j]) {
          assert j == 1 || lt(s[0], s[j - 1]);
        }
      } else {
        InsertKeepsSorted(lt, s[1..], x);
        var r := Insert(lt, s[1..], x);
        forall k | 0 <= k < |r| ensures lt(s[0], r[k]) {
          assert r[k] in Elements(r);
          if r[k] != x {
            assert r[k] in Elements(s[1..]);
            var m :| 0 <= m < |s[1..]| && s[1..][m] == r[k];
            assert lt(s[0], s[m + 1]);
          }
        }
      }
    }
  }

  lemma {:induction false} RemoveFromSorted<T(!new)>(lt: (T, T) -> bool, s: seq<T>, x: T)
    requires StrictTotal(lt) && Sorted(lt, s)
    ensures Sorted(lt, Remove(s, x))
    ensures Elements(Remove(s, x)) == Elements(s) - {x}
  {
    if s != [] {
      assert s == [s[0]] + s[1..];
      if x == s[0] {
        HeadOccursOnce(lt, s);
      } else {
        RemoveFromSorted(lt, s[1..], x);
        var r := Remove(s[1..], x);
        forall k | 0 <= k < |r| ensures lt(s[0], r[k]) {
          assert r[k] in Elements(r);
          assert r[k] in Elements(s[1..]);
          var m :| 0 <= m < |s[1..]| && s[1..][m] == r[k];
          assert lt(s[0], s[m + 1]);
        }
      }
    }
  }

  /** The first element of a sorted sequence is below every other element. */
  lemma FirstIsLeast<T(!new)>(lt: (T, T) -> bool, s: seq<T>, x: T)
    requires StrictTotal(lt) && Sorted(lt, s) && s != [] && x in s && x != s[0]
    ensures lt(s[0], x)
  {
    var m :| 0 <= m < |s| && s[m] == x;
  }

  lemma HasElements<T>(s: seq<T>)
    requires s != []
    ensures Elements(s) != {}
  {
    assert s[0] in Elements(s);
  }

  /** A set has only one sorted listing. */
  lemma {:induction false} SortedListingIsUnique<T(!new)>(lt: (T, T) -> bool, a: seq<T>, b: seq<T>)
    requires StrictTotal(lt) && Sorted(lt, a) && Sorted(lt, b)
    requires Elements(a) == Elements(b)
    ensures a == b
  {
    if a == [] {
      if b != [] { HasElements(b); }
    } else {
      assert a[0] in Elements(a);
      assert b != [];
      assert b[0] in Elements(b);
      if a[0] != b[0] {
        FirstIsLeast(lt, a, b[0]);
        FirstIsLeast(lt, b, a[0]);
        assert false;
      }
      HeadOccursOnce(lt, a);
      HeadOccursOnce(lt, b);
      forall x ensures x in a[1..] <==> x in b[1..] {
        assert a == [a[0]] + a[1..] && b == [b[0]] + b[1..];
        assert x in Elements(a) <==> x in Elements(b);
      }
      assert Elements(a[1..]) == Elements(b[1..]);
      SortedListingIsUnique(lt, a[1..], b[1..]);
      assert a == [a[0]] + a[1..] && b == [b[0]] + b[1..];
    }
  }

  /** The sorted listing of a finite set. */
  ghost function Listing<T(!new)>(lt: (T, T) -> bool, s: set<T>): (r: seq<T>)
    requires StrictTotal(lt)
    ensures Sorted(lt, r) && Elements(r) == s
  {
    if s == {} then []
    else
      var x :| x in s;
      var rest := Listing(lt, s - {x});
      InsertKeepsSorted(lt, rest, x);
      Insert(lt, rest, x)
  }

  /** A sorted listing names each element once. */
  lemma {:induction false} SortedSize<T(!new)>(lt: (T, T) -> bool, s: seq<T>)
    requires StrictTotal(lt) && Sorted(lt, s)
    ensures |Elements(s)| == |s|
  {
    if s != [] {
      assert s == [s[0]] + s[1..];
      SortedSize(lt, s[1..]);
      HeadOccursOnce(lt, s);
      assert Elements(s) == {s[0]} + Elements(s[1..]);
    }
  }

  // ---- sorting -------------------------------------------------------------

  /** An order in which elements may be on a par. */
  ghost predicate StrictWeak<T(!new)>(lt: (T, T) -> bool) {
    && (forall a, b :: lt(a, b) ==> !lt(b, a))
    && (forall a, b, c :: lt(a, b) ==> lt(a, c) || lt(c, b))
  }

  /** Nothing comes after what it should come before. */
  predicate InOrder<T>(lt: (T, T) -> bool, s: seq<T>) {
    forall i, j :: 0 <= i < j < |s| ==> !lt(s[j], s[i])
  }

  /** Puts an element before the first that does not come before it. */
  function Place<T>(lt: (T, T) -> bool, s: seq<T>, x: T): (r: seq<T>)
    ensures multiset(r) == multiset(s) + multiset{x}
  {
    if s == [] then [x]
    else if !lt(s[0], x) then [x] + s
    else
      assert s == [s[0]] + s[1..];
      [s[0]] + Place(lt, s[1..], x)
  }

  lemma {:induction false} PlaceKeepsOrder<T(!new)>(lt: (T, T) -> bool, s: seq<T>, x: T)
    requires StrictWeak(lt) && InOrder(lt, s)
    ensures InOrder(lt, Place(lt, s, x))
  {
    if s != [] && lt(s[0], x) {
      PlaceKeepsOrder(lt, s[1..], x);
      var r := Place(lt, s[1..], x);
      forall j | 0 <= j < |r| ensures !lt(r[j], s[0]) {
        assert r[j] in multiset(r);
        if r[j] != x {
          assert r[j] in s[1..];
          var m :| 0 <= m < |s[1..]| && s[1..][m] == r[j];
          assert r[j] == s[m + 1];
        }
      }
    }
  }

  /** Sorting by repeated insertion. */
  function InsertionSort<T>(lt: (T, T) -> bool, s: seq<T>): (r: seq<T>)
    ensures multiset(r) == multiset(s)
  {
    if s == [] then []
    else
      assert s == [s[0]] + s[1..];
      Place(lt, InsertionSort(lt, s[1..]), s[0])
  }

  lemma {:induction false} SortingSorts<T(!new)>(lt: (T, T) -> bool, s: seq<T>)
    requires StrictWeak(lt)
    ensures InOrder(lt, InsertionSort(lt, s))
  {
    if s != [] {
      SortingSorts(lt, s[1..]);
      PlaceKeepsOrder(lt, InsertionSort(lt, s[1..]), s[0]);
    }
  }

  lemma FirstStaysFirst<T(!new)>(lt: (T, T) -> bool, s: seq<T>)
    requires StrictWeak(lt) && Sorted(lt, s) && s != []
    ensures Place(lt, s[1..], s[0]) == s && Sorted(lt, s[1..])
  {
    assert s == [s[0]] + s[1..];
    if |s| > 1 {
      assert lt(s[0], s[1]) && !lt(s[1], s[0]);
      assert s[1..][0] == s[1];
    }
  }

  lemma {:induction false} SortingSortedChangesNothing<T(!new)>(lt: (T, T) -> bool, s: seq<T>)
    requires StrictWeak(lt) && Sorted(lt, s)
    ensures InsertionSort(lt, s) == s
  {
    hide StrictWeak, Sorted, Place;
    if s != [] {
      FirstStaysFirst(lt, s);
      SortingSortedChangesNothing(lt, s[1..]);
    }
  }

  /** Lexicographic order of texts; for scalar values it is the order of their UTF-8 bytes. */
  predicate TextBefore(a: string, b: string) {
    if b == [] then false
    else if a == [] then true
    else a[0] < b[0] || (a[0] == b[0] && TextBefore(a[1..], b[1..]))
  }

  lemma {:induction false} TextTransitive(a: string, b: string, c: string)
    requires TextBefore(a, b) && TextBefore(b, c)
    ensures TextBefore(a, c)
  {
    if a != [] && a[0] == b[0] && b[0] == c[0] {
      TextTransitive(a[1..], b[1..], c[1..]);
    }
  }

  lemma {:induction false} TextIrreflexive(a: string)
    ensures !TextBefore(a, a)
  {
    if a != [] { TextIrreflexive(a[1..]); }
  }

  lemma {:induction false} TextTotal(a: string, b: string)
    ensures a != b ==> TextBefore(a, b) || TextBefore(b, a)
  {
    if a != [] && b != [] && a[0] == b[0] {
      TextTotal(a[1..], b[1..]);
      assert a == [a[0]] + a[1..] && b == [b[0]] + b[1..];
    }
  }

  lemma TextIsStrictTotal()
    ensures StrictTotal(TextBefore)
  {
    forall a: string { TextIrreflexive(a); }
    forall a: string, b: string { TextTotal(a, b); }
    forall a: string, b: string, c: string | TextBefore(a, b) && TextBefore(b, c) { TextTransitive(a, b, c); }
  }
}
