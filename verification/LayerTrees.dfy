/** Trees of layers: finding, inserting, removing and moving one layer. */
module LayerTrees {
  import opened Common
  import opened Json

  /** A list of layers, as a layout or a group holds them. */
  datatype Layers = Nil | Cons(head: Layer, tail: Layers)

  datatype Children = Absent | Present(list: Layers)

  datatype Layer = Layer(id: Units, body: map<Units, Json>, children: Children)

  function Sub(layer: Layer): Layers {
    if layer.children.Present? then layer.children.list else Nil
  }

  function Length(ls: Layers): nat {
    match ls
    case Nil => 0
    case Cons(_, tail) => 1 + Length(tail)
  }

  /** Every id in the order of a visit: each layer before its children, both before its siblings. */
  function Ids(ls: Layers): seq<Units> {
    match ls
    case Nil => []
    case Cons(head, tail) => [head.id] + (if head.children.Present? then Ids(head.children.list) else []) + Ids(tail)
  }

  /** The ids of one list, without what lies below it. */
  function TopIds(ls: Layers): seq<Units> {
    match ls
    case Nil => []
    case Cons(head, tail) => [head.id] + TopIds(tail)
  }

  predicate Distinct<T(==)>(s: seq<T>) {
    forall i, j :: 0 <= i < j < |s| ==> s[i] != s[j]
  }

  predicate Unique(ls: Layers) {
    Distinct(Ids(ls))
  }

  function InsertAt(ls: Layers, i: nat, layer: Layer): Layers {
    if i == 0 || ls.Nil? then Cons(layer, ls) else Cons(ls.head, InsertAt(ls.tail, i - 1, layer))
  }

  function RemoveAt(ls: Layers, i: nat): Layers {
    if ls.Nil? then Nil else if i == 0 then ls.tail else Cons(ls.head, RemoveAt(ls.tail, i - 1))
  }

  /** The first position of an id in one list; its length when it is not there. */
  function Position(ls: Layers, id: Units): nat {
    if ls.Nil? || ls.head.id == id then 0 else 1 + Position(ls.tail, id)
  }

  function Nth(ls: Layers, i: nat): Layer
    requires i < Length(ls)
  {
    if i == 0 then ls.head else Nth(ls.tail, i - 1)
  }

  function Find(ls: Layers, id: Units): Option<Layer> {
    match ls
    case Nil => None
    case Cons(head, tail) =>
      if head.id == id then Some(head)
      else if head.children.Present? && Find(head.children.list, id).Some? then Find(head.children.list, id)
      else Find(tail, id)
  }

  function WithSub(layer: Layer, list: Layers): Layer {
    layer.(children := Present(list))
  }

  /** Takes the layer with an id out of whichever list holds it. */
  function Remove(ls: Layers, id: Units): Layers {
    match ls
    case Nil => Nil
    case Cons(head, tail) =>
      if head.id == id then tail
      else if id in Ids(Sub(head)) then Cons(WithSub(head, Remove(Sub(head), id)), tail)
      else Cons(head, Remove(tail, id))
  }

  /** Where a splice starts: from the end when negative, never past the end, by default at the end. */
  function Start(index: Option<int>, length: nat): nat {
    match index
    case None => length
    case Some(n) => if n < 0 then (if length + n < 0 then 0 else length + n) else if n > length then length else n
  }

  /** Puts a layer into the children of another. */
  function InsertUnder(ls: Layers, parent: Units, index: Option<int>, layer: Layer): Layers {
    match ls
    case Nil => Nil
    case Cons(head, tail) =>
      if head.id == parent then Cons(WithSub(head, InsertAt(Sub(head), Start(index, Length(Sub(head))), layer)), tail)
      else if parent in Ids(Sub(head)) then Cons(WithSub(head, InsertUnder(Sub(head), parent, index, layer)), tail)
      else Cons(head, InsertUnder(tail, parent, index, layer))
  }

  function Insert(ls: Layers, parent: Option<Units>, index: Option<int>, layer: Layer): Layers {
    match parent
    case None => InsertAt(ls, Start(index, Length(ls)), layer)
    case Some(id) => InsertUnder(ls, id, index, layer)
  }

  /** The list that holds an id. */
  function Siblings(ls: Layers, id: Units): Layers {
    if id in TopIds(ls) then ls
    else match ls
      case Nil => Nil
      case Cons(head, tail) => if id in Ids(Sub(head)) then Siblings(Sub(head), id) else Siblings(tail, id)
  }

  /** Moves a layer to another place in its own list. */
  function Move(ls: Layers, id: Units, index: nat): Layers {
    if id in TopIds(ls) then Shift(ls, Position(ls, id), index)
    else match ls
      case Nil => Nil
      case Cons(head, tail) =>
        if id in Ids(Sub(head)) then Cons(WithSub(head, Move(Sub(head), id, index)), tail)
        else Cons(head, Move(tail, id, index))
  }

  function Shift(ls: Layers, i: nat, j: nat): Layers {
    if i < Length(ls) then InsertAt(RemoveAt(ls, i), j, Nth(ls, i)) else ls
  }

  // ---- ids -----------------------------------------------------------------

  lemma {:induction false} TopIdsAreIds(ls: Layers, id: Units)
    requires id in TopIds(ls)
    ensures id in Ids(ls) && Position(ls, id) < Length(ls) && Nth(ls, Position(ls, id)).id == id
  {
    if ls.head.id != id { TopIdsAreIds(ls.tail, id); }
  }

  lemma DistinctParts<T>(a: seq<T>, b: seq<T>)
    requires Distinct(a + b)
    ensures Distinct(a) && Distinct(b) && forall x :: x in a ==> x !in b
  {
    forall i, j | 0 <= i < j < |a| ensures a[i] != a[j] { assert (a + b)[i] != (a + b)[j]; }
    forall i, j | 0 <= i < j < |b| ensures b[i] != b[j] { assert (a + b)[|a| + i] != (a + b)[|a| + j]; }
    forall x | x in a ensures x !in b {
      var i :| 0 <= i < |a| && a[i] == x;
      forall j | 0 <= j < |b| ensures b[j] != x { assert (a + b)[i] != (a + b)[|a| + j]; }
    }
  }

  /** In a tree with unique ids the head, what lies below it and its siblings share none. */
  lemma UniqueParts(ls: Layers)
    requires ls.Cons? && Unique(ls)
    ensures Unique(Sub(ls.head)) && Unique(ls.tail)
    ensures ls.head.id !in Ids(Sub(ls.head)) && ls.head.id !in Ids(ls.tail)
    ensures forall id :: id in Ids(Sub(ls.head)) ==> id !in Ids(ls.tail)
  {
    var (a, b, c) := ([ls.head.id], Ids(Sub(ls.head)), Ids(ls.tail));
    assert a + b + c == a + (b + c);
    DistinctParts(a, b + c);
    DistinctParts(b, c);
    assert ls.head.id in a;
  }

  lemma {:induction false} FindsIds(ls: Layers, id: Units)
    ensures Find(ls, id).Some? <==> id in Ids(ls)
    ensures Find(ls, id).Some? ==> Find(ls, id).value.id == id
  {
    match ls {
      case Nil =>
      case Cons(head, tail) =>
        if head.children.Present? { FindsIds(head.children.list, id); }
        FindsIds(tail, id);
    }
  }

  // ---- inserting and removing ----------------------------------------------

  /** Every id of a tree with an inserted layer comes from the tree or from the layer. */
  lemma {:induction false} InsertedAtIds(ls: Layers, i: nat, layer: Layer)
    ensures forall id :: id in Ids(InsertAt(ls, i, layer)) <==> id in Ids(ls) || id in Ids(Cons(layer, Nil))
  {
    if i > 0 && ls.Cons? {
      InsertedAtIds(ls.tail, i - 1, layer);
    } else {
      assert Ids(Cons(layer, ls)) == Ids(Cons(layer, Nil)) + Ids(ls);
    }
  }

  lemma {:induction false} InsertedUnderIds(ls: Layers, parent: Units, index: Option<int>, layer: Layer)
    requires parent in Ids(ls)
    ensures forall id ::
      id in Ids(InsertUnder(ls, parent, index, layer)) <==> id in Ids(ls) || id in Ids(Cons(layer, Nil))
  {
    var sub := Sub(ls.head);
    if ls.head.id == parent {
      InsertedAtIds(sub, Start(index, Length(sub)), layer);
    } else if parent in Ids(sub) {
      InsertedUnderIds(sub, parent, index, layer);
    } else {
      InsertedUnderIds(ls.tail, parent, index, layer);
    }
  }

  /** No layer of the inserted tree is in the project yet. */
  predicate Fresh(ls: Layers, layer: Layer) {
    forall id :: id in Ids(Cons(layer, Nil)) ==> id !in Ids(ls)
  }

  lemma {:induction false} RemoveInserted(ls: Layers, i: nat, layer: Layer)
    requires layer.id !in Ids(ls)
    ensures Remove(InsertAt(ls, i, layer), layer.id) == ls
  {
    if i > 0 && ls.Cons? {
      RemoveInserted(ls.tail, i - 1, layer);
    }
  }

  /** A parent whose missing list of children became an empty one. */
  function Opened(ls: Layers, parent: Units): Layers {
    match ls
    case Nil => Nil
    case Cons(head, tail) =>
      if head.id == parent then Cons(WithSub(head, Sub(head)), tail)
      else if parent in Ids(Sub(head)) then Cons(WithSub(head, Opened(Sub(head), parent)), tail)
      else Cons(head, Opened(tail, parent))
  }

  lemma {:induction false} RemoveInsertedUnder(ls: Layers, parent: Units, index: Option<int>, layer: Layer)
    requires parent in Ids(ls) && layer.id !in Ids(ls)
    ensures Remove(InsertUnder(ls, parent, index, layer), layer.id) == Opened(ls, parent)
  {
    var sub := Sub(ls.head);
    assert layer.id in Ids(Cons(layer, Nil));
    if ls.head.id == parent {
      InsertedAtIds(sub, Start(index, Length(sub)), layer);
      RemoveInserted(sub, Start(index, Length(sub)), layer);
    } else if parent in Ids(sub) {
      InsertedUnderIds(sub, parent, index, layer);
      RemoveInsertedUnder(sub, parent, index, layer);
    } else {
      RemoveInsertedUnder(ls.tail, parent, index, layer);
    }
  }

  /** Opening a list of children shows nowhere but in the one layer that had none. */
  lemma {:induction false} OpenedOnlyOpens(ls: Layers, parent: Units)
    ensures Ids(Opened(ls, parent)) == Ids(ls)
    ensures (Find(ls, parent).Some? && Find(ls, parent).value.children.Present?) ==> Opened(ls, parent) == ls
  {
    match ls {
      case Nil =>
      case Cons(head, tail) =>
        if head.children.Present? {
          FindsIds(head.children.list, parent);
          OpenedOnlyOpens(head.children.list, parent);
        }
        OpenedOnlyOpens(tail, parent);
    }
  }

  // ---- moving --------------------------------------------------------------

  lemma {:induction false} InsertRemoved(ls: Layers, i: nat)
    requires i < Length(ls)
    ensures InsertAt(RemoveAt(ls, i), i, Nth(ls, i)) == ls && Length(RemoveAt(ls, i)) == Length(ls) - 1
  {
    if i > 0 { InsertRemoved(ls.tail, i - 1); }
  }

  lemma {:induction false} RemoveAtInserted(ls: Layers, j: nat, layer: Layer)
    requires j <= Length(ls)
    ensures var after := InsertAt(ls, j, layer);
      j < Length(after) && RemoveAt(after, j) == ls && Nth(after, j) == layer
  {
    if j > 0 { RemoveAtInserted(ls.tail, j - 1, layer); }
  }

  /** Shifting there and back restores a list. */
  lemma ShiftBack(ls: Layers, i: nat, j: nat)
    requires i < Length(ls) && j < Length(ls)
    ensures Shift(Shift(ls, i, j), j, i) == ls
  {
    InsertRemoved(ls, i);
    RemoveAtInserted(RemoveAt(ls, i), j, Nth(ls, i));
  }

  /** Top-level ids after a shift: one of them moved, the others kept their order. */
  function Shifted(s: seq<Units>, i: nat, j: nat): seq<Units>
    requires i < |s| && j < |s|
  {
    var rest := s[..i] + s[i + 1..];
    rest[..j] + [s[i]] + rest[j..]
  }

  lemma {:induction false} TopIdsOfInsert(ls: Layers, j: nat, layer: Layer)
    requires j <= Length(ls)
    ensures |TopIds(ls)| == Length(ls)
    ensures TopIds(InsertAt(ls, j, layer)) == TopIds(ls)[..j] + [layer.id] + TopIds(ls)[j..]
  {
    if ls.Cons? { TopIdsOfInsert(ls.tail, if j == 0 then 0 else j - 1, layer); }
  }

  lemma {:induction false} TopIdsOfRemove(ls: Layers, i: nat)
    requires i < Length(ls)
    ensures |TopIds(ls)| == Length(ls) && TopIds(ls)[i] == Nth(ls, i).id
    ensures TopIds(RemoveAt(ls, i)) == TopIds(ls)[..i] + TopIds(ls)[i + 1..]
  {
    TopIdsOfInsert(ls, 0, ls.head);
    if i > 0 { TopIdsOfRemove(ls.tail, i - 1); }
  }

  lemma TopIdsOfShift(ls: Layers, i: nat, j: nat)
    requires i < Length(ls) && j < Length(ls)
    ensures |TopIds(ls)| == Length(ls)
    ensures TopIds(Shift(ls, i, j)) == Shifted(TopIds(ls), i, j)
  {
    InsertRemoved(ls, i);
    TopIdsOfRemove(ls, i);
    TopIdsOfInsert(RemoveAt(ls, i), j, Nth(ls, i));
  }

  lemma {:induction false} RemovedAtIds(ls: Layers, i: nat, x: Units)
    requires i < Length(ls)
    ensures x in Ids(ls) <==> x in Ids(RemoveAt(ls, i)) || x in Ids(Cons(Nth(ls, i), Nil))
  {
    if i > 0 {
      RemovedAtIds(ls.tail, i - 1, x);
    } else {
      assert Ids(ls) == Ids(Cons(ls.head, Nil)) + Ids(ls.tail);
    }
  }

  lemma ShiftIds(ls: Layers, i: nat, j: nat, x: Units)
    requires i < Length(ls)
    ensures x in Ids(Shift(ls, i, j)) <==> x in Ids(ls)
  {
    RemovedAtIds(ls, i, x);
    InsertedAtIds(RemoveAt(ls, i), j, Nth(ls, i));
  }

  /** Moving a layer neither adds nor loses an id. */
  lemma {:induction false} MoveIds(ls: Layers, id: Units, index: nat, x: Units)
    requires id in Ids(ls)
    ensures x in Ids(Move(ls, id, index)) <==> x in Ids(ls)
  {
    if id in TopIds(ls) {
      TopIdsAreIds(ls, id);
      ShiftIds(ls, Position(ls, id), index, x);
    } else if id in Ids(Sub(ls.head)) {
      MoveIds(Sub(ls.head), id, index, x);
    } else {
      MoveIds(ls.tail, id, index, x);
    }
  }

  lemma {:induction false} FindAfterRemoveAt(ls: Layers, i: nat, x: Units)
    requires Unique(ls) && i < Length(ls)
    ensures Find(RemoveAt(ls, i), x) == if x in Ids(Cons(Nth(ls, i), Nil)) then None else Find(ls, x)
  {
    UniqueParts(ls);
    FindsIds(ls, x);
    FindsIds(ls.tail, x);
    FindsIds(Sub(ls.head), x);
    if i > 0 {
      FindAfterRemoveAt(ls.tail, i - 1, x);
      RemovedAtIds(ls.tail, i - 1, x);
    }
  }

  lemma {:induction false} FindAfterInsertAt(ls: Layers, j: nat, layer: Layer, x: Units)
    requires forall id :: id in Ids(Cons(layer, Nil)) ==> id !in Ids(ls)
    ensures Find(InsertAt(ls, j, layer), x)
         == if x in Ids(Cons(layer, Nil)) then Find(Cons(layer, Nil), x) else Find(ls, x)
  {
    FindsIds(ls, x);
    FindsIds(Cons(layer, Nil), x);
    if j > 0 && ls.Cons? {
      FindsIds(Sub(ls.head), x);
      FindAfterInsertAt(ls.tail, j - 1, layer, x);
    }
  }

  lemma {:induction false} FindNth(ls: Layers, i: nat, x: Units)
    requires Unique(ls) && i < Length(ls) && x in Ids(Cons(Nth(ls, i), Nil))
    ensures Find(ls, x) == Find(Cons(Nth(ls, i), Nil), x)
  {
    UniqueParts(ls);
    if i > 0 {
      FindNth(ls.tail, i - 1, x);
      RemovedAtIds(ls.tail, i - 1, x);
      FindsIds(Sub(ls.head), x);
    } else {
      FindsIds(Sub(ls.head), x);
    }
  }

  lemma {:induction false} RestIsApart(ls: Layers, i: nat, x: Units)
    requires Unique(ls) && i < Length(ls) && x in Ids(Cons(Nth(ls, i), Nil))
    ensures x !in Ids(RemoveAt(ls, i))
  {
    UniqueParts(ls);
    if i > 0 {
      RestIsApart(ls.tail, i - 1, x);
      RemovedAtIds(ls.tail, i - 1, x);
    }
  }

  /** Shifting a list changes nothing about any layer in it. */
  lemma FindAfterShift(ls: Layers, i: nat, j: nat, x: Units)
    requires Unique(ls) && i < Length(ls)
    ensures Find(Shift(ls, i, j), x) == Find(ls, x)
  {
    forall id | id in Ids(Cons(Nth(ls, i), Nil)) ensures id !in Ids(RemoveAt(ls, i)) { RestIsApart(ls, i, id); }
    FindAfterInsertAt(RemoveAt(ls, i), j, Nth(ls, i), x);
    FindAfterRemoveAt(ls, i, x);
    if x in Ids(Cons(Nth(ls, i), Nil)) { FindNth(ls, i, x); }
  }

  /** The ids in the list of an owner: of a layer, or of the layout itself. */
  function ChildIds(ls: Layers, owner: Option<Units>): seq<Units> {
    match owner
    case None => TopIds(ls)
    case Some(id) => if Find(ls, id).Some? then TopIds(Sub(Find(ls, id).value)) else []
  }

  function BodyOf(ls: Layers, id: Units): Option<map<Units, Json>> {
    if Find(ls, id).Some? then Some(Find(ls, id).value.body) else None
  }

  lemma {:induction false} BelowAreIds(ls: Layers, owner: Units, x: Units)
    requires Find(ls, owner).Some? && x in Ids(Sub(Find(ls, owner).value))
    ensures x in Ids(ls)
  {
    if ls.head.id == owner {
    } else if ls.head.children.Present? && Find(ls.head.children.list, owner).Some? {
      BelowAreIds(ls.head.children.list, owner, x);
    } else {
      BelowAreIds(ls.tail, owner, x);
    }
  }

  lemma ChildIdsAreIds(ls: Layers, owner: Option<Units>, x: Units)
    requires x in ChildIds(ls, owner)
    ensures x in Ids(ls)
  {
    if owner.None? {
      TopIdsAreIds(ls, x);
    } else {
      TopIdsAreIds(Sub(Find(ls, owner.value).value), x);
      BelowAreIds(ls, owner.value, x);
    }
  }

  /** A top-level layer is nobody's child. */
  lemma {:induction false} TopIsNobodysChild(ls: Layers, id: Units, owner: Units)
    requires Unique(ls) && id in TopIds(ls)
    ensures id !in ChildIds(ls, Some(owner))
  {
    UniqueParts(ls);
    if Find(ls, owner).Some? && id in ChildIds(ls, Some(owner)) {
      var head, tail := ls.head, ls.tail;
      TopIdsAreIds(Sub(Find(ls, owner).value), id);
      if head.id == owner {
        if head.id != id { TopIdsAreIds(tail, id); }
      } else if head.children.Present? && Find(head.children.list, owner).Some? {
        BelowAreIds(head.children.list, owner, id);
        if head.id != id { TopIdsAreIds(tail, id); }
      } else {
        BelowAreIds(tail, owner, id);
        if head.id != id { TopIsNobodysChild(tail, id, owner); }
      }
    }
  }

  /** One list after a move: shifted if it holds the moved layer, as it was otherwise. */
  function MovedList(s: seq<Units>, id: Units, from: nat, index: nat): seq<Units> {
    if id in s && from < |s| && index < |s| then Shifted(s, from, index) else s
  }

  /**
   * Moving a layer permutes the one list that holds it: every other list keeps its ids in order,
   * and every layer keeps its own fields.
   */
  lemma {:induction false} MoveTouchesOneList(ls: Layers, id: Units, index: nat, owner: Option<Units>)
    requires Unique(ls) && id in Ids(ls) && index < Length(Siblings(ls, id))
    ensures ChildIds(Move(ls, id, index), owner)
         == MovedList(ChildIds(ls, owner), id, Position(Siblings(ls, id), id), index)
    ensures owner.Some? ==> BodyOf(Move(ls, id, index), owner.value) == BodyOf(ls, owner.value)
  {
    UniqueParts(ls);
    var head, tail := ls.head, ls.tail;
    var after := Move(ls, id, index);
    if id in TopIds(ls) {
      TopIdsAreIds(ls, id);
      TopIdsOfShift(ls, Position(ls, id), index);
      if owner.Some? {
        FindAfterShift(ls, Position(ls, id), index, owner.value);
        TopIsNobodysChild(ls, id, owner.value);
      }
    } else if id in Ids(Sub(head)) {
      MoveTouchesOneList(Sub(head), id, index, None);
      if owner.Some? {
        MoveTouchesOneList(Sub(head), id, index, owner);
        FindsIds(Sub(head), owner.value);
        FindsIds(Move(Sub(head), id, index), owner.value);
        MoveIds(Sub(head), id, index, owner.value);
        if id in ChildIds(tail, owner) { ChildIdsAreIds(tail, owner, id); }
      }
    } else {
      MoveTouchesOneList(tail, id, index, owner);
      if owner.Some? {
        if head.children.Present? && id in ChildIds(head.children.list, owner) {
          ChildIdsAreIds(head.children.list, owner, id);
        }
        if id in TopIds(Sub(head)) { TopIdsAreIds(Sub(head), id); }
      }
    }
  }

  lemma {:induction false} PositionOf(ls: Layers, k: nat, id: Units)
    requires k < Length(ls) && Nth(ls, k).id == id && Distinct(TopIds(ls))
    ensures Position(ls, id) == k
  {
    TopIdsOfRemove(ls, k);
    if k > 0 {
      assert TopIds(ls)[0] != TopIds(ls)[k];
      assert TopIds(ls)[1..] == TopIds(ls.tail);
      PositionOf(ls.tail, k - 1, id);
    }
  }

  lemma {:induction false} TopIdsAreDistinct(ls: Layers)
    requires Unique(ls)
    ensures Distinct(TopIds(ls))
  {
    if ls.Cons? {
      UniqueParts(ls);
      TopIdsAreDistinct(ls.tail);
      forall j | 0 < j < |TopIds(ls)| ensures TopIds(ls)[0] != TopIds(ls)[j] {
        assert TopIds(ls)[j] in TopIds(ls.tail);
        TopIdsAreIds(ls.tail, TopIds(ls)[j]);
      }
    }
  }

  lemma ShiftedIsDistinct(s: seq<Units>, i: nat, j: nat)
    requires Distinct(s) && i < |s| && j < |s|
    ensures Distinct(Shifted(s, i, j))
  {
    var rest := s[..i] + s[i + 1..];
    assert Distinct(rest) && s[i] !in rest;
  }

  /** Moving a layer back to where it was restores the tree. */
  lemma {:induction false} MoveBack(ls: Layers, id: Units, index: nat)
    requires Unique(ls) && id in Ids(ls) && index < Length(Siblings(ls, id))
    ensures Move(Move(ls, id, index), id, Position(Siblings(ls, id), id)) == ls
  {
    UniqueParts(ls);
    var after := Move(ls, id, index);
    if id in TopIds(ls) {
      MoveBackHere(ls, id, index);
    } else if id in Ids(Sub(ls.head)) {
      MoveBack(Sub(ls.head), id, index);
      MoveIds(Sub(ls.head), id, index, id);
    } else {
      MoveBack(ls.tail, id, index);
      MoveTouchesOneList(ls.tail, id, index, None);
      assert after.head == ls.head && id !in TopIds(ls.tail);
    }
  }

  lemma MoveBackHere(ls: Layers, id: Units, index: nat)
    requires Unique(ls) && id in TopIds(ls) && index < Length(ls)
    ensures Move(Move(ls, id, index), id, Position(ls, id)) == ls
  {
    hide RemoveAt, InsertAt, Shifted, Nth, Unique;
    var i := Position(ls, id);
    var after := Shift(ls, i, index);
    TopIdsAreIds(ls, id);
    TopIdsOfShift(ls, i, index);
    TopIdsAreDistinct(ls);
    ShiftedIsDistinct(TopIds(ls), i, index);
    MovedIsThere(ls, i, index);
    PositionOf(after, index, id);
    ShiftBack(ls, i, index);
  }

  lemma MovedIsThere(ls: Layers, i: nat, j: nat)
    requires i < Length(ls) && j < Length(ls)
    ensures var after := Shift(ls, i, j);
      && j < Length(after) && Nth(after, j) == Nth(ls, i) && Nth(after, j).id in TopIds(after)
  {
    InsertRemoved(ls, i);
    RemoveAtInserted(RemoveAt(ls, i), j, Nth(ls, i));
    TopIdsOfRemove(Shift(ls, i, j), j);
  }
}
