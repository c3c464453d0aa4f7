/** Which editor commands, selections and imports are accepted. */
module CommandAcceptance {
  import opened Common
  import opened Json
  import opened JsonRoundTrip
  import opened LayerTrees
  import opened Editing
  import opened EditorSessions

  // ---- nesting -------------------------------------------------------------

  /** How many levels of lists lie below a list; a layer without children stands for one that could be opened. */
  function Height(ls: Layers): nat {
    match ls
    case Nil => 0
    case Cons(head, tail) =>
      var below := 1 + (if head.children.Present? then Height(head.children.list) else 0);
      if below > Height(tail) then below else Height(tail)
  }

  lemma {:induction false} ShallowIsHeight(ls: Layers, depth: nat)
    ensures Shallow(ls, depth) <==> depth + Height(ls) <= 32
    decreases ls
  {
    match ls {
      case Nil =>
      case Cons(head, tail) =>
        ShallowIsHeight(tail, depth);
        if head.children.Present? { ShallowIsHeight(head.children.list, depth + 1); }
    }
  }

  /** How deep the children of a layer lie. */
  function Level(ls: Layers, id: Units): nat
    requires id in Ids(ls)
  {
    if ls.head.id == id then 1
    else if id in Ids(Sub(ls.head)) then 1 + Level(Sub(ls.head), id)
    else Level(ls.tail, id)
  }

  function Greater(a: nat, b: nat): nat {
    if a < b then b else a
  }

  lemma HeightParts(ls: Layers)
    requires ls.Cons?
    ensures Height(ls) == Greater(1 + Height(Sub(ls.head)), Height(ls.tail))
  {
  }

  lemma {:induction false} HeightOfInsertAt(ls: Layers, i: nat, layer: Layer)
    ensures Height(InsertAt(ls, i, layer)) == Greater(Height(ls), Height(Cons(layer, Nil)))
  {
    if i > 0 && ls.Cons? { HeightOfInsertAt(ls.tail, i - 1, layer); }
  }

  /** Inserting under a layer is as deep as the deeper of the tree and the inserted layer at its level. */
  lemma {:induction false} HeightOfInsertUnder(ls: Layers, parent: Units, index: Option<int>, layer: Layer)
    requires parent in Ids(ls)
    ensures Height(InsertUnder(ls, parent, index, layer))
         == Greater(Height(ls), Level(ls, parent) + Height(Cons(layer, Nil)))
  {
    hide Height;
    var sub := Sub(ls.head);
    HeightParts(ls);
    HeightParts(InsertUnder(ls, parent, index, layer));
    if ls.head.id == parent {
      HeightOfInsertAt(sub, Start(index, Length(sub)), layer);
    } else if parent in Ids(sub) {
      HeightOfInsertUnder(sub, parent, index, layer);
    } else {
      HeightOfInsertUnder(ls.tail, parent, index, layer);
    }
  }

  // ---- ids -----------------------------------------------------------------

  /** The ids of a list, as often as they occur. */
  function Bag(ls: Layers): multiset<Units> {
    multiset(Ids(ls))
  }

  lemma BagParts(ls: Layers)
    requires ls.Cons?
    ensures Bag(ls) == multiset{ls.head.id} + Bag(Sub(ls.head)) + Bag(ls.tail)
  {
    assert Ids(ls) == [ls.head.id] + Ids(Sub(ls.head)) + Ids(ls.tail);
  }

  lemma BagOfOne(layer: Layer)
    ensures Bag(Cons(layer, Nil)) == multiset{layer.id} + Bag(Sub(layer))
  {
    BagParts(Cons(layer, Nil));
  }

  lemma {:induction false} IdsOfInsertAt(ls: Layers, i: nat, layer: Layer)
    ensures Bag(InsertAt(ls, i, layer)) == Bag(ls) + Bag(Cons(layer, Nil))
  {
    hide Bag;
    if i > 0 && ls.Cons? {
      IdsOfInsertAt(ls.tail, i - 1, layer);
      BagParts(ls);
      BagParts(InsertAt(ls, i, layer));
    } else {
      BagParts(Cons(layer, ls));
      BagOfOne(layer);
    }
  }

  lemma {:induction false} IdsOfInsertUnder(ls: Layers, parent: Units, index: Option<int>, layer: Layer)
    requires parent in Ids(ls)
    ensures Bag(InsertUnder(ls, parent, index, layer)) == Bag(ls) + Bag(Cons(layer, Nil))
  {
    hide Bag;
    var sub := Sub(ls.head);
    BagParts(ls);
    BagParts(InsertUnder(ls, parent, index, layer));
    if ls.head.id == parent {
      IdsOfInsertAt(sub, Start(index, Length(sub)), layer);
    } else if parent in Ids(sub) {
      IdsOfInsertUnder(sub, parent, index, layer);
    } else {
      IdsOfInsertUnder(ls.tail, parent, index, layer);
    }
  }

  /** Ids are distinct exactly if no id occurs twice, in whatever order. */
  lemma {:induction false} DistinctIsSingle(s: seq<Units>)
    ensures Distinct(s) <==> forall x :: multiset(s)[x] <= 1
    decreases |s|
  {
    if s == [] {
      assert multiset(s) == multiset{};
    } else {
      var front, last := s[..|s| - 1], s[|s| - 1];
      assert s == front + [last];
      DistinctIsSingle(front);
      assert Distinct(s) <==> Distinct(front) && last !in front;
      assert multiset(s) == multiset(front) + multiset{last};
      assert last in front <==> multiset(front)[last] > 0;
      if forall x :: multiset(s)[x] <= 1 {
        forall x ensures multiset(front)[x] <= 1 { assert multiset(s)[x] <= 1; }
        assert multiset(s)[last] <= 1;
      }
    }
  }

  lemma DistinctSum(s: seq<Units>, a: seq<Units>, b: seq<Units>)
    requires multiset(s) == multiset(a) + multiset(b)
    ensures Distinct(s) <==> Distinct(a) && Distinct(b) && forall x :: x in a ==> x !in b
  {
    DistinctIsSingle(s);
    DistinctIsSingle(a);
    DistinctIsSingle(b);
    forall x
      ensures x in a <==> multiset(a)[x] > 0
      ensures x in b <==> multiset(b)[x] > 0
      ensures multiset(s)[x] == multiset(a)[x] + multiset(b)[x]
    {
    }
    if Distinct(s) {
      forall x | x in a ensures x !in b { assert multiset(s)[x] <= 1; }
      forall x ensures multiset(a)[x] <= 1 && multiset(b)[x] <= 1 { assert multiset(s)[x] <= 1; }
    }
  }

  lemma SizesAdd(s: seq<Units>, a: seq<Units>, b: seq<Units>)
    requires multiset(s) == multiset(a) + multiset(b)
    ensures |s| == |a| + |b|
  {
    assert |multiset(s)| == |s| && |multiset(a)| == |a| && |multiset(b)| == |b|;
  }

  // ---- insertions ----------------------------------------------------------

  /** The list an inserted layer goes to. */
  predicate ParentExists(ls: Layers, parent: Option<Units>) {
    parent.Some? ==> parent.value in Ids(ls)
  }

  /** What an inserted layer must leave: ids of its own, at most 1024 layers, at most 32 levels. */
  ghost predicate LayerFits(ls: Layers, parent: Option<Units>, layer: Layer)
    requires ParentExists(ls, parent)
  {
    var added := Ids(Cons(layer, Nil));
    && Distinct(added) && (forall id :: id in added ==> id !in Ids(ls))
    && |Ids(ls)| + |added| <= 1024
    && (if parent.Some? then Level(ls, parent.value) else 0) + Height(Cons(layer, Nil)) <= 32
  }

  lemma InsertedStructure(ls: Layers, parent: Option<Units>, index: Option<int>, layer: Layer)
    requires Structured(ls) && ParentExists(ls, parent)
    ensures Structured(LayerTrees.Insert(ls, parent, index, layer)) <==> LayerFits(ls, parent, layer)
  {
    hide Ids, Shallow, Height, Level, InsertAt, InsertUnder, Start, Distinct;
    var after := LayerTrees.Insert(ls, parent, index, layer);
    var added := Ids(Cons(layer, Nil));
    ShallowIsHeight(ls, 0);
    ShallowIsHeight(after, 0);
    if parent.Some? {
      IdsOfInsertUnder(ls, parent.value, index, layer);
      HeightOfInsertUnder(ls, parent.value, index, layer);
    } else {
      IdsOfInsertAt(ls, Start(index, Length(ls)), layer);
      HeightOfInsertAt(ls, Start(index, Length(ls)), layer);
    }
    SizesAdd(Ids(after), Ids(ls), added);
    DistinctSum(Ids(after), Ids(ls), added);
  }

  lemma {:induction false} UpdateKeepsHeight(ls: Layers, id: Units, changes: map<Units, Json>)
    ensures Height(Update(ls, id, changes)) == Height(ls)
  {
    if ls.Cons? && ls.head.id != id {
      if id in Ids(Sub(ls.head)) {
        SubIsPresent(ls.head, id);
        UpdateKeepsHeight(Sub(ls.head), id, changes);
      } else {
        UpdateKeepsHeight(ls.tail, id, changes);
      }
    }
  }

  lemma UpdatedStructure(ls: Layers, id: Units, changes: map<Units, Json>)
    requires Structured(ls)
    ensures Structured(Update(ls, id, changes))
  {
    hide Ids, Shallow, Height, Distinct;
    UpdateKeepsIds(ls, id, changes);
    UpdateKeepsHeight(ls, id, changes);
    ShallowIsHeight(ls, 0);
    ShallowIsHeight(Update(ls, id, changes), 0);
  }

  /** The project that a command asks for. */
  function Wanted(p: Project, c: Command): Project {
    match c
    case Settings(value) => p.(settings := value)
    case Editor(value) => p.(editor := Some(value))
    case Transform(id, changes) => p.(layers := Update(p.layers, id, if changes.Ok? then changes.value else map[]))
    case Insert(layer, parent, index) => p.(layers := LayerTrees.Insert(p.layers, ParentOf(parent), index, layer))
    case Remove(id) => p.(layers := LayerTrees.Remove(p.layers, id))
    case Reorder(id, position) => p.(layers := if position < 0 then p.layers else Move(p.layers, id, position))
    case Timeline(value) => p.(timeline := Some(value))
    case Unknown => p
  }

  /**
   * A command is accepted exactly if what it names exists, an inserted layer fits, and the project schema admits the
   * project it asks for; ids, nesting and count never stand in the way of any other command.
   */
  lemma CommandsAreAcceptedExactly(p: Project, c: Command, rules: Rules)
    requires Inspected(p, rules)
    ensures Apply(p, c, rules).Ok? <==>
      && rules.project(Wanted(p, c))
      && match c
         case Settings(value) => Conforms(rules.settings, value, rules.engine)
         case Editor(value) => true
         case Transform(id, changes) => id in Ids(p.layers) && changes.Ok?
         case Insert(layer, parent, _) =>
           ParentExists(p.layers, ParentOf(parent)) && LayerFits(p.layers, ParentOf(parent), layer)
         case Remove(id) => id in Ids(p.layers)
         case Reorder(id, position) => id in Ids(p.layers) && 0 <= position < Length(Siblings(p.layers, id))
         case Timeline(value) => true
         case Unknown => false
    ensures Apply(p, c, rules).Ok? ==> Apply(p, c, rules).value == Wanted(p, c)
  {
    hide Ids, Structured, Conforms, LayerFits, Update, Move, LayerTrees.Insert, LayerTrees.Remove;
    match c {
      case Transform(id, changes) =>
        FindsIds(p.layers, id);
        if changes.Ok? { UpdatedStructure(p.layers, id, changes.value); }
      case Insert(layer, parent, index) =>
        if ParentOf(parent).Some? { FindsIds(p.layers, ParentOf(parent).value); }
        if ParentExists(p.layers, ParentOf(parent)) { InsertedStructure(p.layers, ParentOf(parent), index, layer); }
      case Remove(id) =>
        FindsIds(p.layers, id);
        if id in Ids(p.layers) { RemoveAndReorderKeepStructure(p, id, 0, rules); }
      case Reorder(id, position) =>
        FindsIds(p.layers, id);
        if id in Ids(p.layers) && position >= 0 { RemoveAndReorderKeepStructure(p, id, position, rules); }
      case _ =>
    }
  }

  // ---- sessions ------------------------------------------------------------

  /** A selection is accepted exactly if it names layers that exist, and then holds each of them once. */
  lemma SelectionIsExact(s: Session, ids: seq<Units>)
    ensures Select(s, ids).Ok? <==> forall id :: id in ids ==> id in Ids(s.project.layers)
    ensures Select(s, ids).Ok? ==>
      var after := Select(s, ids).value;
      && Distinct(after.selection) && (forall id :: id in after.selection <==> id in ids)
      && after == s.(selection := after.selection)
  {
    hide Ids, Deduplicated;
    DeduplicatedIsSound(ids);
    if i :| 0 <= i < |ids| && ids[i] !in Ids(s.project.layers) {
      assert ids[i] in ids;
    } else {
      forall id | id in ids ensures id in Ids(s.project.layers) { var i :| 0 <= i < |ids| && ids[i] == id; }
    }
  }

  /**
   * An import is accepted exactly if the text held a project that passes inspection and both schemas and is for the
   * very same widget; it can be undone and shows and saves the imported project.
   */
  lemma ImportIsExact(s: Session, read: Option<Project>, rules: Rules)
    requires WellFormed(s.project.widget) && (read.Some? ==> WellFormed(read.value.widget))
    ensures Import(s, read, rules).Ok? <==>
      && read.Some? && Inspected(read.value, rules) && read.value.widget == s.project.widget
      && Conforms(rules.settings, read.value.settings, rules.engine)
      && Conforms(rules.editor, if read.value.editor.Some? then read.value.editor.value else Object(map[]),
                  rules.engine)
    ensures Import(s, read, rules).Ok? && s.history.capacity > 0 ==>
      var after := Import(s, read, rules).value;
      && after.project == read.value && after.commands == s.commands && after.saves == s.saves + [read.value]
      && Undo(after).project == s.project
  {
    hide Inspected, Conforms, Canonical, Known;
    if read.Some? { CanonicalIsInjective(read.value.widget, s.project.widget); }
  }
}
