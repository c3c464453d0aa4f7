/** The editor's commands on a project, and what they keep. */
module Editing {
  import opened Common
  import opened Json
  import opened LayerTrees
  import opened Schemas
  import JsValidator

  const MAX_NESTING := 32
  const MAX_LAYERS := 1024

  datatype Project = Project(
    widget: Json,
    settings: Json,
    size: Json,
    layers: Layers,
    editor: Option<Json>,
    timeline: Option<Json>)

  datatype EditError =
    | InvalidProject
    | InvalidSettings
    | InvalidEditor
    | LayerNotFound
    | InvalidGrid
    | InvalidTransform
    | InvalidReorder
    | UnknownCommand
    | WidgetMismatch
    | UnreadableText

  /** A transform brings the numbers after snapping, or why they are refused. */
  datatype Command =
    | Settings(value: Json)
    | Editor(value: Json)
    | Transform(id: Units, changes: Result<map<Units, Json>, EditError>)
    | Insert(layer: Layer, parent: Option<Units>, index: Option<int>)
    | Remove(id: Units)
    | Reorder(id: Units, position: int)
    | Timeline(value: Json)
    | Unknown

  /** Schemas of the session, the project schema with its asset rules, and the host's engine. */
  datatype Rules = Rules(
    project: Project -> bool,
    settings: Option<Json>,
    editor: Option<Json>,
    engine: Engine)

  predicate Conforms(schema: Option<Json>, v: Json, e: Engine) {
    schema.Some? ==> JsValidator.Failures(schema.value, v, [], schema.value, 0, e) == {}
  }

  /** No list of layers, not even an empty one, lies below the nesting limit. */
  predicate Shallow(ls: Layers, depth: nat) {
    && depth <= MAX_NESTING
    && match ls
       case Nil => true
       case Cons(head, tail) =>
         && (if head.children.Present? then Shallow(head.children.list, depth + 1) else depth + 1 <= MAX_NESTING)
         && Shallow(tail, depth)
  }

  predicate Structured(ls: Layers) {
    Unique(ls) && |Ids(ls)| <= MAX_LAYERS && Shallow(ls, 0)
  }

  predicate Inspected(p: Project, rules: Rules) {
    rules.project(p) && Structured(p.layers)
  }

  function Update(ls: Layers, id: Units, changes: map<Units, Json>): Layers {
    match ls
    case Nil => Nil
    case Cons(head, tail) =>
      if head.id == id then Cons(head.(body := head.body + changes), tail)
      else if id in Ids(Sub(head)) then Cons(WithSub(head, Update(Sub(head), id, changes)), tail)
      else Cons(head, Update(tail, id, changes))
  }

  function Accepted(p: Project, rules: Rules): Result<Project, EditError> {
    if Inspected(p, rules) then Ok(p) else Err(InvalidProject)
  }

  /** An empty name of a parent names the layout itself. */
  function ParentOf(parent: Option<Units>): Option<Units> {
    if parent == Some([]) then None else parent
  }

  /** Applies one command to an inspected project and inspects the result. */
  function Apply(p: Project, c: Command, rules: Rules): Result<Project, EditError> {
    if !Inspected(p, rules) then Err(InvalidProject)
    else match c
    case Settings(value) =>
      if !Conforms(rules.settings, value, rules.engine) then Err(InvalidSettings)
      else Accepted(p.(settings := value), rules)
    case Editor(value) => Accepted(p.(editor := Some(value)), rules)
    case Transform(id, changes) =>
      if Find(p.layers, id).None? then Err(LayerNotFound)
      else (match changes
            case Err(e) => Err(e)
            case Ok(fields) => Accepted(p.(layers := Update(p.layers, id, fields)), rules))
    case Insert(layer, parent, index) =>
      if ParentOf(parent).Some? && Find(p.layers, ParentOf(parent).value).None? then Err(LayerNotFound)
      else Accepted(p.(layers := LayerTrees.Insert(p.layers, ParentOf(parent), index, layer)), rules)
    case Remove(id) =>
      if Find(p.layers, id).None? then Err(LayerNotFound)
      else Accepted(p.(layers := LayerTrees.Remove(p.layers, id)), rules)
    case Reorder(id, position) =>
      if Find(p.layers, id).None? || position < 0 || position >= Length(Siblings(p.layers, id)) then Err(InvalidReorder)
      else Accepted(p.(layers := Move(p.layers, id, position)), rules)
    case Timeline(value) => Accepted(p.(timeline := Some(value)), rules)
    case Unknown => Err(UnknownCommand)
  }

  // ---- inserting and removing ----------------------------------------------

  lemma {:induction false} InsertedWasNew(ls: Layers, i: nat, layer: Layer)
    requires Unique(InsertAt(ls, i, layer))
    ensures layer.id !in Ids(ls) && Unique(ls)
  {
    var after := InsertAt(ls, i, layer);
    UniqueParts(after);
    if i > 0 && ls.Cons? {
      InsertedWasNew(ls.tail, i - 1, layer);
      InsertedAtIds(ls.tail, i - 1, layer);
      assert layer.id in Ids(Cons(layer, Nil));
      UniqueFromParts(ls);
    }
  }

  lemma {:induction false} InsertedUnderWasNew(ls: Layers, parent: Units, index: Option<int>, layer: Layer)
    requires Unique(InsertUnder(ls, parent, index, layer)) && parent in Ids(ls)
    ensures layer.id !in Ids(ls)
  {
    var after := InsertUnder(ls, parent, index, layer);
    var sub := Sub(ls.head);
    UniqueParts(after);
    assert layer.id in Ids(Cons(layer, Nil));
    if ls.head.id == parent {
      InsertedWasNew(sub, Start(index, Length(sub)), layer);
      InsertedAtIds(sub, Start(index, Length(sub)), layer);
    } else if parent in Ids(sub) {
      InsertedUnderWasNew(sub, parent, index, layer);
      InsertedUnderIds(sub, parent, index, layer);
    } else {
      InsertedUnderWasNew(ls.tail, parent, index, layer);
      InsertedUnderIds(ls.tail, parent, index, layer);
    }
  }

  /** Inserting a layer and removing it again restores the project, but for an opened list of children. */
  lemma InsertThenRemove(p: Project, c: Command, rules: Rules)
    requires c.Insert? && Apply(p, c, rules).Ok?
    ensures var q := Apply(p, c, rules).value;
      var r := Apply(q, Remove(c.layer.id), rules);
      var restored := match ParentOf(c.parent) case None => p.layers case Some(parent) => Opened(p.layers, parent);
      r == Accepted(p.(layers := restored), rules)
  {
    hide Structured;
    var q := Apply(p, c, rules).value;
    var parent := ParentOf(c.parent);
    assert Unique(q.layers) by { StructuredIsUnique(q.layers); }
    assert c.layer.id in Ids(Cons(c.layer, Nil));
    if parent.None? {
      var i := Start(c.index, Length(p.layers));
      InsertedWasNew(p.layers, i, c.layer);
      RemoveInserted(p.layers, i, c.layer);
      InsertedAtIds(p.layers, i, c.layer);
    } else {
      FindsIds(p.layers, parent.value);
      InsertedUnderWasNew(p.layers, parent.value, c.index, c.layer);
      RemoveInsertedUnder(p.layers, parent.value, c.index, c.layer);
      InsertedUnderIds(p.layers, parent.value, c.index, c.layer);
    }
    FindsIds(q.layers, c.layer.id);
  }

  lemma StructuredIsUnique(ls: Layers)
    requires Structured(ls)
    ensures Unique(ls)
  {
  }

  /** The converse of taking a tree with unique ids apart. */
  lemma UniqueFromParts(ls: Layers)
    requires ls.Cons? && Unique(Sub(ls.head)) && Unique(ls.tail)
    requires ls.head.id !in Ids(Sub(ls.head)) && ls.head.id !in Ids(ls.tail)
    requires forall id :: id in Ids(Sub(ls.head)) ==> id !in Ids(ls.tail)
    ensures Unique(ls)
  {
    var (b, c) := (Ids(Sub(ls.head)), Ids(ls.tail));
    DistinctTogether(b, c);
    assert Ids(ls) == [ls.head.id] + (b + c);
    DistinctTogether([ls.head.id], b + c);
  }

  lemma DistinctTogether<T>(a: seq<T>, b: seq<T>)
    requires Distinct(a) && Distinct(b) && forall x :: x in a ==> x !in b
    ensures Distinct(a + b)
  {
    forall i, j | 0 <= i < j < |a + b| ensures (a + b)[i] != (a + b)[j] {
      if i < |a| <= j { assert a[i] in a && (a + b)[j] == b[j - |a|]; }
    }
  }

  // ---- what removing and moving cannot break -------------------------------

  lemma {:induction false} RemoveKeepsStructure(ls: Layers, id: Units, depth: nat)
    requires Unique(ls) && Shallow(ls, depth)
    ensures var after := LayerTrees.Remove(ls, id);
      && Unique(after) && Shallow(after, depth) && |Ids(after)| <= |Ids(ls)|
      && forall x :: x in Ids(after) ==> x in Ids(ls)
  {
    if ls.Cons? {
      UniqueParts(ls);
      if ls.head.id == id {
      } else if id in Ids(Sub(ls.head)) {
        RemoveKeepsStructure(Sub(ls.head), id, depth + 1);
        UniqueFromParts(LayerTrees.Remove(ls, id));
      } else {
        RemoveKeepsStructure(ls.tail, id, depth);
        UniqueFromParts(LayerTrees.Remove(ls, id));
      }
    }
  }

  lemma {:induction false} RemoveAtKeepsStructure(ls: Layers, i: nat, depth: nat)
    requires Unique(ls) && Shallow(ls, depth) && i < Length(ls)
    ensures Unique(RemoveAt(ls, i)) && Shallow(RemoveAt(ls, i), depth)
    ensures Unique(Cons(Nth(ls, i), Nil)) && Shallow(Cons(Nth(ls, i), Nil), depth)
    ensures |Ids(ls)| == |Ids(RemoveAt(ls, i))| + |Ids(Cons(Nth(ls, i), Nil))|
  {
    UniqueParts(ls);
    if i > 0 {
      RemoveAtKeepsStructure(ls.tail, i - 1, depth);
      forall x | x in Ids(RemoveAt(ls.tail, i - 1)) ensures x in Ids(ls.tail) { RemovedAtIds(ls.tail, i - 1, x); }
      UniqueFromParts(RemoveAt(ls, i));
    } else {
      UniqueFromParts(Cons(ls.head, Nil));
    }
  }

  lemma {:induction false} InsertAtKeepsStructure(ls: Layers, j: nat, layer: Layer, depth: nat)
    requires Unique(ls) && Shallow(ls, depth)
    requires Unique(Cons(layer, Nil)) && Shallow(Cons(layer, Nil), depth) && LayerTrees.Fresh(ls, layer)
    ensures var after := InsertAt(ls, j, layer);
      Unique(after) && Shallow(after, depth) && |Ids(after)| == |Ids(ls)| + |Ids(Cons(layer, Nil))|
  {
    UniqueParts(Cons(layer, Nil));
    if j > 0 && ls.Cons? {
      UniqueParts(ls);
      InsertAtKeepsStructure(ls.tail, j - 1, layer, depth);
      InsertedAtIds(ls.tail, j - 1, layer);
      UniqueFromParts(InsertAt(ls, j, layer));
    } else {
      assert Ids(Cons(layer, Nil)) == [layer.id] + Ids(Sub(layer));
      UniqueFromParts(Cons(layer, ls));
    }
  }

  lemma {:induction false} MoveKeepsStructure(ls: Layers, id: Units, index: nat, depth: nat)
    requires Unique(ls) && Shallow(ls, depth) && id in Ids(ls)
    ensures var after := Move(ls, id, index);
      Unique(after) && Shallow(after, depth) && |Ids(after)| == |Ids(ls)|
  {
    UniqueParts(ls);
    if id in TopIds(ls) {
      var i := Position(ls, id);
      TopIdsAreIds(ls, id);
      RemoveAtKeepsStructure(ls, i, depth);
      forall x | x in Ids(Cons(Nth(ls, i), Nil)) ensures x !in Ids(RemoveAt(ls, i)) { RestIsApart(ls, i, x); }
      InsertAtKeepsStructure(RemoveAt(ls, i), index, Nth(ls, i), depth);
    } else if id in Ids(Sub(ls.head)) {
      MoveKeepsStructure(Sub(ls.head), id, index, depth + 1);
      forall x
        ensures x in Ids(Move(Sub(ls.head), id, index)) <==> x in Ids(Sub(ls.head))
      {
        MoveIds(Sub(ls.head), id, index, x);
      }
      UniqueFromParts(Move(ls, id, index));
    } else {
      MoveKeepsStructure(ls.tail, id, index, depth);
      forall x ensures x in Ids(Move(ls.tail, id, index)) <==> x in Ids(ls.tail) { MoveIds(ls.tail, id, index, x); }
      UniqueFromParts(Move(ls, id, index));
    }
  }

  /** Removing or reordering an existing layer is never refused for ids, nesting or count. */
  lemma RemoveAndReorderKeepStructure(p: Project, id: Units, position: nat, rules: Rules)
    requires Inspected(p, rules) && id in Ids(p.layers)
    ensures Structured(LayerTrees.Remove(p.layers, id)) && Structured(Move(p.layers, id, position))
  {
    RemoveKeepsStructure(p.layers, id, 0);
    MoveKeepsStructure(p.layers, id, position, 0);
  }

  // ---- what one command changes --------------------------------------------

  lemma {:induction false} UpdateKeepsIds(ls: Layers, id: Units, changes: map<Units, Json>)
    ensures Ids(Update(ls, id, changes)) == Ids(ls)
  {
    if ls.Cons? && ls.head.id != id {
      if id in Ids(Sub(ls.head)) {
        UpdateKeepsIds(Sub(ls.head), id, changes);
      } else {
        UpdateKeepsIds(ls.tail, id, changes);
      }
    }
  }

  /** A transform changes the fields of one layer, and nothing about the tree. */
  lemma {:induction false} UpdateTouchesOneLayer(ls: Layers, id: Units, changes: map<Units, Json>, x: Units)
    requires Unique(ls) && id in Ids(ls)
    ensures Ids(Update(ls, id, changes)) == Ids(ls) && BodyOf(ls, id).Some?
    ensures BodyOf(Update(ls, id, changes), x)
         == if x == id then Some(BodyOf(ls, id).value + changes) else BodyOf(ls, x)
  {
    hide Ids, Unique, Find;
    UpdateKeepsIds(ls, id, changes);
    FindsIds(ls, id);
    HasHead(ls, id);
    UniqueParts(ls);
    var (head, tail, after) := (ls.head, ls.tail, Update(ls, id, changes));
    FindStep(ls, id);
    FindStep(ls, x);
    FindStep(after, x);
    FindsIds(Sub(head), id);
    FindsIds(Sub(head), x);
    if head.id != id {
      if id in Ids(Sub(head)) {
        SubIsPresent(head, id);
        UpdateTouchesOneLayer(Sub(head), id, changes, x);
        FindsIds(Sub(after.head), x);
      } else {
        InTailThen(ls, id);
        UpdateTouchesOneLayer(tail, id, changes, x);
      }
    }
  }

  lemma HasHead(ls: Layers, id: Units)
    requires id in Ids(ls)
    ensures ls.Cons?
  {
  }

  /** One step of a search: the head, then what lies below it, then its siblings. */
  lemma FindStep(ls: Layers, id: Units)
    requires ls.Cons?
    ensures Find(ls, id) == if ls.head.id == id then Some(ls.head)
                            else if Find(Sub(ls.head), id).Some? then Find(Sub(ls.head), id) else Find(ls.tail, id)
  {
  }

  lemma SubIsPresent(layer: Layer, id: Units)
    requires id in Ids(Sub(layer))
    ensures layer.children == Present(Sub(layer))
  {
  }

  lemma InTailThen(ls: Layers, id: Units)
    requires id in Ids(ls) && ls.head.id != id && id !in Ids(Sub(ls.head))
    ensures id in Ids(ls.tail)
  {
  }

  /** A removal takes out one layer with everything below it. */
  lemma {:induction false} RemoveDropsOneLayer(ls: Layers, id: Units, x: Units)
    requires Unique(ls) && id in Ids(ls)
    ensures Find(ls, id).Some?
    ensures x in Ids(LayerTrees.Remove(ls, id)) <==> x in Ids(ls) && x !in Ids(Cons(Find(ls, id).value, Nil))
  {
    FindsIds(ls, id);
    UniqueParts(ls);
    var head, tail := ls.head, ls.tail;
    FindsIds(Sub(head), id);
    if head.id == id {
    } else if id in Ids(Sub(head)) {
      RemoveDropsOneLayer(Sub(head), id, x);
      FoundIsInside(Sub(head), id, x);
    } else {
      RemoveDropsOneLayer(tail, id, x);
      FoundIsInside(tail, id, x);
    }
  }

  lemma FoundIsInside(ls: Layers, id: Units, x: Units)
    requires Find(ls, id).Some?
    ensures x in Ids(Cons(Find(ls, id).value, Nil)) ==> x in Ids(ls)
  {
    FindsIds(ls, id);
    assert Ids(Cons(Find(ls, id).value, Nil)) == [id] + Ids(Sub(Find(ls, id).value));
    if x in Ids(Cons(Find(ls, id).value, Nil)) && x != Find(ls, id).value.id { BelowAreIds(ls, id, x); }
  }

  lemma StartIsWithin(index: Option<int>, length: nat)
    ensures Start(index, length) <= length
  {
  }

  /** An inserted layer stands where the splice puts it, among the children of its parent. */
  lemma {:induction false} InsertPlaces(ls: Layers, parent: Option<Units>, index: Option<int>, layer: Layer)
    requires parent.Some? ==> parent.value in Ids(ls)
    ensures var (before, after) := (ChildIds(ls, parent),
      ChildIds(LayerTrees.Insert(ls, parent, index, layer), parent));
      var i := Start(index, |before|);
      i <= |before| && after == before[..i] + [layer.id] + before[i..]
    decreases ls
  {
    if parent.None? {
      TopIdsOfInsert(ls, 0, layer);
      StartIsWithin(index, Length(ls));
      TopIdsOfInsert(ls, Start(index, Length(ls)), layer);
    } else {
      InsertUnderPlaces(ls, parent.value, index, layer);
    }
  }

  lemma {:induction false} InsertUnderPlaces(ls: Layers, parent: Units, index: Option<int>, layer: Layer)
    requires parent in Ids(ls)
    ensures var (before, after) := (ChildIds(ls, Some(parent)),
      ChildIds(InsertUnder(ls, parent, index, layer), Some(parent)));
      var i := Start(index, |before|);
      i <= |before| && after == before[..i] + [layer.id] + before[i..]
    decreases ls
  {
    var head, tail := ls.head, ls.tail;
    FindsIds(ls, parent);
    FindsIds(Sub(head), parent);
    if head.id == parent {
      TopIdsOfInsert(Sub(head), 0, layer);
      StartIsWithin(index, Length(Sub(head)));
      TopIdsOfInsert(Sub(head), Start(index, Length(Sub(head))), layer);
    } else if parent in Ids(Sub(head)) {
      InsertUnderPlaces(Sub(head), parent, index, layer);
      InsertedUnderIds(Sub(head), parent, index, layer);
      FindsIds(InsertUnder(Sub(head), parent, index, layer), parent);
    } else {
      InsertUnderPlaces(tail, parent, index, layer);
    }
  }

  // ---- reordering ----------------------------------------------------------

  lemma {:induction false} MoveKeepsListSize(ls: Layers, id: Units, index: nat)
    requires Unique(ls) && id in Ids(ls) && index < Length(Siblings(ls, id))
    ensures Length(Siblings(Move(ls, id, index), id)) == Length(Siblings(ls, id))
    ensures Position(Siblings(ls, id), id) < Length(Siblings(ls, id))
  {
    UniqueParts(ls);
    if id in TopIds(ls) {
      TopIdsAreIds(ls, id);
      InsertRemoved(ls, Position(ls, id));
      RemoveAtInserted(RemoveAt(ls, Position(ls, id)), index, Nth(ls, Position(ls, id)));
      TopIdsOfInsert(RemoveAt(ls, Position(ls, id)), index, Nth(ls, Position(ls, id)));
      TopIdsOfInsert(Move(ls, id, index), 0, ls.head);
      MovedIsThere(ls, Position(ls, id), index);
    } else if id in Ids(Sub(ls.head)) {
      MoveKeepsListSize(Sub(ls.head), id, index);
      MoveIds(Sub(ls.head), id, index, id);
    } else {
      MoveKeepsListSize(ls.tail, id, index);
      MoveTouchesOneList(ls.tail, id, index, None);
      assert id !in TopIds(ls.tail);
    }
  }

  /** Reordering a layer back to its old position restores the project. */
  lemma ReorderBack(p: Project, id: Units, position: int, rules: Rules)
    requires Apply(p, Reorder(id, position), rules).Ok?
    ensures var q := Apply(p, Reorder(id, position), rules).value;
      Apply(q, Reorder(id, Position(Siblings(p.layers, id), id)), rules) == Ok(p)
  {
    hide Shallow, Unique;
    var q := Apply(p, Reorder(id, position), rules).value;
    FindsIds(p.layers, id);
    FindsIds(q.layers, id);
    MoveIds(p.layers, id, position, id);
    MoveKeepsListSize(p.layers, id, position);
    MoveBack(p.layers, id, position);
  }
}
