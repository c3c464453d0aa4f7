/** The editor session: bounded undo and redo around accepted commands. */
module EditorSessions {
  import opened Common
  import opened Json
  import opened LayerTrees
  import opened Editing

  datatype History<T> = History(past: seq<T>, future: seq<T>, capacity: nat)

  function Committed<T>(h: History<T>, before: T): History<T> {
    var past := h.past + [before];
    History(if |past| > h.capacity then past[1..] else past, [], h.capacity)
  }

  function Undone<T>(h: History<T>, current: T): Option<(History<T>, T)> {
    if h.past == [] then None
    else Some((History(h.past[..|h.past| - 1], h.future + [current], h.capacity), h.past[|h.past| - 1]))
  }

  function Redone<T>(h: History<T>, current: T): Option<(History<T>, T)> {
    if h.future == [] then None
    else Some((History(h.past + [current], h.future[..|h.future| - 1], h.capacity), h.future[|h.future| - 1]))
  }

  predicate Bounded<T>(h: History<T>) {
    h.capacity > 0 && |h.past| + |h.future| <= h.capacity
  }

  /** No operation lets the two stacks together outgrow the capacity, although redo never trims. */
  lemma StacksStayBounded<T>(h: History<T>, current: T)
    requires Bounded(h)
    ensures Bounded(Committed(h, current))
    ensures Undone(h, current).Some? ==> Bounded(Undone(h, current).value.0)
    ensures Redone(h, current).Some? ==> Bounded(Redone(h, current).value.0)
  {
  }

  class EditorHistory<T> {
    const capacity: nat
    var past: seq<T>
    var future: seq<T>

    ghost function Value(): History<T>
      reads this
    {
      History(past, future, capacity)
    }

    constructor (capacity: nat)
      requires capacity > 0
      ensures Value() == History([], [], capacity)
    {
      this.capacity, past, future := capacity, [], [];
    }

    method Commit(before: T)
      modifies this
      ensures Value() == Committed(old(Value()), before)
    {
      past := past + [before];
      if |past| > capacity {
        past := past[1..];
      }
      future := [];
    }

    method Undo(current: T) returns (r: Option<T>)
      modifies this
      ensures match Undone(old(Value()), current)
        case None => r == None && Value() == old(Value())
        case Some((h, project)) => r == Some(project) && Value() == h
    {
      if past == [] {
        return None;
      }
      future := future + [current];
      r := Some(past[|past| - 1]);
      past := past[..|past| - 1];
    }

    method Redo(current: T) returns (r: Option<T>)
      modifies this
      ensures match Redone(old(Value()), current)
        case None => r == None && Value() == old(Value())
        case Some((h, project)) => r == Some(project) && Value() == h
    {
      if future == [] {
        return None;
      }
      past := past + [current];
      r := Some(future[|future| - 1]);
      future := future[..|future| - 1];
    }
  }

  // ---- the session ---------------------------------------------------------

  /** A session with its log of accepted commands and the projects it handed to the save hook. */
  datatype Session = Session(
    project: Project,
    history: History<Project>,
    selection: seq<Units>,
    commands: seq<Command>,
    saves: seq<Project>)

  function Known(selection: seq<Units>, ids: seq<Units>): seq<Units> {
    if selection == [] then []
    else (if selection[0] in ids then [selection[0]] else []) + Known(selection[1..], ids)
  }

  /** Keeps the first of equal ids. */
  function Deduplicated(ids: seq<Units>): seq<Units> {
    if ids == [] then []
    else
      var front, last := Deduplicated(ids[..|ids| - 1]), ids[|ids| - 1];
      if last in front then front else front + [last]
  }

  function Showing(s: Session, project: Project, history: History<Project>): Session {
    Session(project, history, Known(s.selection, Ids(project.layers)), s.commands, s.saves + [project])
  }

  function Execute(s: Session, c: Command, rules: Rules): Result<Session, EditError> {
    if c.Editor? && !Conforms(rules.editor, c.value, rules.engine) then Err(InvalidEditor)
    else match Apply(s.project, c, rules)
    case Err(e) => Err(e)
    case Ok(next) => Ok(Showing(s, next, Committed(s.history, s.project)).(commands := s.commands + [c]))
  }

  function Undo(s: Session): Session {
    match Undone(s.history, s.project)
    case None => s
    case Some((h, project)) => Showing(s, project, h)
  }

  function Redo(s: Session): Session {
    match Redone(s.history, s.project)
    case None => s
    case Some((h, project)) => Showing(s, project, h)
  }

  function Select(s: Session, ids: seq<Units>): Result<Session, EditError> {
    if exists i :: 0 <= i < |ids| && ids[i] !in Ids(s.project.layers) then Err(LayerNotFound)
    else Ok(s.(selection := Deduplicated(ids)))
  }

  /** Replaces the project by an imported one for the same widget; there is none in a text that does not parse. */
  function Import(s: Session, read: Option<Project>, rules: Rules): Result<Session, EditError> {
    match read
    case None => Err(UnreadableText)
    case Some(p) =>
      if !Inspected(p, rules) then Err(InvalidProject)
      else if !Conforms(rules.settings, p.settings, rules.engine) then Err(InvalidSettings)
      else if !Conforms(rules.editor, if p.editor.Some? then p.editor.value else Object(map[]), rules.engine)
        then Err(InvalidEditor)
      else if Canonical(p.widget) != Canonical(s.project.widget) then Err(WidgetMismatch)
      else Ok(Showing(s, p, Committed(s.history, s.project)))
  }

  class EditorSession {
    var project: Project
    var history: EditorHistory<Project>
    var selection: seq<Units>
    var commands: seq<Command>
    var saves: seq<Project>
    const rules: Rules

    ghost function Value(): Session
      reads this, history
    {
      Session(project, history.Value(), selection, commands, saves)
    }

    constructor (project: Project, capacity: nat, rules: Rules)
      requires capacity > 0 && Inspected(project, rules)
      ensures Value() == Session(project, History([], [], capacity), [], [], [])
      ensures this.rules == rules && fresh(history)
    {
      this.project, selection, commands, saves, this.rules := project, [], [], [], rules;
      history := new EditorHistory<Project>(capacity);
    }

    /** Drops what is no longer there from the selection, and saves the project. */
    method Persist()
      modifies this`selection, this`saves
      ensures selection == Known(old(selection), Ids(project.layers)) && saves == old(saves) + [project]
    {
      var kept := [];
      for i := 0 to |selection|
        invariant kept + Known(selection[i..], Ids(project.layers)) == Known(selection, Ids(project.layers))
        invariant selection == old(selection) && saves == old(saves)
      {
        assert selection[i..] == [selection[i]] + selection[i + 1..];
        if selection[i] in Ids(project.layers) {
          kept := kept + [selection[i]];
        }
      }
      selection, saves := kept, saves + [project];
    }

    method Run(c: Command) returns (r: Result<(), EditError>)
      modifies this`project, this`selection, this`commands, this`saves, history
      ensures match Execute(old(Value()), c, rules)
        case Ok(s) => r == Ok(()) && Value() == s
        case Err(e) => r == Err(e) && Value() == old(Value())
    {
      hide Apply, Conforms, Known;
      if c.Editor? && !Conforms(rules.editor, c.value, rules.engine) {
        return Err(InvalidEditor);
      }
      var next := Apply(project, c, rules);
      if next.Err? {
        return Err(next.error);
      }
      history.Commit(project);
      project := next.value;
      commands := commands + [c];
      Persist();
      return Ok(());
    }

    method SelectLayers(ids: seq<Units>) returns (r: Result<(), EditError>)
      modifies this`selection
      ensures match Select(old(Value()), ids)
        case Ok(s) => r == Ok(()) && Value() == s
        case Err(e) => r == Err(e) && Value() == old(Value())
    {
      var distinct := [];
      for i := 0 to |ids|
        invariant forall j :: 0 <= j < i ==> ids[j] in Ids(project.layers)
        invariant distinct == Deduplicated(ids[..i])
        invariant selection == old(selection)
      {
        if ids[i] !in Ids(project.layers) {
          return Err(LayerNotFound);
        }
        assert ids[..i + 1][..i] == ids[..i];
        if ids[i] !in distinct {
          distinct := distinct + [ids[i]];
        }
      }
      assert ids[..|ids|] == ids;
      selection := distinct;
      return Ok(());
    }

    /** Takes over what was read from a text, if anything was. */
    method ImportProject(read: Option<Project>) returns (r: Result<(), EditError>)
      modifies this`project, this`selection, this`saves, history
      ensures match Import(old(Value()), read, rules)
        case Ok(s) => r == Ok(()) && Value() == s
        case Err(e) => r == Err(e) && Value() == old(Value())
    {
      hide Inspected, Conforms, Known, Canonical;
      if read.None? {
        return Err(UnreadableText);
      }
      var p := read.value;
      if !Inspected(p, rules) {
        return Err(InvalidProject);
      }
      if !Conforms(rules.settings, p.settings, rules.engine) {
        return Err(InvalidSettings);
      }
      var editor := if p.editor.Some? then p.editor.value else Object(map[]);
      if !Conforms(rules.editor, editor, rules.engine) {
        return Err(InvalidEditor);
      }
      if Canonical(p.widget) != Canonical(project.widget) {
        return Err(WidgetMismatch);
      }
      history.Commit(project);
      project := p;
      Persist();
      return Ok(());
    }

    method StepBack()
      modifies this`project, this`selection, this`saves, history
      ensures Value() == Undo(old(Value()))
    {
      hide Known;
      var value := history.Undo(project);
      if value.Some? {
        project := value.value;
        Persist();
      }
    }

    method StepForward()
      modifies this`project, this`selection, this`saves, history
      ensures Value() == Redo(old(Value()))
    {
      hide Known;
      var value := history.Redo(project);
      if value.Some? {
        project := value.value;
        Persist();
      }
    }
  }

  // ---- runs ----------------------------------------------------------------

  datatype SessionOp =
    | Commanded(command: Command)
    | SteppedBack
    | SteppedForward
    | Selected(ids: seq<Units>)
    | Imported(read: Option<Project>)

  function Step(s: Session, op: SessionOp, rules: Rules): Session {
    var r := match op
      case Commanded(c) => Execute(s, c, rules)
      case SteppedBack => Ok(Undo(s))
      case SteppedForward => Ok(Redo(s))
      case Selected(ids) => Select(s, ids)
      case Imported(p) => Import(s, p, rules);
    if r.Ok? then r.value else s
  }

  function Run(s: Session, ops: seq<SessionOp>, rules: Rules): Session
    decreases |ops|
  {
    if ops == [] then s else Step(Run(s, ops[..|ops| - 1], rules), ops[|ops| - 1], rules)
  }

  /**
   * Every project in sight passed inspection, the stacks fit, the selection names layers once, and what was
   * saved last is what is shown.
   */
  predicate SoundSession(s: Session, rules: Rules) {
    && Bounded(s.history)
    && Inspected(s.project, rules)
    && (forall i :: 0 <= i < |s.history.past| ==> Inspected(s.history.past[i], rules))
    && (forall i :: 0 <= i < |s.history.future| ==> Inspected(s.history.future[i], rules))
    && SelectionSound(s)
    && (s.saves != [] ==> s.saves[|s.saves| - 1] == s.project)
  }

  predicate SelectionSound(s: Session) {
    Distinct(s.selection) && forall id :: id in s.selection ==> id in Ids(s.project.layers)
  }

  lemma {:induction false} KnownIsSound(selection: seq<Units>, ids: seq<Units>)
    requires Distinct(selection)
    ensures Distinct(Known(selection, ids))
    ensures forall id :: id in Known(selection, ids) <==> id in selection && id in ids
  {
    if selection != [] {
      var rest := selection[1..];
      KnownIsSound(rest, ids);
      assert selection == [selection[0]] + rest;
      assert selection[0] !in rest;
    }
  }

  lemma {:induction false} DeduplicatedIsSound(ids: seq<Units>)
    ensures Distinct(Deduplicated(ids)) && forall id :: id in Deduplicated(ids) <==> id in ids
    decreases |ids|
  {
    if ids != [] {
      DeduplicatedIsSound(ids[..|ids| - 1]);
      assert ids == ids[..|ids| - 1] + [ids[|ids| - 1]];
    }
  }

  /** Accepted commands leave inspected projects. */
  lemma ApplyIsInspected(p: Project, c: Command, rules: Rules)
    ensures Apply(p, c, rules).Ok? ==> Inspected(Apply(p, c, rules).value, rules)
  {
    hide Inspected;
  }

  lemma StepIsSound(s: Session, op: SessionOp, rules: Rules)
    requires SoundSession(s, rules)
    ensures SoundSession(Step(s, op, rules), rules)
  {
    hide Inspected, Apply, Known, Conforms, Canonical, Deduplicated;
    StacksStayBounded(s.history, s.project);
    KnownIsSound(s.selection, Ids(Step(s, op, rules).project.layers));
    match op {
      case Commanded(c) => ApplyIsInspected(s.project, c, rules);
      case Selected(ids) => DeduplicatedIsSound(ids);
      case _ =>
    }
  }

  /** The invariant of the session over every run. */
  lemma {:induction false} RunIsSound(s: Session, ops: seq<SessionOp>, rules: Rules)
    requires SoundSession(s, rules)
    ensures SoundSession(Run(s, ops, rules), rules)
    decreases |ops|
  {
    hide SoundSession, Step;
    if ops != [] {
      RunIsSound(s, ops[..|ops| - 1], rules);
      StepIsSound(Run(s, ops[..|ops| - 1], rules), ops[|ops| - 1], rules);
    }
  }

  // ---- undoing and redoing -------------------------------------------------

  function ExecuteAll(s: Session, cs: seq<Command>, rules: Rules): Result<Session, EditError>
    decreases |cs|
  {
    if cs == [] then Ok(s)
    else match ExecuteAll(s, cs[..|cs| - 1], rules)
    case Err(e) => Err(e)
    case Ok(before) => Execute(before, cs[|cs| - 1], rules)
  }

  function UndoMany(s: Session, n: nat): Session {
    if n == 0 then s else Undo(UndoMany(s, n - 1))
  }

  function RedoMany(s: Session, n: nat): Session {
    if n == 0 then s else Redo(RedoMany(s, n - 1))
  }

  /** The project after the first `i` commands of an accepted run. */
  function After(s: Session, cs: seq<Command>, i: nat, rules: Rules): (p: Project)
    requires i <= |cs|
  {
    match ExecuteAll(s, cs[..i], rules)
    case Ok(next) => next.project
    case Err(_) => s.project
  }

  lemma {:induction false} PrefixesAreAccepted(s: Session, cs: seq<Command>, i: nat, rules: Rules)
    requires ExecuteAll(s, cs, rules).Ok? && i <= |cs|
    ensures ExecuteAll(s, cs[..i], rules).Ok?
    decreases |cs|
  {
    hide Execute;
    if i < |cs| {
      assert cs[..|cs| - 1][..i] == cs[..i];
      PrefixesAreAccepted(s, cs[..|cs| - 1], i, rules);
    } else {
      assert cs[..i] == cs;
    }
  }

  /** A commit puts the project on top and keeps what the capacity leaves room for. */
  lemma CommittedTop<T>(h: History<T>, before: T, n: nat)
    requires n <= |h.past| && n < h.capacity
    ensures var past := Committed(h, before).past;
      && |past| > n && past[|past| - 1] == before
      && past[|past| - 1 - n..|past| - 1] == h.past[|h.past| - n..]
  {
  }

  /** The projects that the first `n` commands replaced. */
  function Replaced(s: Session, cs: seq<Command>, n: nat, rules: Rules): seq<Project>
    requires n <= |cs|
  {
    seq(n, i requires 0 <= i < n => After(s, cs, i, rules))
  }

  /** The last entries of the past are the projects that the commands replaced. */
  lemma {:induction false} PastHoldsTheRun(s: Session, cs: seq<Command>, n: nat, rules: Rules)
    requires ExecuteAll(s, cs, rules).Ok? && n <= |cs| <= s.history.capacity
    ensures ExecuteAll(s, cs[..n], rules).Ok? && |ExecuteAll(s, cs[..n], rules).value.history.past| >= n
    ensures var past := ExecuteAll(s, cs[..n], rules).value.history.past;
      past[|past| - n..] == Replaced(s, cs, n, rules)
    decreases n
  {
    hide Apply, Known, Conforms, Committed, After;
    PrefixesAreAccepted(s, cs, n, rules);
    PastIsLong(s, cs, n, rules);
    if n > 0 {
      PastIsLong(s, cs, n - 1, rules);
      PastHoldsTheRun(s, cs, n - 1, rules);
      assert cs[..n][..n - 1] == cs[..n - 1];
      var before := ExecuteAll(s, cs[..n - 1], rules).value;
      CommittedTop(before.history, before.project, n - 1);
      AfterIs(s, cs, n - 1, rules);
      var past := ExecuteAll(s, cs[..n], rules).value.history.past;
      assert past[|past| - n..] == past[|past| - n..|past| - 1] + [past[|past| - 1]];
      assert Replaced(s, cs, n, rules) == Replaced(s, cs, n - 1, rules) + [After(s, cs, n - 1, rules)];
    }
  }

  lemma AfterIs(s: Session, cs: seq<Command>, i: nat, rules: Rules)
    requires i <= |cs| && ExecuteAll(s, cs[..i], rules).Ok?
    ensures After(s, cs, i, rules) == ExecuteAll(s, cs[..i], rules).value.project
  {
  }

  lemma {:induction false} PastIsLong(s: Session, cs: seq<Command>, n: nat, rules: Rules)
    requires ExecuteAll(s, cs, rules).Ok? && n <= |cs| <= s.history.capacity
    ensures ExecuteAll(s, cs[..n], rules).Ok?
    ensures var h := ExecuteAll(s, cs[..n], rules).value.history;
      h.capacity == s.history.capacity && |h.past| >= n && (n > 0 ==> h.future == [])
    decreases n
  {
    hide Apply, Known, Conforms;
    PrefixesAreAccepted(s, cs, n, rules);
    if n > 0 {
      PastIsLong(s, cs, n - 1, rules);
      assert cs[..n][..n - 1] == cs[..n - 1];
    }
  }

  /** The projects that undoing `k` of the commands puts aside. */
  function Aside(s: Session, cs: seq<Command>, k: nat, rules: Rules): seq<Project>
    requires k <= |cs|
  {
    seq(k, m requires 0 <= m < k => After(s, cs, |cs| - m, rules))
  }

  /** A session partway back: `k` of the run's commands undone. */
  predicate Rewound(s: Session, cs: seq<Command>, end: Session, k: nat, u: Session, rules: Rules)
    requires k <= |cs| <= |end.history.past|
  {
    && u.project == After(s, cs, |cs| - k, rules)
    && u.history == History(end.history.past[..|end.history.past| - k], end.history.future + Aside(s, cs, k, rules),
                            end.history.capacity)
  }

  /** The `i`-th entry of the run in the past. */
  lemma PastEntry(s: Session, cs: seq<Command>, i: nat, rules: Rules)
    requires ExecuteAll(s, cs, rules).Ok? && i < |cs| <= s.history.capacity
    ensures var past := ExecuteAll(s, cs, rules).value.history.past;
      |past| >= |cs| && past[|past| - |cs| + i] == After(s, cs, i, rules)
  {
    hide ExecuteAll, After;
    assert cs[..|cs|] == cs;
    PastHoldsTheRun(s, cs, |cs|, rules);
    var past := ExecuteAll(s, cs, rules).value.history.past;
    assert past[|past| - |cs|..][i] == Replaced(s, cs, |cs|, rules)[i];
  }

  /** The end of a run is no step back. */
  lemma NothingUndone(s: Session, cs: seq<Command>, rules: Rules)
    requires ExecuteAll(s, cs, rules).Ok? && |ExecuteAll(s, cs, rules).value.history.past| >= |cs|
    ensures var end := ExecuteAll(s, cs, rules).value; Rewound(s, cs, end, 0, end, rules)
  {
    hide ExecuteAll, After;
    var h := ExecuteAll(s, cs, rules).value.history;
    AfterAll(s, cs, rules);
    assert h.past[..|h.past|] == h.past && h.future + Aside(s, cs, 0, rules) == h.future;
  }

  lemma UndoStep(s: Session, cs: seq<Command>, end: Session, k: nat, u: Session, rules: Rules)
    requires k < |cs| <= |end.history.past| && Rewound(s, cs, end, k, u, rules)
    requires end.history.past[|end.history.past| - k - 1] == After(s, cs, |cs| - k - 1, rules)
    ensures Rewound(s, cs, end, k + 1, Undo(u), rules)
  {
    hide After, Known;
    assert Aside(s, cs, k + 1, rules) == Aside(s, cs, k, rules) + [After(s, cs, |cs| - k, rules)];
    var past := end.history.past;
    assert past[..|past| - k][..|past| - k - 1] == past[..|past| - (k + 1)];
  }

  lemma {:induction false} UndoRewinds(s: Session, cs: seq<Command>, k: nat, rules: Rules)
    requires ExecuteAll(s, cs, rules).Ok? && k <= |cs| <= s.history.capacity
    ensures |ExecuteAll(s, cs, rules).value.history.past| >= |cs|
    ensures Rewound(s, cs, ExecuteAll(s, cs, rules).value, k, UndoMany(ExecuteAll(s, cs, rules).value, k), rules)
  {
    hide ExecuteAll, After, Aside, Rewound, Undo;
    var end := ExecuteAll(s, cs, rules).value;
    if k == 0 {
      assert cs[..|cs|] == cs;
      PastIsLong(s, cs, |cs|, rules);
      NothingUndone(s, cs, rules);
    } else {
      UndoRewinds(s, cs, k - 1, rules);
      PastEntry(s, cs, |cs| - k, rules);
      UndoStep(s, cs, end, k - 1, UndoMany(end, k - 1), rules);
    }
  }

  lemma AfterAll(s: Session, cs: seq<Command>, rules: Rules)
    requires ExecuteAll(s, cs, rules).Ok?
    ensures After(s, cs, |cs|, rules) == ExecuteAll(s, cs, rules).value.project
    ensures After(s, cs, 0, rules) == s.project
  {
    assert cs[..|cs|] == cs;
    assert cs[..0] == [];
  }

  lemma {:induction false} RedoReplays(s: Session, cs: seq<Command>, k: nat, j: nat, rules: Rules)
    requires ExecuteAll(s, cs, rules).Ok? && j <= k <= |cs| <= s.history.capacity
    ensures var end := ExecuteAll(s, cs, rules).value;
      && |end.history.past| >= |cs|
      && Rewound(s, cs, end, k - j, RedoMany(UndoMany(end, k), j), rules)
  {
    hide ExecuteAll, Known, After, Aside, Redo, Rewound;
    var end := ExecuteAll(s, cs, rules).value;
    UndoRewinds(s, cs, k, rules);
    if j > 0 {
      RedoReplays(s, cs, k, j - 1, rules);
      PastEntry(s, cs, |cs| - (k - j) - 1, rules);
      RedoStep(s, cs, end, k - j + 1, RedoMany(UndoMany(end, k), j - 1), rules);
    }
  }

  lemma RedoStep(s: Session, cs: seq<Command>, end: Session, k: nat, u: Session, rules: Rules)
    requires 0 < k <= |cs| <= |end.history.past| && Rewound(s, cs, end, k, u, rules)
    requires end.history.past[|end.history.past| - k] == After(s, cs, |cs| - k, rules)
    ensures Rewound(s, cs, end, k - 1, Redo(u), rules)
  {
    hide After, Known;
    assert Aside(s, cs, k, rules) == Aside(s, cs, k - 1, rules) + [After(s, cs, |cs| - (k - 1), rules)];
    var past := end.history.past;
    assert past[..|past| - k] + [past[|past| - k]] == past[..|past| - (k - 1)];
  }

  /** The log grows by exactly the accepted commands, and each of them is saved once. */
  lemma {:induction false} CommandsAreLogged(s: Session, cs: seq<Command>, rules: Rules)
    requires ExecuteAll(s, cs, rules).Ok?
    ensures var end := ExecuteAll(s, cs, rules).value;
      end.commands == s.commands + cs && |end.saves| == |s.saves| + |cs|
    decreases |cs|
  {
    hide Apply, Known, Conforms, Committed;
    if cs != [] {
      CommandsAreLogged(s, cs[..|cs| - 1], rules);
      assert cs == cs[..|cs| - 1] + [cs[|cs| - 1]];
    }
  }

  /** As many commands as the capacity holds can all be undone, and all be redone again. */
  lemma UndoAllRedoAll(s: Session, cs: seq<Command>, rules: Rules)
    requires ExecuteAll(s, cs, rules).Ok? && |cs| <= s.history.capacity
    ensures var end := ExecuteAll(s, cs, rules).value;
      && UndoMany(end, |cs|).project == s.project
      && RedoMany(UndoMany(end, |cs|), |cs|).project == end.project
      && RedoMany(UndoMany(end, |cs|), |cs|).history == end.history
  {
    hide ExecuteAll, Known, After;
    var end := ExecuteAll(s, cs, rules).value;
    UndoRewinds(s, cs, |cs|, rules);
    RedoReplays(s, cs, |cs|, |cs|, rules);
    AfterAll(s, cs, rules);
  }
}
