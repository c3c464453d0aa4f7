/** What the control operations of a ranking do, told by new rankings and by what packets would score. */
module Control {
  import opened Common
  import opened Model
  import opened Boards
  import opened Scoring
  import opened Rankings

  // ---- starting over, pausing ----------------------------------------------

  /** A new ranking in the place of another one: only its instance, pause flag and a revision tell. */
  function StartedOver(r: RankState, d: Definition, revision: u64): RankState {
    Fresh(d, r.instance, r.instanceId).(board := EmptyBoard(d.capacity).(revision := revision), paused := r.paused)
  }

  /** A reset leaves a ranking as new under the next revision, unless the revision is spent. */
  lemma ResetStartsOver(r: RankState)
    requires Consistent(r)
    ensures ResetRanking(r).1.Ok? <==> r.board.revision < U64_MAX
    ensures ResetRanking(r).0
      == if r.board.revision < U64_MAX then StartedOver(r, r.definition, r.board.revision + 1) else r
  {
    hide Sound, WindowConsistent, UsersConsistent, ValidDefinition, ValidInstanceId;
  }

  /**
   * A definition is replaced exactly if it is valid and the ranking is paused, with or without a reset; without one
   * only the number of entries shown may differ. A reset starts over under the new definition.
   */
  lemma RedefinitionIsExact(r: RankState, d: Definition, reset: bool)
    requires Consistent(r)
    ensures Redefine(r, d, reset).1.None? <==>
      && ValidDefinition(d) && r.paused && r.board.revision < U64_MAX
      && (reset || d == r.definition.(limit := d.limit))
    ensures var (after, error) := Redefine(r, d, reset);
      if error.Some? then after == r
      else if reset then after == StartedOver(r, d, r.board.revision + 1)
      else after == r.(definition := d, board := r.board.(revision := r.board.revision + 1))
  {
    hide Sound, WindowConsistent, UsersConsistent, ValidDefinition, ValidInstanceId;
  }

  /** Pausing and resuming change the flag and the revision, and nothing when the flag is set already. */
  lemma PauseIsExact(r: RankState, paused: bool)
    ensures var (after, result) := SetPaused(r, paused);
      && (result.Ok? <==> paused == r.paused || r.board.revision < U64_MAX)
      && after == if result.Err? || paused == r.paused then r
                  else r.(paused := paused, board := r.board.(revision := r.board.revision + 1))
  {
  }

  // ---- gaps ----------------------------------------------------------------

  function Next(n: u64): u64 {
    if n == U64_MAX then n else n + 1
  }

  /** One more rejection, visible in the revision as long as there is one left. */
  function Marked(r: RankState): RankState {
    r.(rejected := Next(r.rejected), board := r.board.(revision := Next(r.board.revision)))
  }

  /** A running ranking of that creator and room; competition rankings watch their votes alone. */
  predicate Watches(r: RankState, creator: string, room: string, source: string) {
    && !r.paused && r.definition.creatorId == creator && r.definition.roomId == room
    && (source == "competition.vote" || !HasSource(r.definition, "competition.vote"))
  }

  /** A packet that reports one unit of a metric and nothing else. */
  function OneUnit(creator: string, room: string, source: string, metric: string): Contribution {
    Contribution(creator, room, source, None, None, None, None, None, [(metric, 1)])
  }

  lemma {:induction false} ScoresIfARuleDoes(rules: seq<SourceRule>, c: Contribution)
    ensures ExactScore(rules, c) > 0 <==> exists i :: 0 <= i < |rules| && RuleValue(rules[i], c) > 0
    decreases |rules|
  {
    hide RuleValue;
    if rules != [] {
      var front, last := rules[..|rules| - 1], rules[|rules| - 1];
      ScoresIfARuleDoes(front, c);
      if i :| 0 <= i < |front| && RuleValue(front[i], c) > 0 { assert rules[i] == front[i]; }
      if i :| 0 <= i < |rules| && RuleValue(rules[i], c) > 0 && i < |front| { assert rules[i] == front[i]; }
    }
  }

  lemma OneUnitIsWorthItsWeight(rule: SourceRule, creator: string, room: string, source: string, metric: string)
    ensures var c := OneUnit(creator, room, source, metric);
      && RuleValue(rule, c)
        == (if rule.enabled && rule.source == source && rule.metric == metric then rule.weight else 0)
  {
    var c := OneUnit(creator, room, source, metric);
    assert c.metrics[1..] == [];
    assert MetricTotal(c.metrics, rule.metric) == if rule.metric == metric then 1 else 0;
  }

  /** Missing input of a source counts as a rejection exactly where an enabled rule reads the source. */
  lemma SourceGapsAreMarkedExactly(r: RankState, creator: string, room: string, source: string)
    ensures MarkSourceGap(r, creator, room, source)
      == if Watches(r, creator, room, source)
           && exists rule :: rule in r.definition.sources && rule.enabled && rule.source == source
         then Marked(r) else r
  {
    hide Ruled;
  }

  /** An unmeasured metric counts as a rejection exactly where one unit of it would have scored. */
  lemma MetricGapsAreMarkedExactly(r: RankState, creator: string, room: string, source: string, metric: string)
    ensures MarkMetricGap(r, creator, room, source, metric)
      == if Watches(r, creator, room, source)
           && ExactScore(r.definition.sources, OneUnit(creator, room, source, metric)) > 0
         then Marked(r) else r
  {
    hide Ruled, ExactScore, RuleValue;
    var rules := r.definition.sources;
    ScoresIfARuleDoes(rules, OneUnit(creator, room, source, metric));
    forall rule: SourceRule { OneUnitIsWorthItsWeight(rule, creator, room, source, metric); }
    if i :| 0 <= i < |rules| && RuleValue(rules[i], OneUnit(creator, room, source, metric)) > 0 {
      assert rules[i] in rules && Weighs(rules[i], source, metric);
    }
  }

  /** A gap of the ranking itself counts while it runs, one in its recovery always; lost packets are counted apart. */
  lemma OtherGapsAreMarkedExactly(r: RankState, count: u64)
    ensures MarkGap(r) == if r.paused then r else Marked(r)
    ensures MarkRecoveryGap(r).0 == Marked(r) && (MarkRecoveryGap(r).1.Ok? <==> r.board.revision < U64_MAX)
    ensures MarkLoss(r, count)
      == if r.paused || count == 0 then r
         else r.(dropped := if r.dropped + count > U64_MAX then U64_MAX else r.dropped + count,
                 board := r.board.(revision := Next(r.board.revision)))
  {
  }
}
