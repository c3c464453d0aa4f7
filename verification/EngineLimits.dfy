/** How large an engine gets, and that it may get that large. */
module EngineLimits {
  import opened Common
  import opened Totals
  import opened Model
  import opened Rankings
  import opened RankingRuns
  import opened EngineSpec

  /** A ranking is created exactly if there is room, a valid definition, a free name and an instance number left. */
  lemma CreationIsExact(e: EngineState, d: Definition, instanceId: string)
    requires ValidEngine(e)
    ensures EngineStep(e, Create(d, instanceId))
      == if |e.rankings| < 128 && ValidDefinition(d) && d.id !in e.rankings && e.nextInstance < U64_MAX
           && ValidInstanceId(instanceId)
         then EngineState(e.rankings[d.id := Fresh(d, e.nextInstance + 1, instanceId)], e.nextInstance + 1)
         else e
  {
    hide ValidEngine, ValidDefinition, ValidInstanceId;
  }

  /** A step adds at most the ranking it creates. */
  lemma KeysAfterStep(e: EngineState, op: EngineOp)
    requires ValidEngine(e)
    ensures EngineStep(e, op).rankings.Keys <= e.rankings.Keys + (if op.Create? then {op.definition.id} else {})
    ensures |e.rankings| >= 128 ==> EngineStep(e, op).rankings.Keys <= e.rankings.Keys
  {
    hide ValidEngine, ValidDefinition, ValidInstanceId, Step, Concerns, Fresh;
  }

  lemma SizeAfterStep(e: EngineState, op: EngineOp)
    requires ValidEngine(e) && |e.rankings| <= 128
    ensures |EngineStep(e, op).rankings| <= 128
  {
    hide ValidEngine, EngineStep;
    KeysAfterStep(e, op);
    var (before, after) := (e.rankings.Keys, EngineStep(e, op).rankings.Keys);
    assert |before| == |e.rankings| && |after| == |EngineStep(e, op).rankings|;
    if |e.rankings| == 128 || !op.Create? {
      Smaller(after, before);
    } else {
      Smaller(after, before + {op.definition.id});
      assert |before + {op.definition.id}| <= |before| + 1;
    }
  }

  lemma Smaller(a: set<string>, b: set<string>)
    requires a <= b
    ensures |a| <= |b|
  {
    assert b == a + (b - a);
  }

  lemma {:induction false} FewRankings(ops: seq<EngineOp>)
    ensures |EngineRun(Empty, ops).rankings| <= 128
    decreases |ops|
  {
    hide EngineStep;
    if ops != [] {
      FewRankings(ops[..|ops| - 1]);
      SizeAfterStep(EngineRun(Empty, ops[..|ops| - 1]), ops[|ops| - 1]);
    }
  }

  /** What a ranking in order holds at most. */
  lemma RankingIsBounded(r: RankState)
    requires Consistent(r)
    ensures |r.board.scores| <= 100_000 && |r.board.metadata| <= 100_000
    ensures |r.windowEvents| <= 100_000 && |r.users| <= 100_000 && |r.definition.sources| <= 64
  {
    hide Bytes, Sum, IsTally, ValidInstanceId;
    Smaller(r.board.metadata.Keys, r.board.scores.Keys);
    assert |r.board.metadata.Keys| == |r.board.metadata| && |r.board.scores.Keys| == |r.board.scores|;
  }

  /**
   * Memory stays bounded: in every run, whatever is fed, voted or restored, an engine holds at most 128 rankings of
   * at most 100 000 participants, window events and users each, with at most 64 rules.
   */
  lemma EngineStaysBounded(ops: seq<EngineOp>, id: string)
    requires id in EngineRun(Empty, ops).rankings
    ensures var e := EngineRun(Empty, ops);
      var r := e.rankings[id];
      && |e.rankings| <= 128
      && |r.board.scores| <= 100_000 && |r.board.metadata| <= 100_000
      && |r.windowEvents| <= 100_000 && |r.users| <= 100_000 && |r.definition.sources| <= 64
  {
    hide Consistent, EngineRun;
    FewRankings(ops);
    assert ValidRanking(EngineRun(Empty, ops), id);
    RankingIsBounded(EngineRun(Empty, ops).rankings[id]);
  }

  /** The greatest rule. */
  predicate GreatestRule(rule: SourceRule) {
    && Bytes(rule.source) == 128 && Bytes(rule.metric) == 128 && rule.weight == 1_000_000_000
    && |rule.giftMultipliers| == 512
    && forall gift :: gift in rule.giftMultipliers ==>
         Bytes(gift) == 128 && rule.giftMultipliers[gift] == 1_000_000_000
  }

  /** The limits are attained: a definition at every one of them is valid, with the longest day offsets as well. */
  lemma GreatestDefinitionIsValid(d: Definition)
    requires d.schemaVersion == 1 && Bytes(d.id) == 128 && Bytes(d.creatorId) == 256 && Bytes(d.roomId) == 256
    requires |d.sources| == 64 && d.capacity == 100_000 && d.limit > 0
    requires d.window in {Session, Rolling(U64_MAX, 100_000), Daily(-840), Daily(840)}
    requires d.userLimits in {None, Some(UserLimits(Some(U64_MAX), Some(U64_MAX), 100_000)),
                              Some(UserLimits(Some(1), None, 1)), Some(UserLimits(None, Some(1), 1))}
    requires forall rule :: rule in d.sources ==> GreatestRule(rule)
    ensures ValidDefinition(d)
  {
    hide AssignmentWeight, IsCompetition, Bytes;
    GreatestRulesAreNoVotes(d);
    assert |d.sources| > 0;
  }

  lemma GreatestRulesAreNoVotes(d: Definition)
    requires forall rule :: rule in d.sources ==> GreatestRule(rule)
    ensures !IsCompetition(d)
  {
    hide Bytes;
    BytesOfAscii(VOTE_SOURCE);
    assert |VOTE_SOURCE| == 16;
    assert forall rule :: rule in d.sources ==> Bytes(rule.source) == 128;
  }

  lemma {:induction false} BytesOfAscii(s: string)
    requires forall i :: 0 <= i < |s| ==> s[i] < '\U{0080}'
    ensures Bytes(s) == |s|
    decreases |s|
  {
    if s != [] { BytesOfAscii(s[1..]); }
  }
}
