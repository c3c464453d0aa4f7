/** The incremental projection of durable votes equals a rebuild from the vote totals. */
module Votes {
  import opened Common
  import opened Totals
  import opened Model
  import opened Boards
  import opened Scoring
  import opened Rankings
  import opened RankingInvariant

  /** What the host has committed: each participant's vote, and every routed score. */
  datatype Durable = Durable(ledger: map<string, Vote>, routed: seq<Vote>)

  datatype VoteOp =
    | Cast(participant: string, next: Vote)
    | Route(option: string, score: u64)

  // ---- totals per option ---------------------------------------------------

  function VotesIf(vote: Vote, option: string): u64 {
    if vote.option == option then vote.votes else 0
  }

  function CountsFor(ledger: map<string, Vote>, option: string): map<string, u64> {
    map p | p in ledger :: VotesIf(ledger[p], option)
  }

  ghost function VotesFor(ledger: map<string, Vote>, option: string): nat {
    Sum(CountsFor(ledger, option))
  }

  function RoutedFor(routed: seq<Vote>, option: string): nat {
    if routed == [] then 0 else VotesIf(routed[0], option) + RoutedFor(routed[1..], option)
  }

  lemma VotesForUpdate(ledger: map<string, Vote>, p: string, vote: Vote, option: string)
    ensures VotesFor(ledger[p := vote], option)
         == VotesFor(ledger, option) - (if p in ledger then VotesIf(ledger[p], option) else 0) + VotesIf(vote, option)
  {
    SumUpdate(CountsFor(ledger, option), p, VotesIf(vote, option));
    assert CountsFor(ledger[p := vote], option) == CountsFor(ledger, option)[p := VotesIf(vote, option)];
  }

  lemma {:induction false} RoutedForAppend(routed: seq<Vote>, vote: Vote, option: string)
    ensures RoutedFor(routed + [vote], option) == RoutedFor(routed, option) + VotesIf(vote, option)
  {
    if routed == [] {
      assert routed + [vote] == [vote];
    } else {
      RoutedForAppend(routed[1..], vote, option);
      assert (routed + [vote])[1..] == routed[1..] + [vote];
    }
  }

  // ---- the projection ------------------------------------------------------

  /** What an option is worth according to the durable data. */
  ghost function WorthOf(d: Durable, weight: u64, option: string): nat {
    VotesFor(d.ledger, option) * weight + RoutedFor(d.routed, option)
  }

  /** A ranking whose scores are exactly what the durable data is worth. */
  ghost predicate Projects(r: RankState, d: Durable) {
    && AssignmentWeight(r.definition).Ok?
    && forall option :: Get(r.board.scores, option) == WorthOf(d, AssignmentWeight(r.definition).value, option)
  }

  /** Applies one committed operation; a refused one is not recorded. */
  ghost function Commit(r: RankState, d: Durable, op: VoteOp): (RankState, Durable) {
    match op
    case Cast(p, next) =>
      var (after, result) := Assign(r, Lookup(d.ledger, p), next);
      (after, if result.Ok? then d.(ledger := d.ledger[p := next]) else d)
    case Route(option, score) =>
      var (after, result) := CommitScore(r, option, score);
      (after, if result.Ok? then d.(routed := d.routed + [Vote(option, score)]) else d)
  }

  lemma CreditMoves(b: Board, key: string, delta: u64, weight: u64, option: string)
    requires Boards.Apply(b, key, delta, weight).Ok?
    ensures Get(Boards.Apply(b, key, delta, weight).value.scores, option)
         == Get(b.scores, option) + (if option == key then delta * weight else 0)
  {
    hide Sum, Bytes;
    SumBoundsParts(b.scores, key, key);
  }

  lemma ReassignMoves(b: Board, from: string, to: string, amount: u64, additional: u64, option: string)
    requires Reassign(b, from, to, amount, additional).Ok?
    ensures Get(Reassign(b, from, to, amount, additional).value.scores, option)
         == Get(b.scores, option) - (if option == from then amount else 0)
          + (if option == to then amount + additional else 0)
  {
    hide Sum, Bytes;
  }

  lemma Distribute(a: int, b: int, weight: int)
    ensures (a + b) * weight == a * weight + b * weight
    ensures (a - b) * weight == a * weight - b * weight
  {
  }

  lemma CastProjects(r: RankState, d: Durable, p: string, next: Vote)
    requires Projects(r, d)
    requires Assign(r, Lookup(d.ledger, p), next).1.Ok?
    ensures Projects(Assign(r, Lookup(d.ledger, p), next).0, d.(ledger := d.ledger[p := next]))
  {
    hide Boards.Apply, Reassign, AssignmentWeight, Sum, WorthOf, VotesFor;
    var previous := Lookup(d.ledger, p);
    var weight, held := AssignmentWeight(r.definition).value, PreviousVote(previous, next);
    var after, durable := Assign(r, previous, next).0, d.(ledger := d.ledger[p := next]);
    var delta := next.votes - held.votes;
    forall option ensures Get(after.board.scores, option) == WorthOf(durable, weight, option) {
      assert Get(r.board.scores, option) == WorthOf(d, weight, option);
      if held.option == next.option {
        CreditMoves(r.board, next.option, delta, weight, option);
      } else if weight != 0 {
        ReassignMoves(r.board, held.option, next.option, held.votes * weight, delta * weight, option);
      }
      CastWorth(d, weight, p, next, option);
      Distribute(held.votes, delta, weight);
    }
  }

  /** What a cast vote does to the worth of every option. */
  lemma CastWorth(d: Durable, weight: u64, p: string, next: Vote, option: string)
    ensures var held := PreviousVote(Lookup(d.ledger, p), next);
      WorthOf(d.(ledger := d.ledger[p := next]), weight, option)
      == WorthOf(d, weight, option) - VotesIf(held, option) * weight + VotesIf(next, option) * weight
  {
    var before := VotesFor(d.ledger, option);
    var held := PreviousVote(Lookup(d.ledger, p), next);
    VotesForUpdate(d.ledger, p, next, option);
    Distribute(before - VotesIf(held, option), VotesIf(next, option), weight);
    Distribute(before, VotesIf(held, option), weight);
  }

  lemma RouteProjects(r: RankState, d: Durable, option: string, score: u64)
    requires Projects(r, d) && CommitScore(r, option, score).1.Ok?
    ensures Projects(CommitScore(r, option, score).0, d.(routed := d.routed + [Vote(option, score)]))
  {
    hide Boards.Apply, AssignmentWeight, Sum, VotesFor;
    var weight := AssignmentWeight(r.definition).value;
    var durable := d.(routed := d.routed + [Vote(option, score)]);
    forall o ensures Get(CommitScore(r, option, score).0.board.scores, o) == WorthOf(durable, weight, o) {
      assert Get(r.board.scores, o) == WorthOf(d, weight, o);
      CreditMoves(r.board, option, score, 1, o);
      RoutedForAppend(d.routed, Vote(option, score), o);
      assert score * 1 == score;
    }
  }

  /** Every operation, accepted or refused, keeps the scores equal to what was committed. */
  lemma CommitProjects(r: RankState, d: Durable, op: VoteOp)
    requires Consistent(r) && Projects(r, d)
    ensures var (after, durable) := Commit(r, d, op);
      Consistent(after) && Projects(after, durable) && after.definition == r.definition
  {
    hide Consistent, Boards.Apply, AssignOnBoard, AssignmentWeight, MoveOverflows, WorthOf;
    match op {
      case Cast(p, next) =>
        AssignConsistent(r, Lookup(d.ledger, p), next);
        if Assign(r, Lookup(d.ledger, p), next).1.Ok? { CastProjects(r, d, p, next); }
      case Route(option, score) =>
        CommitScoreConsistent(r, option, score);
        if CommitScore(r, option, score).1.Ok? { RouteProjects(r, d, option, score); }
    }
  }

  // ---- which votes are accepted --------------------------------------------

  /** The scores that the durable data stands for. */
  ghost predicate ScoresOf(scores: map<string, u64>, d: Durable, weight: u64) {
    && (forall option :: Get(scores, option) == WorthOf(d, weight, option))
    && (forall option :: option in scores ==> scores[option] > 0)
  }

  /** What the options are worth fits a board. */
  ghost predicate WorthFits(d: Durable, weight: u64, capacity: nat) {
    exists scores :: ScoresOf(scores, d, weight) && Fits(scores, capacity)
  }

  /** The durable data after a vote. */
  function AfterVote(d: Durable, p: string, next: Vote): Durable {
    d.(ledger := d.ledger[p := next])
  }

  /** What a vote does to the scores, given that they stand for the durable data. */
  lemma VoteMoves(b: Board, d: Durable, weight: u64, p: string, next: Vote, after: map<string, u64>)
    requires ScoresOf(b.scores, d, weight) && PreviousVote(Lookup(d.ledger, p), next).votes <= next.votes
    ensures var held := PreviousVote(Lookup(d.ledger, p), next);
      ScoresOf(after, AfterVote(d, p, next), weight) <==>
        Moves(b.scores, after, held.option, Value(held.votes, weight), next.option, Value(next.votes, weight))
  {
    hide WorthOf;
    var held := PreviousVote(Lookup(d.ledger, p), next);
    forall option
      ensures WorthOf(AfterVote(d, p, next), weight, option) == Get(b.scores, option)
        - (if option == held.option then held.votes * weight else 0)
        + (if option == next.option then next.votes * weight else 0)
    {
      CastWorth(d, weight, p, next, option);
    }
  }

  /** What some votes are worth at a weight. */
  function Value(votes: nat, weight: nat): nat {
    votes * weight
  }

  /** No participant's vote is worth more than its option. */
  lemma HeldIsWorth(d: Durable, weight: u64, p: string)
    requires p in d.ledger
    ensures d.ledger[p].votes * weight <= WorthOf(d, weight, d.ledger[p].option)
  {
    hide RoutedFor, VotesFor;
    HeldIsCounted(d.ledger, p);
    Monotone(d.ledger[p].votes, VotesFor(d.ledger, d.ledger[p].option), weight);
  }

  lemma HeldIsCounted(ledger: map<string, Vote>, p: string)
    requires p in ledger
    ensures ledger[p].votes <= VotesFor(ledger, ledger[p].option)
  {
    SumBoundsParts(CountsFor(ledger, ledger[p].option), p, p);
  }

  lemma VoteFitsExactly(b: Board, d: Durable, weight: u64, p: string, next: Vote)
    requires ScoresOf(b.scores, d, weight) && PreviousVote(Lookup(d.ledger, p), next).votes <= next.votes
    ensures var held := PreviousVote(Lookup(d.ledger, p), next);
      WorthFits(AfterVote(d, p, next), weight, b.capacity) <==>
        if held.option == next.option then CreditFits(b, next.option, Value(next.votes - held.votes, weight))
        else MoveFits(b, held.option, Value(held.votes, weight), next.option, Value(next.votes, weight))
  {
    hide WorthOf, ScoresOf, Moves, Fits, Value;
    var held := PreviousVote(Lookup(d.ledger, p), next);
    forall after: map<string, u64>
      ensures ScoresOf(after, AfterVote(d, p, next), weight) <==>
        Moves(b.scores, after, held.option, Value(held.votes, weight), next.option, Value(next.votes, weight))
      ensures held.option == next.option ==>
        (ScoresOf(after, AfterVote(d, p, next), weight) <==>
         Moves(b.scores, after, next.option, 0, next.option, Value(next.votes - held.votes, weight)))
    {
      VoteMoves(b, d, weight, p, next, after);
      if held.option == next.option { MovesInPlace(b.scores, after, held.votes, next.votes, weight, next.option); }
    }
  }

  lemma MovesInPlace(before: map<string, u64>, after: map<string, u64>, held: nat, next: nat, weight: nat,
                     option: string)
    requires held <= next
    ensures Moves(before, after, option, Value(held, weight), option, Value(next, weight))
       <==> Moves(before, after, option, 0, option, Value(next - held, weight))
  {
    Distribute(next, held, weight);
    Monotone(held, next, weight);
  }

  lemma Monotone(a: nat, b: nat, weight: nat)
    requires a <= b
    ensures 0 <= a * weight <= b * weight
  {
  }

  /**
   * A vote is accepted exactly when the ranking runs, the participant's count does not shrink, and what the
   * options are then worth fits. A vote that changes any worth also needs a valid option, a revision, and something
   * the participant's old option is worth.
   */
  lemma CastIsAcceptedExactly(r: RankState, d: Durable, p: string, next: Vote)
    requires Consistent(r) && Projects(r, d)
    ensures var weight, held := AssignmentWeight(r.definition).value, PreviousVote(Lookup(d.ledger, p), next);
      Assign(r, Lookup(d.ledger, p), next).1.Ok? <==>
        && !r.paused && held.votes <= next.votes
        && WorthFits(AfterVote(d, p, next), weight, r.definition.capacity)
        && if held.option == next.option
           then ValidKey(next.option) && ((next.votes - held.votes) * weight == 0 || r.board.revision < U64_MAX)
           else weight == 0
                || (ValidKey(next.option) && WorthOf(d, weight, held.option) > 0 && r.board.revision < U64_MAX)
  {
    hide WindowConsistent, UsersConsistent, ValidDefinition, ValidInstanceId, Sum, Bytes, Boards.Apply, Reassign,
         AssignmentWeight, WorthOf, WorthFits, CreditFits, MoveFits, Moves, WellKeyed, Fits;
    var weight, held := AssignmentWeight(r.definition).value, PreviousVote(Lookup(d.ledger, p), next);
    if held.votes <= next.votes {
      assert ScoresOf(r.board.scores, d, weight) by { ScoresArePositive(r); }
      VoteFitsExactly(r.board, d, weight, p, next);
      var delta := next.votes - held.votes;
      Distribute(next.votes, held.votes, weight);
      Monotone(0, held.votes, weight);
      Monotone(0, delta, weight);
      if held.option == next.option {
        ApplyIsExact(r.board, next.option, delta, weight);
        NoCreditFits(r.board, next.option);
      } else if weight == 0 {
        NothingMovesFits(r.board, held.option, next.option);
      } else {
        HeldIsWorth(d, weight, p);
        assert Get(r.board.scores, held.option) == WorthOf(d, weight, held.option);
        SumBoundsParts(r.board.scores, held.option, held.option);
        if delta * weight <= U64_MAX {
          ReassignIsExact(r.board, held.option, next.option, held.votes * weight, delta * weight);
          KeysAreValid(r, held.option);
        } else {
          MoveFitsExactly(r.board, held.option, held.votes * weight, next.option, next.votes * weight);
        }
      }
    }
  }

  lemma ScoresArePositive(r: RankState)
    requires Consistent(r)
    ensures forall key :: key in r.board.scores ==> r.board.scores[key] > 0
  {
    hide Sum, Bytes;
  }

  lemma KeysAreValid(r: RankState, key: string)
    requires Consistent(r)
    ensures key in r.board.scores ==> ValidKey(key) && r.board.scores[key] > 0
  {
    hide Sum;
  }

  lemma NoCreditFits(b: Board, key: string)
    requires Sound(b)
    ensures CreditFits(b, key, 0)
  {
    hide Sum, Bytes;
    assert Moves(b.scores, b.scores, key, 0, key, 0);
  }

  lemma NothingMovesFits(b: Board, from: string, to: string)
    requires Sound(b)
    ensures MoveFits(b, from, 0, to, 0)
  {
    hide Sum, Bytes;
    assert Moves(b.scores, b.scores, from, 0, to, 0);
  }

  /** A routed score is accepted exactly when it is worth nothing or what the options are then worth fits. */
  lemma RouteIsAcceptedExactly(r: RankState, d: Durable, option: string, score: u64)
    requires Consistent(r) && Projects(r, d)
    ensures var weight, after := AssignmentWeight(r.definition).value, d.(routed := d.routed + [Vote(option, score)]);
      CommitScore(r, option, score).1.Ok? <==>
        && !r.paused && ValidKey(option)
        && WorthFits(after, weight, r.definition.capacity) && (score == 0 || r.board.revision < U64_MAX)
  {
    hide WindowConsistent, UsersConsistent, ValidDefinition, ValidInstanceId, Sum, Bytes, Boards.Apply,
         AssignmentWeight, CreditFits, Moves, WellKeyed, Fits, VotesFor, RoutedFor;
    var weight, after := AssignmentWeight(r.definition).value, d.(routed := d.routed + [Vote(option, score)]);
    assert ScoresOf(r.board.scores, d, weight) by { ScoresArePositive(r); }
    ApplyIsExact(r.board, option, score, 1);
    assert score * 1 == score;
    NoCreditFits(r.board, option);
    forall scores: map<string, u64>
      ensures ScoresOf(scores, after, weight) <==> Moves(r.board.scores, scores, option, 0, option, score)
    {
      RouteMoves(r.board, d, weight, option, score, scores);
    }
    assert WorthFits(after, weight, r.definition.capacity) <==> CreditFits(r.board, option, score) by {
      SameFit(r.board, after, weight, option, score);
    }
  }

  lemma RouteMoves(b: Board, d: Durable, weight: u64, option: string, score: u64, after: map<string, u64>)
    requires ScoresOf(b.scores, d, weight)
    ensures ScoresOf(after, d.(routed := d.routed + [Vote(option, score)]), weight)
       <==> Moves(b.scores, after, option, 0, option, score)
  {
    hide VotesFor, RoutedFor;
    forall o
      ensures WorthOf(d.(routed := d.routed + [Vote(option, score)]), weight, o)
           == Get(b.scores, o) + (if o == option then score else 0)
    {
      RoutedForAppend(d.routed, Vote(option, score), o);
      assert Get(b.scores, o) == WorthOf(d, weight, o);
    }
  }

  lemma SameFit(b: Board, d: Durable, weight: u64, option: string, score: nat)
    requires forall scores: map<string, u64> ::
      ScoresOf(scores, d, weight) <==> Moves(b.scores, scores, option, 0, option, score)
    ensures WorthFits(d, weight, b.capacity) <==> CreditFits(b, option, score)
  {
    hide ScoresOf, Moves, Fits;
  }

  ghost function Replay(r: RankState, d: Durable, ops: seq<VoteOp>): (RankState, Durable)
    decreases |ops|
  {
    if ops == [] then (r, d)
    else
      var (before, durable) := Replay(r, d, ops[..|ops| - 1]);
      Commit(before, durable, ops[|ops| - 1])
  }

  lemma {:induction false} ReplayProjects(r: RankState, d: Durable, ops: seq<VoteOp>)
    requires Consistent(r) && Projects(r, d)
    ensures var (after, durable) := Replay(r, d, ops);
      Consistent(after) && Projects(after, durable) && after.definition == r.definition
    decreases |ops|
  {
    hide Consistent, Projects, Commit;
    if ops != [] {
      ReplayProjects(r, d, ops[..|ops| - 1]);
      var (before, durable) := Replay(r, d, ops[..|ops| - 1]);
      CommitProjects(before, durable, ops[|ops| - 1]);
    }
  }

  // ---- what a vote is worth ------------------------------------------------

  lemma {:induction false} VoteWeightNext(rules: seq<SourceRule>, rule: SourceRule)
    ensures VoteWeight(rules + [rule]) == VoteWeight(rules) + VoteWeight([rule])
  {
    if rules == [] {
      assert rules + [rule] == [rule];
    } else {
      VoteWeightNext(rules[1..], rule);
      assert (rules + [rule])[1..] == rules[1..] + [rule];
    }
  }

  lemma VoteRuleIsExact(rule: SourceRule, c: Contribution)
    requires Assignable(rule) && c.source == VOTE_SOURCE
    ensures RuleValue(rule, c) == Value(MetricTotal(c.metrics, "event.count"), VoteWeight([rule]))
    ensures !Ambiguous(rule, c)
  {
    hide MetricTotal;
    assert [rule][1..] == [];
  }

  /** A vote weighs what its packets score: the durable projection and the packet path agree on every vote. */
  lemma {:induction false} VotesWeighWhatTheyScore(rules: seq<SourceRule>, c: Contribution)
    requires forall rule :: rule in rules ==> Assignable(rule)
    requires c.source == VOTE_SOURCE
    ensures ExactScore(rules, c) == Value(MetricTotal(c.metrics, "event.count"), VoteWeight(rules))
    ensures !AnyAmbiguous(rules, c)
    decreases |rules|
  {
    hide MetricTotal, Assignable, VoteWeight, RuleValue, Ambiguous, Value;
    var votes := MetricTotal(c.metrics, "event.count");
    if rules == [] {
      NothingWeighs(votes);
    } else {
      var front, last := rules[..|rules| - 1], rules[|rules| - 1];
      assert rules == front + [last];
      VotesWeighWhatTheyScore(front, c);
      VoteRuleIsExact(last, c);
      VoteWeightNext(front, last);
      ValuesAdd(votes, VoteWeight(front), VoteWeight([last]));
    }
  }

  lemma NothingWeighs(votes: nat)
    ensures Value(votes, VoteWeight([])) == 0
  {
  }

  lemma ValuesAdd(votes: nat, a: nat, b: nat)
    ensures Value(votes, a + b) == Value(votes, a) + Value(votes, b)
  {
  }

  /**
   * In a ranking that durable votes can be projected on, a vote is worth what its packets would score, under the
   * option that its packets would be counted under.
   */
  lemma VotesMatchPackets(d: Definition, c: Contribution)
    requires AssignmentWeight(d).Ok? && c.source == "competition.vote"
    ensures ExactScore(d.sources, c) == MetricTotal(c.metrics, "event.count") * AssignmentWeight(d).value
    ensures !AnyAmbiguous(d.sources, c) && GroupingKey(d.groupBy, c) == c.option
    ensures d.window == Session && d.userLimits.None?
  {
    hide Assignable, ExactScore, AnyAmbiguous, VoteWeight;
    VotesWeighWhatTheyScore(d.sources, c);
  }

  // ---- rebuilding ----------------------------------------------------------

  predicate DistinctOptions(values: seq<Vote>) {
    forall i, j :: 0 <= i < j < |values| ==> values[i].option != values[j].option
  }

  predicate Listed(values: seq<Vote>, option: string) {
    exists i :: 0 <= i < |values| && values[i].option == option
  }

  /** A listing of per-option values: each option once, with its exact value, none with value missing. */
  ghost predicate Lists(values: seq<Vote>, valueOf: string -> nat) {
    && DistinctOptions(values)
    && (forall i :: 0 <= i < |values| ==> values[i].votes == valueOf(values[i].option))
    && (forall option :: valueOf(option) > 0 ==> Listed(values, option))
  }

  ghost predicate Below(a: map<string, u64>, b: map<string, u64>) {
    && (forall k :: k in a ==> a[k] > 0 && k in b && a[k] <= b[k])
  }

  lemma {:induction false} SumBelow(a: map<string, u64>, b: map<string, u64>)
    requires Below(a, b)
    ensures Sum(a) <= Sum(b)
    decreases |a|
  {
    if a != map[] {
      var k :| k in a;
      SumWithout(a, k);
      SumWithout(b, k);
      SumBelow(a - {k}, b - {k});
    }
  }

  /** A value that still fits under a bound that itself fits is always admitted. */
  lemma ApplyWithin(b: Board, bound: map<string, u64>, vote: Vote, weight: u64)
    requires Below(b.scores, bound) && |bound| <= b.capacity && Sum(bound) <= U64_MAX && b.revision < U64_MAX
    requires ValidKey(vote.option)
    requires Get(b.scores, vote.option) + Value(vote.votes, weight) <= Get(bound, vote.option)
    ensures var r := Boards.Apply(b, vote.option, vote.votes, weight);
      && r.Ok? && Below(r.value.scores, bound) && r.value.capacity == b.capacity
      && r.value.revision <= b.revision + 1
      && forall k ::
           Get(r.value.scores, k) == Get(b.scores, k) + (if k == vote.option then Value(vote.votes, weight) else 0)
  {
    hide Bytes, Sum, Below;
    var value := vote.votes * weight;
    if value > 0 {
      BelowNext(b.scores, bound, vote.option, value);
      SumBelow(b.scores[vote.option := Get(b.scores, vote.option) + value], bound);
      SumUpdate(b.scores, vote.option, Get(b.scores, vote.option) + value);
    }
  }

  lemma BelowNext(scores: map<string, u64>, bound: map<string, u64>, option: string, value: u64)
    requires Below(scores, bound) && value > 0 && Get(scores, option) + value <= Get(bound, option)
    ensures Below(scores[option := Get(scores, option) + value], bound)
    ensures option !in scores ==> |scores| < |bound|
  {
    if option !in scores {
      assert scores.Keys + {option} <= bound.Keys;
      SubsetSize(scores.Keys + {option}, bound.Keys);
      assert |scores.Keys| == |scores| && |bound.Keys| == |bound|;
    }
  }

  lemma SubsetSize(a: set<string>, b: set<string>)
    requires a <= b
    ensures |a| <= |b|
  {
    assert b == a + (b - a);
  }

  lemma ListedNext(values: seq<Vote>, last: Vote, option: string)
    ensures Listed(values + [last], option) <==> Listed(values, option) || option == last.option
  {
    var all := values + [last];
    assert all[|values|] == last;
    if Listed(values, option) {
      var i :| 0 <= i < |values| && values[i].option == option;
      assert all[i] == values[i];
    }
  }

  /** The first listed values were added to their options, and nothing else. */
  ghost predicate AddedUp(before: map<string, u64>, after: map<string, u64>, values: seq<Vote>, n: nat, weight: u64)
    requires n <= |values|
  {
    && (forall i :: 0 <= i < n ==>
         Get(after, values[i].option) == Get(before, values[i].option) + Value(values[i].votes, weight))
    && (forall k :: !Listed(values[..n], k) ==> Get(after, k) == Get(before, k))
  }

  lemma AddedUpNext(before: map<string, u64>, middle: map<string, u64>, after: map<string, u64>, values: seq<Vote>,
                    n: nat, weight: u64)
    requires 0 < n <= |values| && DistinctOptions(values) && AddedUp(before, middle, values, n - 1, weight)
    requires var last := values[n - 1]; forall k ::
      Get(after, k) == Get(middle, k) + (if k == last.option then Value(last.votes, weight) else 0)
    ensures AddedUp(before, after, values, n, weight)
  {
    hide Listed, Value;
    var front, last := values[..n - 1], values[n - 1];
    NotListedYet(values, n);
    forall k ensures Listed(values[..n], k) <==> Listed(front, k) || k == last.option {
      assert values[..n] == front + [last];
      ListedNext(front, last, k);
    }
  }

  lemma NotListedYet(values: seq<Vote>, n: nat)
    requires 0 < n <= |values| && DistinctOptions(values)
    ensures !Listed(values[..n - 1], values[n - 1].option)
  {
  }

  lemma NothingAddedUp(scores: map<string, u64>, values: seq<Vote>, weight: u64)
    ensures AddedUp(scores, scores, values, 0, weight)
  {
  }

  lemma {:induction false} ApplyAllWithin(b: Board, bound: map<string, u64>, values: seq<Vote>, n: nat, weight: u64)
    requires n <= |values| && DistinctOptions(values)
    requires forall i :: 0 <= i < |values| ==> ValidKey(values[i].option)
    requires Below(b.scores, bound) && |bound| <= b.capacity && Sum(bound) <= U64_MAX
    requires b.revision + |values| <= U64_MAX
    requires forall i :: 0 <= i < |values| ==>
      Get(b.scores, values[i].option) + Value(values[i].votes, weight) <= Get(bound, values[i].option)
    ensures var r := ApplyAll(b, values[..n], weight);
      && r.Ok? && Below(r.value.scores, bound) && r.value.capacity == b.capacity
      && r.value.revision <= b.revision + n
      && AddedUp(b.scores, r.value.scores, values, n, weight)
  {
    hide Bytes, Sum, Boards.Apply, Below, AddedUp, Listed;
    if n > 0 {
      ApplyAllWithin(b, bound, values, n - 1, weight);
      var front, last := values[..n - 1], values[n - 1];
      assert values[..n][..n - 1] == front && values[..n][n - 1] == last;
      var before := ApplyAll(b, front, weight).value;
      OptionUntouched(b.scores, before.scores, values, n, weight);
      ApplyWithin(before, bound, last, weight);
      AddedUpNext(b.scores, before.scores, Boards.Apply(before, last.option, last.votes, weight).value.scores, values,
                  n, weight);
      NoDuplicateYet(values, n);
    } else {
      assert values[..0] == [];
      NothingAddedUp(b.scores, values, weight);
    }
  }

  lemma OptionUntouched(before: map<string, u64>, middle: map<string, u64>, values: seq<Vote>, n: nat, weight: u64)
    requires 0 < n <= |values| && DistinctOptions(values) && AddedUp(before, middle, values, n - 1, weight)
    ensures Get(middle, values[n - 1].option) == Get(before, values[n - 1].option)
  {
    NotListedYet(values, n);
  }

  lemma NoDuplicateYet(values: seq<Vote>, n: nat)
    requires 0 < n <= |values| && DistinctOptions(values)
    ensures forall i :: 0 <= i < n - 1 ==> values[..n][i].option != values[n - 1].option
  {
  }

  lemma {:induction false} InvalidOptionFails(b: Board, values: seq<Vote>, i: nat, weight: u64)
    requires i < |values| && !ValidKey(values[i].option)
    ensures ApplyAll(b, values, weight).Err?
    decreases |values|
  {
    hide Bytes;
    if i < |values| - 1 {
      var front := values[..|values| - 1];
      assert front[i] == values[i];
      InvalidOptionFails(b, front, i, weight);
    }
  }

  /** A listing that names an option twice is refused. */
  lemma {:induction false} DuplicateOptionFails(b: Board, values: seq<Vote>, i: nat, j: nat, weight: u64)
    requires i < j < |values| && values[i].option == values[j].option
    ensures ApplyAll(b, values, weight).Err?
    decreases |values|
  {
    if j < |values| - 1 {
      var front := values[..|values| - 1];
      assert front[i] == values[i] && front[j] == values[j];
      DuplicateOptionFails(b, front, i, j, weight);
    }
  }

  /** A rebuild from listings that name some option twice, or an option that is no valid key, is refused. */
  lemma MalformedListingsAreRefused(capacity: nat, totals: seq<Vote>, scored: seq<Vote>, weight: u64)
    requires !DistinctOptions(totals) || !DistinctOptions(scored) || !AllValid(totals) || !AllValid(scored)
    ensures Rebuilt(capacity, totals, scored, weight).Err?
  {
    hide ApplyAll, Bytes;
    ListingIsRefused(EmptyBoard(capacity), totals, weight);
    var first := ApplyAll(EmptyBoard(capacity), totals, weight);
    if first.Ok? { ListingIsRefused(first.value, scored, 1); }
  }

  lemma ListingIsRefused(b: Board, values: seq<Vote>, weight: u64)
    ensures !DistinctOptions(values) || !AllValid(values) ==> ApplyAll(b, values, weight).Err?
  {
    hide ApplyAll, Bytes;
    if i, j :| 0 <= i < j < |values| && values[i].option == values[j].option {
      DuplicateOptionFails(b, values, i, j, weight);
    }
    if i :| 0 <= i < |values| && !ValidKey(values[i].option) {
      InvalidOptionFails(b, values, i, weight);
    }
  }

  predicate AllValid(values: seq<Vote>) {
    forall i :: 0 <= i < |values| ==> ValidKey(values[i].option)
  }

  /** Listing the vote totals gives every option what its votes are worth. */
  lemma TotalsAddUp(capacity: nat, d: Durable, weight: u64, bound: map<string, u64>, totals: seq<Vote>)
    requires Lists(totals, option => VotesFor(d.ledger, option)) && AllValid(totals)
    requires ScoresOf(bound, d, weight) && |bound| <= capacity && Sum(bound) <= U64_MAX && |totals| <= U64_MAX
    ensures var r := ApplyAll(EmptyBoard(capacity), totals, weight);
      && r.Ok? && Below(r.value.scores, bound) && r.value.capacity == capacity && r.value.revision <= |totals|
      && forall k :: Get(r.value.scores, k) == Value(VotesFor(d.ledger, k), weight)
  {
    hide ApplyAll, VotesFor, Sum, Bytes, RoutedFor, Value, Listed;
    forall i | 0 <= i < |totals| ensures Value(totals[i].votes, weight) <= Get(bound, totals[i].option) {
      WorthIsSum(d, weight, totals[i].option);
    }
    ApplyAllWithin(EmptyBoard(capacity), bound, totals, |totals|, weight);
    assert totals[..|totals|] == totals;
    var scores := ApplyAll(EmptyBoard(capacity), totals, weight).value.scores;
    forall k ensures Get(scores, k) == Value(VotesFor(d.ledger, k), weight) {
      ListedOrNothing(totals, option => VotesFor(d.ledger, option), k);
      NothingIsWorthNothing(weight);
    }
  }

  lemma WorthIsSum(d: Durable, weight: u64, option: string)
    ensures WorthOf(d, weight, option) == Value(VotesFor(d.ledger, option), weight) + RoutedFor(d.routed, option)
  {
    hide VotesFor, RoutedFor;
  }

  lemma NothingIsWorthNothing(weight: u64)
    ensures Value(0, weight) == 0
    ensures forall score: nat :: Value(score, 1) == score
  {
  }

  /** An option has its exact value in a listing, or it has none. */
  lemma ListedOrNothing(values: seq<Vote>, valueOf: string -> nat, option: string)
    requires Lists(values, valueOf)
    ensures if Listed(values, option)
      then exists i :: 0 <= i < |values| && values[i].option == option && values[i].votes == valueOf(option)
      else valueOf(option) == 0
  {
  }

  /** Listing the routed scores on top of that gives every option what it is worth. */
  lemma ScoredAddUp(b: Board, d: Durable, weight: u64, bound: map<string, u64>, scored: seq<Vote>)
    requires Lists(scored, option => RoutedFor(d.routed, option)) && AllValid(scored)
    requires ScoresOf(bound, d, weight) && |bound| <= b.capacity && Sum(bound) <= U64_MAX
    requires Below(b.scores, bound) && b.revision + |scored| <= U64_MAX
    requires forall k :: Get(b.scores, k) == Value(VotesFor(d.ledger, k), weight)
    ensures var r := ApplyAll(b, scored, 1); r.Ok? && r.value.scores == bound
  {
    hide ApplyAll, VotesFor, Sum, Bytes, RoutedFor, Value, Listed;
    NothingIsWorthNothing(weight);
    forall k ensures Get(bound, k) == Get(b.scores, k) + RoutedFor(d.routed, k) {
      WorthIsSum(d, weight, k);
    }
    ApplyAllWithin(b, bound, scored, |scored|, 1);
    assert scored[..|scored|] == scored;
    var scores := ApplyAll(b, scored, 1).value.scores;
    forall k ensures Get(scores, k) == Get(bound, k) {
      ListedOrNothing(scored, option => RoutedFor(d.routed, option), k);
    }
    SameScoresFromGet(scores, bound);
  }

  /**
   * Rebuilding from the per-option totals succeeds exactly when every listed option is a valid
   * key, and then yields the very scores that the incremental updates arrived at.
   */
  lemma RebuildEqualsIncremental(r: RankState, d: Durable, totals: seq<Vote>, scored: seq<Vote>)
    requires Consistent(r) && Projects(r, d)
    requires Lists(totals, option => VotesFor(d.ledger, option))
    requires Lists(scored, option => RoutedFor(d.routed, option))
    requires |totals| + |scored| <= U64_MAX
    ensures var rebuilt := Rebuilt(r.definition.capacity, totals, scored, AssignmentWeight(r.definition).value);
      && (rebuilt.Ok? <==> AllValid(totals) && AllValid(scored))
      && (rebuilt.Ok? ==> rebuilt.value.scores == r.board.scores && Sum(rebuilt.value.scores) == Sum(r.board.scores))
  {
    hide Consistent, ApplyAll, AssignmentWeight, VotesFor, Sum, Bytes, RoutedFor, Lists, Value, WorthOf;
    var weight, capacity := AssignmentWeight(r.definition).value, r.definition.capacity;
    BoardFacts(r);
    if AllValid(totals) && AllValid(scored) {
      TotalsAddUp(capacity, d, weight, r.board.scores, totals);
      ScoredAddUp(ApplyAll(EmptyBoard(capacity), totals, weight).value, d, weight, r.board.scores, scored);
    } else {
      MalformedListingsAreRefused(capacity, totals, scored, weight);
    }
  }

  lemma BoardFacts(r: RankState)
    requires Consistent(r)
    ensures |r.board.scores| <= r.definition.capacity && Sum(r.board.scores) <= U64_MAX
    ensures forall k :: k in r.board.scores ==> r.board.scores[k] > 0
  {
    hide Sum, Bytes;
  }

  /** From an empty session ranking, whatever votes and routed scores follow, a rebuild agrees. */
  lemma IncrementalVotesEqualRebuild(r: RankState, ops: seq<VoteOp>, totals: seq<Vote>, scored: seq<Vote>)
    requires Consistent(r) && r.board.scores == map[] && AssignmentWeight(r.definition).Ok?
    requires Lists(totals, option => VotesFor(Replay(r, Durable(map[], []), ops).1.ledger, option))
    requires Lists(scored, option => RoutedFor(Replay(r, Durable(map[], []), ops).1.routed, option))
    requires |totals| + |scored| <= U64_MAX && AllValid(totals) && AllValid(scored)
    requires Replay(r, Durable(map[], []), ops).0.board.revision < U64_MAX
    ensures var after := Replay(r, Durable(map[], []), ops).0;
      var (restored, result) := RestoreVotes(after, totals, scored);
      result.Ok? && restored.board.scores == after.board.scores
      && restored.board.revision == after.board.revision + 1
  {
    hide Consistent, Replay, AssignmentWeight, Rebuilt, VotesFor, RoutedFor, Lists;
    assert Projects(r, Durable(map[], [])) by { NothingCommitted(r); }
    ReplayProjects(r, Durable(map[], []), ops);
    var (after, durable) := Replay(r, Durable(map[], []), ops);
    RebuildEqualsIncremental(after, durable, totals, scored);
  }

  lemma NothingCommitted(r: RankState)
    requires r.board.scores == map[] && AssignmentWeight(r.definition).Ok?
    ensures Projects(r, Durable(map[], []))
  {
    hide AssignmentWeight;
    forall option ensures VotesFor(map[], option) == 0 {
      assert CountsFor(map[], option) == map[];
    }
  }
}
