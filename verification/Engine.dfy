/** The engine: its rankings, the index from sources to rankings, and the loops over them. */
module Engine {
  import opened Common
  import opened Ordering
  import opened Model
  import opened Boards
  import opened Rankings
  import opened Checkpoints
  import opened RestoredBehaviour
  import opened RankingRuns
  import opened RankingObject
  import opened EngineSpec

  /** The failures of one contribution, in the order the rankings are listed. */
  ghost function Failures(e: EngineState, ids: seq<string>, c: Contribution, now: u64,
                          user: Option<Metadata>, gift: Option<Metadata>): seq<(string, Error)>
    requires forall id :: id in ids ==> id in e.rankings
    decreases |ids|
  {
    if ids == [] then []
    else
      var last := ids[|ids| - 1];
      var verdict := Packet(e.rankings[last], c, now, user, gift).1;
      Failures(e, ids[..|ids| - 1], c, now, user, gift)
        + (if verdict.Refused? || verdict.ExpiryFailed? then [(last, verdict.error)] else [])
  }

  lemma CreateStep(e: EngineState, d: Definition, instanceId: string)
    requires ValidEngine(e) && CreateError(e, d).None? && ValidInstanceId(instanceId)
    ensures var op := EngineOp.Create(d, instanceId);
      EngineStep(e, op) == EngineState(e.rankings[d.id := Fresh(d, e.nextInstance + 1, instanceId)], e.nextInstance + 1)
      && ValidEngine(EngineStep(e, op))
  {
    hide Consistent, Fresh, ValidDefinition, ValidInstanceId;
    EngineStepValid(e, EngineOp.Create(d, instanceId));
  }

  lemma DeleteStep(e: EngineState, id: string)
    requires ValidEngine(e)
    ensures EngineStep(e, Delete(id)) == e.(rankings := e.rankings - {id}) && ValidEngine(EngineStep(e, Delete(id)))
  {
    hide Consistent;
    EngineStepValid(e, Delete(id));
  }

  /** An operation that steps every ranking it concerns is a step of the engine. */
  lemma StepEach(e: EngineState, op: EngineOp, after: EngineState)
    requires ValidEngine(e) && !op.Create? && !op.Delete?
    requires after.nextInstance == e.nextInstance && after.rankings.Keys == e.rankings.Keys
    requires forall id :: id in e.rankings ==>
      ValidRanking(e, id) && after.rankings[id] == StepIf(e.rankings[id], Concerns(op, e.rankings[id]))
    ensures EngineStep(e, op) == after && ValidEngine(after)
  {
    hide Consistent, Step;
    EngineStepValid(e, op);
    assert EngineStep(e, op).rankings == after.rankings;
  }

  function DefinitionsOf(rankings: map<string, RankState>): map<string, Definition> {
    map id | id in rankings :: rankings[id].definition
  }

  /** The ids listed under a source; none when the source is unknown. */
  function ListedUnder(index: SourceIndex, source: string): seq<string> {
    if source in index then index[source] else []
  }

  /** A well-formed index lists, once each, precisely the rankings an operation on a source concerns. */
  lemma ListsExactly(e: EngineState, index: SourceIndex, source: string)
    requires IndexExact(index, DefinitionsOf(e.rankings))
    ensures NoDuplicates(ListedUnder(index, source))
    ensures forall id :: id in ListedUnder(index, source) <==>
      id in e.rankings && HasSource(e.rankings[id].definition, source)
  {
    forall id
      ensures id in ListedUnder(index, source) <==> id in e.rankings && HasSource(e.rankings[id].definition, source)
    {
      assert Indexed(index, source, id) <==>
        id in DefinitionsOf(e.rankings) && HasSource(DefinitionsOf(e.rankings)[id], source);
    }
  }

  class Engine {
    var rankings: map<string, Ranking>
    var bySource: SourceIndex
    var nextInstance: u64

    /** The engine state these objects stand for. */
    ghost var view: EngineState
    ghost var Repr: set<object>

    /** Every ranking object is in order and stands for its part of the view. */
    ghost predicate Parts()
      reads `rankings, `view, `nextInstance, `Repr, Repr
    {
      && this !in Repr
      && rankings.Keys == view.rankings.Keys
      && nextInstance == view.nextInstance
      && forall id :: id in rankings ==>
           && rankings[id] in Repr && rankings[id].Repr <= Repr
           && rankings[id].Valid() && rankings[id].State() == view.rankings[id]
    }

    lemma KeysMatch()
      requires Parts()
      ensures rankings.Keys == view.rankings.Keys && nextInstance == view.nextInstance && this !in Repr
    {
    }

    lemma Stands(id: string)
      requires Parts() && id in rankings
      ensures rankings[id].State() == view.rankings[id] && rankings[id].Repr <= Repr
      ensures rankings[id].Valid() && rankings[id] in Repr
    {
      hide Ranking.Valid, Ranking.State;
    }

    /** No two rankings share an object. */
    ghost predicate Apart()
      reads `rankings, rankings.Values
    {
      forall i, j :: i in rankings && j in rankings && i != j ==> rankings[i].Repr !! rankings[j].Repr
    }

    /** Rankings stand for what they stood for when only the engine and one other ranking were written to. */
    twostate lemma Untouched(id: string)
      requires old(Parts()) && old(Apart())
      requires forall j :: j in rankings && j != id ==> j in old(rankings) && rankings[j] == old(rankings[j])
      requires forall o :: o in old(Repr) && !(id in old(rankings) && o in old(rankings[id].Repr)) ==> unchanged(o)
      ensures forall j :: j in rankings && j != id ==>
        && rankings[j].Repr == old(rankings[j].Repr) && rankings[j].Valid()
          && rankings[j].State() == old(view).rankings[j]
    {
      hide Ranking.Valid, Ranking.State;
      forall j | j in rankings && j != id
        ensures rankings[j].Repr == old(rankings[j].Repr) && rankings[j].Valid()
          && rankings[j].State() == old(view).rankings[j]
      {
        assert old(rankings[j].Valid());
        assert old(rankings[j].State()) == old(view).rankings[j];
        assert id in old(rankings) ==> old(rankings[j].Repr) !! old(rankings[id].Repr);
      }
    }

    twostate lemma StillApart(id: string)
      requires old(Apart())
      requires forall j :: j in rankings && j != id ==>
        && j in old(rankings) && rankings[j] == old(rankings[j]) && rankings[j].Repr == old(rankings[j].Repr)
        && rankings[j].Repr <= old(Repr)
      requires id in rankings ==> forall o :: o in rankings[id].Repr && o in old(Repr) ==>
        id in old(rankings) && o in old(rankings[id].Repr)
      ensures Apart()
    {
      forall i, j | i in rankings && j in rankings && i != j ensures rankings[i].Repr !! rankings[j].Repr {
        if i != id && j != id {
          assert old(rankings[i].Repr) !! old(rankings[j].Repr);
        } else {
          var k := if i == id then j else i;
          assert id in old(rankings) ==> old(rankings[k].Repr) !! old(rankings[id].Repr);
        }
      }
    }

    /** One ranking was added, removed or changed in step with the view: the engine is still faithful. */
    twostate lemma StillFaithful(id: string)
      requires old(Parts()) && old(Apart())
      requires forall j :: j in rankings && j != id ==> j in old(rankings) && rankings[j] == old(rankings[j])
      requires forall o :: o in old(Repr) && !(id in old(rankings) && o in old(rankings[id].Repr)) ==> unchanged(o)
      requires this !in Repr && old(Repr) <= Repr && rankings.Keys == view.rankings.Keys
        && nextInstance == view.nextInstance
      requires forall j :: j in rankings && j != id ==> view.rankings[j] == old(view).rankings[j]
      requires id in rankings ==>
        && rankings[id] in Repr && rankings[id].Repr <= Repr
        && rankings[id].Valid() && rankings[id].State() == view.rankings[id]
        && forall o :: o in rankings[id].Repr && o in old(Repr) ==> id in old(rankings) && o in old(rankings[id].Repr)
      ensures Parts() && Apart()
    {
      hide Ranking.Valid, Ranking.State, Apart;
      Untouched(id);
      StillApart(id);
      assert Parts();
    }

    ghost predicate Valid()
      reads this, Repr, rankings.Values
    {
      Parts() && Apart() && ValidEngine(view) && IndexExact(bySource, DefinitionsOf(view.rankings))
    }

    constructor ()
      ensures Valid() && fresh(Repr) && view == Empty
    {
      rankings, bySource, nextInstance := map[], map[], 0;
      view, Repr := Empty, {};
    }

    /** Adds a ranking under a fresh instance number and a fresh random identity. */
    method Create(d: Definition, identity: Option<string>) returns (error: Option<DefinitionError>)
      requires Valid()
      requires identity.Some? ==> ValidInstanceId(identity.value)
      modifies this
      ensures error == (var e := CreateError(old(view), d);
        if identity.None? && (e.None? || e == Some(RevisionOverflow)) then Some(IdentityUnavailable) else e)
      ensures error.None? ==> view == EngineStep(old(view), EngineOp.Create(d, identity.value))
      ensures error.Some? ==> view == old(view)
      ensures error.Some? && error != Some(RevisionOverflow) ==> bySource == old(bySource)
      ensures error != Some(RevisionOverflow) ==> fresh(Repr - old(Repr)) && Valid()
      ensures error == Some(RevisionOverflow) <==> !IndexExact(bySource, DefinitionsOf(view.rankings))
    {
      hide ValidDefinition, ValidInstanceId, Consistent, Bytes, Fresh, IndexExact, AddSources, EngineStep, ValidEngine,
           Ranking.Valid, Ranking.State, Parts, Apart, DefinitionsOf;
      KeysMatch();
      error := Refusal(d, identity);
      if error.Some? {
        return;
      }
      CreatedIndex(view, bySource, d);
      DanglingIndex(view, bySource, d);
      bySource := ListSources(bySource, d);
      if nextInstance == U64_MAX {
        return Some(RevisionOverflow);
      }
      CreateStep(view, d, identity.value);
      var ranking := new Ranking(d, nextInstance + 1, identity.value);
      Adopt(d.id, ranking);
      return None;
    }

    /** Why a ranking cannot be added, before anything is changed. */
    method Refusal(d: Definition, identity: Option<string>) returns (error: Option<DefinitionError>)
      requires rankings.Keys == view.rankings.Keys
      ensures error == if |view.rankings| >= MAX_RANKINGS then Some(FullEngine)
                       else if !ValidDefinition(d) then Some(Invalid)
                       else if d.id in view.rankings then Some(Duplicate)
                       else if identity.None? then Some(IdentityUnavailable)
                       else None
    {
      hide ValidDefinition;
      assert |rankings.Keys| == |rankings| && |view.rankings.Keys| == |view.rankings|;
      if |rankings| >= MAX_RANKINGS {
        return Some(FullEngine);
      }
      if !ValidDefinition(d) {
        return Some(Invalid);
      }
      if d.id in rankings {
        return Some(Duplicate);
      }
      if identity.None? {
        return Some(IdentityUnavailable);
      }
      return None;
    }

    /** Takes over a new ranking object, which shares nothing with the others. */
    method Adopt(id: string, ranking: Ranking)
      requires Parts() && Apart() && id !in rankings && nextInstance < U64_MAX
      requires ranking in ranking.Repr && ranking.Valid() && ranking.Repr !! Repr && this !in ranking.Repr
      modifies this
      ensures view == EngineState(old(view).rankings[id := ranking.State()], old(view).nextInstance + 1)
      ensures bySource == old(bySource) && Repr == old(Repr) + ranking.Repr
      ensures Parts() && Apart()
    {
      hide Ranking.Valid, Ranking.State, Apart;
      nextInstance := nextInstance + 1;
      rankings := rankings[id := ranking];
      view := EngineState(view.rankings[id := ranking.State()], nextInstance);
      Repr := Repr + ranking.Repr;
      StillFaithful(id);
    }

    /** Lists a ranking under every source of its definition. */
    method ListSources(index: SourceIndex, d: Definition) returns (after: SourceIndex)
      ensures after == AddSources(index, d.sources, d.id)
    {
      after := index;
      for i := 0 to |d.sources|
        invariant after == AddSources(index, d.sources[..i], d.id)
      {
        var source := d.sources[i].source;
        var ids := if source in after then after[source] else [];
        if d.id !in ids {
          ids := ids + [d.id];
        }
        after := after[source := ids];
        assert d.sources[..i + 1][..i] == d.sources[..i];
      }
      assert d.sources[..|d.sources|] == d.sources;
    }

    /** Removes a ranking and every mention of it. */
    method Remove(id: string) returns (found: bool)
      requires Valid()
      modifies this
      ensures view == EngineStep(old(view), Delete(id))
      ensures Repr == old(Repr) && found == (id in old(rankings)) && Valid()
    {
      hide Consistent, IndexExact, DropId, EngineStep, ValidEngine, Ranking.Valid, Ranking.State, Apart, DefinitionsOf;
      DeleteStep(view, id);
      if id !in rankings {
        assert view.rankings - {id} == view.rankings;
        return false;
      }
      DeletedIndex(view, bySource, id);
      rankings := rankings - {id};
      bySource := DropId(bySource, id);
      view := EngineStep(view, Delete(id));
      StillFaithful(id);
      return true;
    }

    /**
     * Changes a paused ranking's definition, with an explicit reset where the accounting changes. The definition
     * is validated by creating it in an engine of its own, which needs a random identity as well.
     */
    method Update(d: Definition, reset: bool, identity: Option<string>) returns (error: Option<DefinitionError>)
      requires Valid()
      modifies this, Repr
      ensures error == if !ValidDefinition(d) then Some(Invalid)
                       else if identity.None? then Some(IdentityUnavailable)
                       else if d.id !in old(view).rankings then Some(Missing)
                       else UpdateError(old(view).rankings[d.id], d, reset)
      ensures error.Some? ==> view == old(view) && bySource == old(bySource)
      ensures error.None? ==> view == EngineStep(old(view), EngineOp.Update(d, reset))
      ensures Repr == old(Repr) && Valid()
    {
      hide ValidDefinition, Consistent, Bytes, IndexExact, AddSources, DropId, EngineStep, ValidEngine, Redefine,
           Ranking.Valid, Ranking.State, Parts, Apart, DefinitionsOf;
      KeysMatch();
      if !ValidDefinition(d) {
        return Some(Invalid);
      }
      if identity.None? {
        return Some(IdentityUnavailable);
      }
      if d.id !in rankings {
        return Some(Missing);
      }
      Stands(d.id);
      var ranking := rankings[d.id];
      ranking.StateFields();
      if !ranking.paused {
        return Some(NotPaused);
      }
      if ranking.definition.(limit := d.limit) != d && !reset {
        return Some(ResetRequired);
      }
      if ranking.state.revision == U64_MAX {
        return Some(RevisionOverflow);
      }
      UpdatedIndex(view, bySource, d, reset);
      UpdateStep(view, d, reset);
      bySource := DropId(bySource, d.id);
      bySource := ListSources(bySource, d);
      ReplaceOne(d, reset);
      return None;
    }

    /** Replaces the definition of one ranking; the others are not touched. */
    method ReplaceOne(d: Definition, reset: bool)
      requires Parts() && Apart() && d.id in rankings
      requires ValidDefinition(d) && UpdateError(view.rankings[d.id], d, reset).None?
      modifies this`view, rankings[d.id].Repr
      ensures view == old(view).(rankings := old(view).rankings[d.id := Redefine(old(view).rankings[d.id], d, reset).0])
      ensures Parts() && Apart()
    {
      hide ValidDefinition, Redefine, Ranking.Valid, Ranking.State, Apart;
      view := view.(rankings := view.rankings[d.id := Redefine(view.rankings[d.id], d, reset).0]);
      rankings[d.id].Replace(d, reset);
      StillFaithful(d.id);
    }

    /** Feeds one ranking; the others are not touched. */
    method FeedOne(id: string, feed: Feed) returns (verdict: Verdict)
      requires Parts() && Apart() && id in rankings
      modifies this`view, rankings[id].Repr
      ensures verdict == FeedRanking(old(view).rankings[id], feed).1
      ensures view == old(view).(rankings := old(view).rankings[id := Step(old(view).rankings[id], Fed(feed))])
      ensures Parts() && Apart()
    {
      hide Ranking.Valid, Ranking.State, Apart, Parts, FeedRanking;
      KeysMatch();
      Stands(id);
      view := view.(rankings := view.rankings[id := Step(view.rankings[id], Fed(feed))]);
      verdict := TakeFeed(rankings[id], feed);
      StillFaithful(id);
    }

    /** Feeds a contribution to every ranking listed under its source. */
    method ApplyAt(c: Contribution, now: u64, user: Option<Metadata>, gift: Option<Metadata>)
      returns (failures: seq<(string, Error)>)
      requires Valid()
      modifies this, Repr
      ensures view == EngineStep(old(view), Contribute(c, now, user, gift))
      ensures bySource == old(bySource)
      ensures forall id :: id in ListedUnder(bySource, c.source) ==> id in old(view).rankings
      ensures failures == Failures(old(view), ListedUnder(bySource, c.source), c, now, user, gift)
      ensures Repr == old(Repr) && rankings == old(rankings) && Valid()
    {
      hide Consistent, FeedRanking, Packet, IndexExact, EngineStep, ValidEngine, Failures, Ranking.Valid, Ranking.State,
           Parts, Apart, DefinitionsOf, WindowConsistent, Acted;
      KeysMatch();
      ghost var before := view;
      var feed := Arrival(c, now, user, gift);
      failures := [];
      ListsExactly(before, bySource, c.source);
      NoFailures(before, c, now, user, gift);
      ActedNone(before, Fed(feed));
      var listed := if c.source in bySource then bySource[c.source] else [];
      assert Elements(listed[..0]) == {};
      for k := 0 to |listed|
        invariant Parts() && Apart() && Repr == old(Repr) && rankings == old(rankings) && bySource == old(bySource)
        invariant view == Acted(before, Elements(listed[..k]), Fed(feed))
        invariant failures == Failures(before, listed[..k], c, now, user, gift)
      {
        assert listed[..k + 1] == listed[..k] + [listed[k]];
        assert Elements(listed[..k + 1]) == Elements(listed[..k]) + {listed[k]};
        assert listed[k] !in listed[..k];
        NextFailure(before, listed, k, c, now, user, gift);
        ActedNext(before, Elements(listed[..k]), listed[k], Fed(feed));
        KeysMatch();
        Stands(listed[k]);
        var verdict := FeedOne(listed[k], feed);
        if verdict.Refused? || verdict.ExpiryFailed? {
          failures := failures + [(listed[k], verdict.error)];
        }
      }
      assert listed[..|listed|] == listed;
      ActedIsStep(before, Elements(listed), Contribute(c, now, user, gift), Fed(feed));
      assert Valid();
    }

    /** Expires contributions of every ranking even when no new events arrive. */
    method ExpireAt(now: u64)
      requires Valid()
      modifies this, Repr
      ensures view == EngineStep(old(view), PassTime(now))
      ensures bySource == old(bySource) && Repr == old(Repr) && rankings == old(rankings) && Valid()
    {
      hide Consistent, FeedRanking, IndexExact, EngineStep, ValidEngine, Ranking.Valid, Ranking.State, Parts, Apart,
           DefinitionsOf, WindowConsistent, Acted;
      KeysMatch();
      ghost var before := view;
      ActedNone(before, Fed(Tick(now)));
      var todo := rankings.Keys;
      assert rankings.Keys - todo == {};
      while todo != {}
        invariant Parts() && Apart() && Repr == old(Repr) && rankings == old(rankings) && bySource == old(bySource)
        invariant todo <= rankings.Keys && view == Acted(before, rankings.Keys - todo, Fed(Tick(now)))
      {
        var id :| id in todo;
        ActedNext(before, rankings.Keys - todo, id, Fed(Tick(now)));
        assert rankings.Keys - (todo - {id}) == rankings.Keys - todo + {id};
        todo := todo - {id};
        KeysMatch();
        Stands(id);
        var _ := FeedOne(id, Tick(now));
      }
      assert rankings.Keys - todo == before.rankings.Keys;
      ActedIsStep(before, before.rankings.Keys, PassTime(now), Fed(Tick(now)));
      assert Valid();
    }

    /** One ranking takes a step that needs no new objects; the others are not touched. */
    method ActOne(id: string, act: RankOp) returns (r: Result<(), Error>)
      requires Parts() && Apart() && id in rankings && InPlace(act)
      modifies this`view, rankings[id].Repr
      ensures view == old(view).(rankings := old(view).rankings[id := Step(old(view).rankings[id], act)])
      ensures r == Reported(old(view).rankings[id], act)
      ensures Parts() && Apart()
    {
      hide Ranking.Valid, Ranking.State, Apart, Parts, Step, InPlace, Reported;
      KeysMatch();
      Stands(id);
      view := view.(rankings := view.rankings[id := Step(view.rankings[id], act)]);
      r := TakeStep(rankings[id], act);
      StillFaithful(id);
    }

    /** One ranking takes over a board built off to the side; the others are not touched. */
    method RestoreOne(id: string, act: RankOp) returns (r: Result<(), Error>)
      requires Parts() && Apart() && id in rankings && (act.VotesRestored? || act.CheckpointRestored?)
      modifies this`view, this`Repr, rankings[id].Repr
      ensures view == old(view).(rankings := old(view).rankings[id := Step(old(view).rankings[id], act)])
      ensures r == Reported(old(view).rankings[id], act)
      ensures fresh(Repr - old(Repr)) && Parts() && Apart()
    {
      hide Ranking.Valid, Ranking.State, Apart, Parts, Step, Reported;
      KeysMatch();
      Stands(id);
      view := view.(rankings := view.rankings[id := Step(view.rankings[id], act)]);
      r := TakeOver(rankings[id], act);
      Repr := Repr + rankings[id].Repr;
      StillFaithful(id);
    }

    /** An operation on one ranking by name; an unknown name is reported and changes nothing. */
    method Act(id: string, act: RankOp) returns (r: Option<Result<(), Error>>)
      requires Valid() && !act.Redefined? && !act.Fed?
      modifies this, Repr
      ensures view == EngineStep(old(view), On(id, act))
      ensures bySource == old(bySource) && rankings == old(rankings)
      ensures r == if id in old(view).rankings then Some(Reported(old(view).rankings[id], act)) else None
      ensures fresh(Repr - old(Repr)) && Valid()
    {
      hide Consistent, Step, IndexExact, EngineStep, ValidEngine, Ranking.Valid, Ranking.State, Parts, Apart,
           DefinitionsOf, WindowConsistent, Acted, Reported;
      KeysMatch();
      ghost var before := view;
      ActedNone(before, act);
      ghost var ids := if id in rankings then {id} else {};
      OneIsConcerned(before, id, act);
      ActedIsStep(before, ids, On(id, act), act);
      r := None;
      if id in rankings {
        ActedNext(before, {}, id, act);
        assert {} + {id} == ids;
        Stands(id);
        var result;
        if InPlace(act) {
          result := ActOne(id, act);
        } else {
          result := RestoreOne(id, act);
        }
        r := Some(result);
      }
      assert Valid();
    }

    /** Lost input of a source degrades the rankings listed under it. */
    method MarkGapAt(creator: string, room: string, source: string)
      requires Valid()
      modifies this, Repr
      ensures view == EngineStep(old(view), MissSource(creator, room, source))
      ensures bySource == old(bySource) && Repr == old(Repr) && rankings == old(rankings) && Valid()
    {
      ActOnListed(source, MissSource(creator, room, source), SourceGap(creator, room, source));
    }

    /** An unmeasured metric degrades the rankings listed under its source. */
    method MarkMetricGapAt(creator: string, room: string, source: string, metric: string)
      requires Valid()
      modifies this, Repr
      ensures view == EngineStep(old(view), MissMetric(creator, room, source, metric))
      ensures bySource == old(bySource) && Repr == old(Repr) && rankings == old(rankings) && Valid()
    {
      ActOnListed(source, MissMetric(creator, room, source, metric), MetricGap(creator, room, source, metric));
    }

    /** The loop over the rankings listed under a source. */
    method ActOnListed(source: string, ghost op: EngineOp, act: RankOp)
      requires Valid()
      requires match (op, act)
        case (MissSource(c, r, s), SourceGap(c2, r2, s2)) => c == c2 && r == r2 && s == s2 == source
        case (MissMetric(c, r, s, m), MetricGap(c2, r2, s2, m2)) => c == c2 && r == r2 && s == s2 == source && m == m2
        case _ => false
      modifies this, Repr
      ensures view == EngineStep(old(view), op)
      ensures bySource == old(bySource) && Repr == old(Repr) && rankings == old(rankings) && Valid()
    {
      hide Consistent, Step, IndexExact, EngineStep, ValidEngine, Ranking.Valid, Ranking.State, Parts, Apart,
           DefinitionsOf, WindowConsistent, Acted;
      KeysMatch();
      ghost var before := view;
      ListsExactly(before, bySource, source);
      ActedNone(before, act);
      var listed := if source in bySource then bySource[source] else [];
      assert Elements(listed[..0]) == {};
      for k := 0 to |listed|
        invariant Parts() && Apart() && Repr == old(Repr) && rankings == old(rankings) && bySource == old(bySource)
        invariant view == Acted(before, Elements(listed[..k]), act)
      {
        assert listed[..k + 1] == listed[..k] + [listed[k]];
        assert Elements(listed[..k + 1]) == Elements(listed[..k]) + {listed[k]};
        assert listed[k] !in listed[..k];
        ActedNext(before, Elements(listed[..k]), listed[k], act);
        KeysMatch();
        Stands(listed[k]);
        var _ := ActOne(listed[k], act);
      }
      assert listed[..|listed|] == listed;
      GapsConcernListed(before, Elements(listed), op, act);
      ActedIsStep(before, Elements(listed), op, act);
      assert Valid();
    }

    /** Lost packets of unknown origin degrade every running ranking. */
    method MarkLossAt(count: u64)
      requires Valid()
      modifies this, Repr
      ensures view == EngineStep(old(view), LoseInput(count))
      ensures bySource == old(bySource) && Repr == old(Repr) && rankings == old(rankings) && Valid()
    {
      hide Consistent, Step, IndexExact, EngineStep, ValidEngine, Ranking.Valid, Ranking.State, Parts, Apart,
           DefinitionsOf, WindowConsistent, Acted;
      KeysMatch();
      ghost var before := view;
      ActedNone(before, Loss(count));
      var todo := rankings.Keys;
      assert rankings.Keys - todo == {};
      while todo != {}
        invariant Parts() && Apart() && Repr == old(Repr) && rankings == old(rankings) && bySource == old(bySource)
        invariant todo <= rankings.Keys && view == Acted(before, rankings.Keys - todo, Loss(count))
      {
        var id :| id in todo;
        ActedNext(before, rankings.Keys - todo, id, Loss(count));
        assert rankings.Keys - (todo - {id}) == rankings.Keys - todo + {id};
        todo := todo - {id};
        KeysMatch();
        Stands(id);
        var _ := ActOne(id, Loss(count));
      }
      assert rankings.Keys - todo == before.rankings.Keys;
      ActedIsStep(before, before.rankings.Keys, LoseInput(count), Loss(count));
      assert Valid();
    }
  }

  /** Lets one ranking account a packet or the passing of time. */
  method TakeFeed(ranking: Ranking, feed: Feed) returns (verdict: Verdict)
    requires ranking.Valid()
    modifies ranking.Repr
    ensures ranking.Repr == old(ranking.Repr)
    ensures (ranking.State(), verdict) == FeedRanking(old(ranking.State()), feed)
    ensures ranking.Valid()
  {
    hide Packet, TickRanking, Consistent, Sound;
    match feed {
      case Arrival(c, now, user, gift) => verdict := ranking.Contribute(c, now, user, gift);
      case Tick(now) =>
        ranking.Tick(now);
        verdict := Unrouted;
    }
  }

  /** What an operation on one ranking reports. */
  ghost function Reported(r: RankState, act: RankOp): Result<(), Error> {
    match act
    case Reset => ResetRanking(r).1
    case Pause(paused) => Rankings.SetPaused(r, paused).1
    case Describe(key, metadata) => Rankings.SetMetadata(r, key, metadata).1
    case RecoveryGap => MarkRecoveryGap(r).1
    case Voted(previous, next) => Rankings.Assign(r, previous, next).1
    case Committed(option, score) => CommitScore(r, option, score).1
    case VotesRestored(totals, scored) => Rankings.RestoreVotes(r, totals, scored).1
    case CheckpointRestored(cp) => (match Restore(r, cp) case Ok(_) => Ok(()) case Err(e) => Err(e))
    case _ => Ok(())
  }

  /** Lets one ranking perform an operation on the objects it has. */
  method TakeStep(ranking: Ranking, act: RankOp) returns (r: Result<(), Error>)
    requires ranking.Valid() && InPlace(act)
    modifies ranking.Repr
    ensures ranking.Repr == old(ranking.Repr)
    ensures ranking.State() == Step(old(ranking.State()), act) && r == Reported(old(ranking.State()), act)
    ensures ranking.Valid()
  {
    hide Consistent, Sound, ResetRanking, Rankings.SetPaused, Rankings.SetMetadata, Rankings.MarkGap, MarkRecoveryGap,
         MarkSourceGap, MarkMetricGap, MarkLoss, Rankings.Assign, CommitScore;
    r := Ok(());
    match act {
      case Reset => r := ranking.Reset();
      case Pause(paused) => r := ranking.SetPaused(paused);
      case Describe(key, metadata) => r := ranking.SetMetadata(key, metadata);
      case Gap => ranking.MarkGap();
      case RecoveryGap => r := ranking.RecoverGap();
      case SourceGap(creator, room, source) => ranking.MissSource(creator, room, source);
      case MetricGap(creator, room, source, metric) => ranking.MissMetric(creator, room, source, metric);
      case Loss(count) => ranking.Lose(count);
      case Voted(previous, next) => r := ranking.Assign(previous, next);
      case Committed(option, score) => r := ranking.Commit(option, score);
    }
  }

  /** Lets one ranking replace its board by one built off to the side. */
  method TakeOver(ranking: Ranking, act: RankOp) returns (r: Result<(), Error>)
    requires ranking.Valid() && (act.VotesRestored? || act.CheckpointRestored?)
    modifies ranking.Repr
    ensures fresh(ranking.Repr - old(ranking.Repr))
    ensures ranking.State() == Step(old(ranking.State()), act) && r == Reported(old(ranking.State()), act)
    ensures ranking.Valid()
  {
    hide Consistent, Sound, Restore, Rankings.RestoreVotes;
    match act {
      case VotesRestored(totals, scored) => r := ranking.RestoreVotes(totals, scored);
      case CheckpointRestored(cp) => r := ranking.RestoreCheckpoint(cp);
    }
  }

  /** The engine after the given rankings took a step. */
  ghost function Acted(e: EngineState, ids: set<string>, act: RankOp): EngineState {
    e.(rankings := map id | id in e.rankings :: if id in ids then Step(e.rankings[id], act) else e.rankings[id])
  }

  lemma ActedNone(e: EngineState, act: RankOp)
    ensures Acted(e, {}, act) == e
  {
    hide Step;
    assert Acted(e, {}, act).rankings == e.rankings;
  }

  lemma ActedNext(e: EngineState, ids: set<string>, id: string, act: RankOp)
    requires id !in ids && id in e.rankings
    ensures var before := Acted(e, ids, act);
      && id in before.rankings && before.rankings[id] == e.rankings[id]
      && Acted(e, ids + {id}, act) == before.(rankings := before.rankings[id := Step(e.rankings[id], act)])
  {
    hide Step;
    var before := Acted(e, ids, act);
    assert Acted(e, ids + {id}, act).rankings == before.rankings[id := Step(e.rankings[id], act)];
  }

  lemma StepKeepsDefinition(r: RankState, act: RankOp)
    requires Consistent(r) && !act.Redefined?
    ensures Step(r, act).definition == r.definition
  {
    hide Consistent, FeedRanking, Boards.Apply, Reassign, RestoredBoard, AssignOnBoard, Rebuilt, WithMetadata;
    if act.Fed? { FeedKeepsIdentity(r, act.feed); }
  }

  /** Letting precisely the rankings step that an operation changes is that operation. */
  lemma ActedIsStep(e: EngineState, ids: set<string>, op: EngineOp, act: RankOp)
    requires ValidEngine(e) && !op.Create? && !op.Delete? && !act.Redefined?
    requires forall id :: id in e.rankings ==>
      StepIf(e.rankings[id], Concerns(op, e.rankings[id]))
        == (if id in ids then Step(e.rankings[id], act) else e.rankings[id])
    ensures var after := Acted(e, ids, act);
      && after == EngineStep(e, op) && ValidEngine(after)
      && DefinitionsOf(after.rankings) == DefinitionsOf(e.rankings)
  {
    hide Consistent, Step, EngineStep, Concerns, DefinitionsOf;
    forall id | id in e.rankings
      ensures ValidRanking(e, id) && Step(e.rankings[id], act).definition == e.rankings[id].definition
    {
      assert ValidRanking(e, id);
      StepKeepsDefinition(e.rankings[id], act);
    }
    SameDefinitions(e.rankings, Acted(e, ids, act).rankings);
    StepEach(e, op, Acted(e, ids, act));
  }

  /** Lost input of a source does not concern a ranking without a rule for it. */
  lemma GapsConcernListed(e: EngineState, ids: set<string>, op: EngineOp, act: RankOp)
    requires match (op, act)
      case (MissSource(c, r, s), SourceGap(c2, r2, s2)) => c == c2 && r == r2 && s == s2 && Lists(e, ids, s)
      case (MissMetric(c, r, s, m), MetricGap(c2, r2, s2, m2)) => c == c2 && r == r2 && s == s2 && m == m2
        && Lists(e, ids, s)
      case _ => false
    ensures forall id :: id in e.rankings ==>
      StepIf(e.rankings[id], Concerns(op, e.rankings[id]))
        == (if id in ids then Step(e.rankings[id], act) else e.rankings[id])
  {
    hide MarkRejected, FeedRanking, Restore, RestoreVotes, Assign, CommitScore, DependsOn;
  }

  ghost predicate Lists(e: EngineState, ids: set<string>, source: string) {
    forall id :: id in e.rankings ==> (id in ids <==> HasSource(e.rankings[id].definition, source))
  }

  /** Steps that change a ranking's own objects in place. */
  predicate InPlace(act: RankOp) {
    !act.Fed? && !act.Redefined? && !act.VotesRestored? && !act.CheckpointRestored?
  }

  lemma OneIsConcerned(e: EngineState, id: string, act: RankOp)
    requires ValidEngine(e) && !act.Redefined? && !act.Fed?
    ensures forall j :: j in e.rankings ==>
      StepIf(e.rankings[j], Concerns(On(id, act), e.rankings[j]))
      == (if j in (if id in e.rankings then {id} else {}) then Step(e.rankings[j], act) else e.rankings[j])
  {
    hide Consistent, Step;
    forall j | j in e.rankings ensures e.rankings[j].definition.id == j { assert ValidRanking(e, j); }
  }

  lemma SameDefinitions(a: map<string, RankState>, b: map<string, RankState>)
    requires a.Keys == b.Keys && forall id :: id in a ==> a[id].definition == b[id].definition
    ensures DefinitionsOf(a) == DefinitionsOf(b)
  {
  }

  lemma CreatedIndex(e: EngineState, index: SourceIndex, d: Definition)
    requires IndexExact(index, DefinitionsOf(e.rankings)) && d.id !in e.rankings
    ensures forall instance, instanceId ::
      IndexExact(AddSources(index, d.sources, d.id), DefinitionsOf(e.rankings[d.id := Fresh(d, instance, instanceId)]))
  {
    hide IndexExact, AddSources;
    AddSourcesExact(index, DefinitionsOf(e.rankings), d);
    forall instance, instanceId
      ensures DefinitionsOf(e.rankings[d.id := Fresh(d, instance, instanceId)]) == DefinitionsOf(e.rankings)[d.id := d]
    {
    }
  }

  /** Before its ranking is added, the index that lists it is wrong. */
  lemma DanglingIndex(e: EngineState, index: SourceIndex, d: Definition)
    requires IndexExact(index, DefinitionsOf(e.rankings)) && d.id !in e.rankings && ValidDefinition(d)
    ensures !IndexExact(AddSources(index, d.sources, d.id), DefinitionsOf(e.rankings))
  {
    hide IndexExact, AddSources;
    ExhaustedCreationLeavesIndexDangling(index, DefinitionsOf(e.rankings), d);
  }

  lemma DeletedIndex(e: EngineState, index: SourceIndex, id: string)
    requires IndexExact(index, DefinitionsOf(e.rankings))
    ensures IndexExact(DropId(index, id), DefinitionsOf(e.rankings - {id}))
  {
    hide IndexExact, DropId;
    DropIdExact(index, DefinitionsOf(e.rankings), id);
    assert DefinitionsOf(e.rankings - {id}) == DefinitionsOf(e.rankings) - {id};
  }

  lemma UpdateStep(e: EngineState, d: Definition, reset: bool)
    requires ValidEngine(e) && d.id in e.rankings
    ensures var after := EngineStep(e, EngineOp.Update(d, reset));
      after == e.(rankings := e.rankings[d.id := Redefine(e.rankings[d.id], d, reset).0]) && ValidEngine(after)
  {
    hide Sound, WindowConsistent, UsersConsistent, ValidDefinition, ValidInstanceId, EngineStep, Redefine;
    var op := EngineOp.Update(d, reset);
    var after := e.(rankings := e.rankings[d.id := Redefine(e.rankings[d.id], d, reset).0]);
    forall id | id in e.rankings
      ensures ValidRanking(e, id) && after.rankings[id] == StepIf(e.rankings[id], Concerns(op, e.rankings[id]))
    {
      assert ValidRanking(e, id);
    }
    assert after.rankings.Keys == e.rankings.Keys;
    StepEach(e, op, after);
  }

  lemma UpdatedIndex(e: EngineState, index: SourceIndex, d: Definition, reset: bool)
    requires IndexExact(index, DefinitionsOf(e.rankings)) && d.id in e.rankings
    requires ValidDefinition(d) && UpdateError(e.rankings[d.id], d, reset).None?
    ensures IndexExact(AddSources(DropId(index, d.id), d.sources, d.id),
                       DefinitionsOf(e.rankings[d.id := Redefine(e.rankings[d.id], d, reset).0]))
  {
    hide IndexExact, AddSources, DropId, Redefine, ValidDefinition;
    DropIdExact(index, DefinitionsOf(e.rankings), d.id);
    AddSourcesExact(DropId(index, d.id), DefinitionsOf(e.rankings) - {d.id}, d);
    RedefinesDefinition(e.rankings[d.id], d, reset);
    assert DefinitionsOf(e.rankings[d.id := Redefine(e.rankings[d.id], d, reset).0])
        == (DefinitionsOf(e.rankings) - {d.id})[d.id := d];
  }

  lemma RedefinesDefinition(r: RankState, d: Definition, reset: bool)
    requires ValidDefinition(d) && UpdateError(r, d, reset).None?
    ensures Redefine(r, d, reset).0.definition == d
  {
    hide ValidDefinition;
  }

  lemma NoFailures(e: EngineState, c: Contribution, now: u64, user: Option<Metadata>, gift: Option<Metadata>)
    requires ValidEngine(e)
    ensures Failures(e, [], c, now, user, gift) == []
  {
  }

  lemma NextFailure(e: EngineState, ids: seq<string>, k: nat, c: Contribution, now: u64,
                    user: Option<Metadata>, gift: Option<Metadata>)
    requires ValidEngine(e) && k < |ids| && forall id :: id in ids ==> id in e.rankings
    ensures ValidRanking(e, ids[k])
    ensures var verdict := FeedRanking(e.rankings[ids[k]], Arrival(c, now, user, gift)).1;
      Failures(e, ids[..k + 1], c, now, user, gift) == Failures(e, ids[..k], c, now, user, gift)
        + (if verdict.Refused? || verdict.ExpiryFailed? then [(ids[k], verdict.error)] else [])
  {
    hide Consistent, Packet;
    assert ids[..k + 1][..k] == ids[..k];
    assert ValidRanking(e, ids[k]);
  }
}
