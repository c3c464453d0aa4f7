/** What a snapshot shows beside the scores: the display fields that packets and commands brought. */
module Presentation {
  import opened Common
  import opened Totals
  import opened Model
  import opened Boards
  import opened Scoring
  import opened Rankings
  import opened RankingInvariant
  import opened RestoredBehaviour
  import opened PacketAccounting

  /** A field that is set, not empty and not too long: 2048 bytes for addresses of images, 512 for the rest. */
  predicate Presentable(fields: Metadata, field: Field) {
    && field in fields && fields[field] != ""
    && Bytes(fields[field]) <= (if field == AvatarUrl || field == IconUrl then 2048 else 512)
  }

  /** The fields of a key: those given if they are presentable, the others as they were. */
  ghost predicate Shows(before: Board, after: Board, key: string, given: Metadata) {
    && (forall field :: Lookup(Described(after, key), field)
          == if Presentable(given, field) then Some(given[field]) else Lookup(Described(before, key), field))
    && (forall other :: other != key ==> Described(after, other) == Described(before, other))
  }

  lemma DescribedShows(b: Board, key: string, given: Metadata)
    requires key in b.scores
    ensures Shows(b, WithMetadata(b, key, given), key, given)
  {
    hide Bytes;
    var after := WithMetadata(b, key, given);
    forall field
      ensures Lookup(Described(after, key), field)
        == if Presentable(given, field) then Some(given[field]) else Lookup(Described(b, key), field)
    {
      assert field in Bounded(given) <==> Presentable(given, field);
    }
  }

  lemma ApplyKeepsFields(b: Board, key: string, score: u64)
    requires score > 0 && Boards.Apply(b, key, score, 1).Ok?
    ensures var after := Boards.Apply(b, key, score, 1).value; key in after.scores && after.metadata == b.metadata
  {
    hide Bytes, Sum;
    assert score * 1 == score;
  }

  lemma NothingGivenShows(b: Board, after: Board, key: string)
    requires after.metadata == b.metadata
    ensures Shows(b, after, key, map[])
  {
  }

  /**
   * An accepted packet shows: the sender's fields where users are ranked, the gift's where gifts are, nothing
   * elsewhere, on top of what time alone leaves; and nobody else's fields change.
   */
  lemma CountedPacketShows(r: RankState, c: Contribution, now: u64, user: Option<Metadata>, gift: Option<Metadata>)
    requires Consistent(r) && Packet(r, c, now, user, gift).1.Counted?
    ensures var (after, verdict) := Packet(r, c, now, user, gift);
      var given := match r.definition.groupBy case User => user case Gift => gift case _ => None;
      Shows(TickRanking(r, now).board, after.board, verdict.key, if given.Some? then given.value else map[])
  {
    hide Consistent, Score, Advance, IsCompetition, Shows, WithMetadata, Boards.Apply, UserDecision;
    AdvanceConsistent(r, now);
    var (current, verdict) := (Advance(r, now).0, Packet(r, c, now, user, gift).1);
    CountedEffect(r, c, now, user, gift);
    ApplyKeepsFields(current.board, verdict.key, verdict.score);
    var credited := Boards.Apply(current.board, verdict.key, verdict.score, 1).value;
    var given := PacketMetadata(r.definition.groupBy, user, gift);
    if given.Some? {
      DescribedShows(credited, verdict.key, given.value);
      var described := WithMetadata(credited, verdict.key, given.value);
      SameFieldsShow(current.board, credited, described, verdict.key, given.value);
    } else {
      NothingGivenShows(current.board, credited, verdict.key);
    }
  }

  lemma SameFieldsShow(a: Board, b: Board, after: Board, key: string, given: Metadata)
    requires a.metadata == b.metadata && Shows(b, after, key, given)
    ensures Shows(a, after, key, given)
  {
    forall other ensures Described(a, other) == Described(b, other) {}
  }

  /** A command that describes an entry shows, and advances the revision exactly when that changes anything. */
  lemma DescriptionShows(r: RankState, key: string, given: Metadata)
    requires Consistent(r)
    ensures var (after, result) := SetMetadata(r, key, given);
      && (key !in r.board.scores ==> after == r && result.Ok?)
      && (key in r.board.scores && result.Ok? ==> Shows(r.board, after.board, key, given))
      && (result.Ok? ==> (after.board.revision != r.board.revision <==> after.board.metadata != r.board.metadata))
      && (result.Err? ==> after == r && r.board.revision == U64_MAX)
      && after == r.(board := after.board) && after.board.scores == r.board.scores
  {
    hide Sound, WindowConsistent, UsersConsistent, ValidDefinition, ValidInstanceId, Bytes, Shows;
    if key in r.board.scores && SetMetadata(r, key, given).1.Ok? {
      DescribedShows(r.board, key, given);
      if key in r.board.metadata && r.board.metadata[key] == Described(r.board, key) + Bounded(given) {
        assert WithMetadata(r.board, key, given).metadata == r.board.metadata;
        SameMetadataShows(r.board, WithMetadata(r.board, key, given), r.board, key, given);
      } else {
        SameMetadataShows(r.board, WithMetadata(r.board, key, given), SetMetadata(r, key, given).0.board, key, given);
      }
    }
  }

  lemma SameMetadataShows(b: Board, x: Board, y: Board, key: string, given: Metadata)
    requires x.metadata == y.metadata && Shows(b, x, key, given)
    ensures Shows(b, y, key, given)
  {
    forall other ensures Described(x, other) == Described(y, other) {}
  }

  /** Every entry of a snapshot is captioned with its label, or with its key, and carries all its other fields. */
  lemma EntriesShowFields(b: Board, n: nat, i: nat)
    requires i < |Ranking(b, n)|
    ensures var e := Ranking(b, n)[i];
      var own := Lookup(Described(b, e.key), Label);
      && e.caption == (if own.Some? then own.value else e.key)
      && forall field ::
           Lookup(e.metadata, field) == if field == Label then None else Lookup(Described(b, e.key), field)
  {
    RankingInOrder(b, n);
  }
}
