/**
 * The store the service reads and writes (IGameRepository), as a class over
 * a sequence of rows. How each read query selects rows is SQL outside this
 * model: it is a function answer of the rows and the query, fixed when the
 * store is made, that either selects rows or throws.
 */
module Repository {
  import opened Wrappers
  import opened Decimal
  import opened GameEntities

  /**
   * A stored game (GamePostgres): the identifier the store assigns, the
   * provider record, and the rating this service owns, unset on creation.
   */
  datatype GameRow = GameRow(id: nat, info: GameInfo, playhubRating: Option<real>)

  /**
   * The read queries of the repository interface: FindGame, GetGameBySlug,
   * GetGameById, GetGamesByGenre, GetTopRatedGames, GetUpcomingGames, GetAllGames.
   */
  datatype Lookup =
    | FindGame(query: string, limit: Int32)
    | BySlug(slug: string)
    | ById(gameId: string)
    | ByGenre(genre: string, limit: Int32)
    | TopRated(limit: Int32)
    | Upcoming(limit: Int32)
    | AllGames(limit: Int32, offset: Int32, sorting: int)

  /** The outcome of a read: the selected rows, or an exception. */
  datatype Reply = Rows(rows: seq<GameRow>) | Threw

  /** One call made on the store, for stating how often each is made. */
  datatype Call = Read(lookup: Lookup) | Create(info: GameInfo) | UpdateRating(gameId: string, rating: real)

  /** The text of an identifier, as the service passes it to UpdateGameRating. */
  function IdText(id: nat): string {
    NatToDecimal(id)
  }

  /** Distinct identifiers have distinct texts, so a text names at most one identifier. */
  lemma IdTextInjective(a: nat, b: nat)
    ensures IdText(a) == IdText(b) ==> a == b
  {
    NatRoundTrip(a);
    NatRoundTrip(b);
  }

  /**
   * UPDATE ... SET playhub_rating WHERE id = gameId: the rating of the rows
   * whose identifier is gameId replaced, every other field and row as before.
   */
  function WithRating(rows: seq<GameRow>, gameId: string, rating: real): (r: seq<GameRow>)
    ensures |r| == |rows|
    ensures forall i :: 0 <= i < |rows| ==>
      r[i].id == rows[i].id && r[i].info == rows[i].info
      && r[i].playhubRating == (if IdText(rows[i].id) == gameId then Some(rating) else rows[i].playhubRating)
  {
    seq(|rows|, i requires 0 <= i < |rows| =>
      if IdText(rows[i].id) == gameId then rows[i].(playhubRating := Some(rating)) else rows[i])
  }

  /** The calls CreateGame receives for a sequence of records, one per record in order. */
  function CreateCalls(infos: seq<GameInfo>): (r: seq<Call>)
    ensures |r| == |infos|
    ensures forall i :: 0 <= i < |infos| ==> r[i] == Create(infos[i])
  {
    seq(|infos|, i requires 0 <= i < |infos| => Create(infos[i]))
  }

  /** No two rows hold the same provider game (the natural key is the provider id). */
  predicate UniqueProviderIds(rows: seq<GameRow>) {
    forall i, j :: 0 <= i < j < |rows| ==> rows[i].info.id != rows[j].info.id
  }

  /** The first row holding the provider game with this provider id. */
  function RowOfProviderId(rows: seq<GameRow>, providerId: string): (r: Option<nat>)
    ensures r.Some? ==> r.value < |rows| && rows[r.value].info.id == providerId
    ensures r.Some? ==> forall i :: 0 <= i < r.value ==> rows[i].info.id != providerId
    ensures r.None? <==> forall i :: 0 <= i < |rows| ==> rows[i].info.id != providerId
  {
    if rows == [] then None
    else if rows[0].info.id == providerId then Some(0)
    else match RowOfProviderId(rows[1..], providerId)
      case None => None
      case Some(k) => Some(k + 1)
  }

  /**
   * The insert as written: ON CONFLICT (id) names the store-assigned identifier,
   * which the insert never supplies, so every call adds a row.
   */
  function InsertedAsWritten(rows: seq<GameRow>, nextId: nat, info: GameInfo): (r: seq<GameRow>)
    ensures |r| == |rows| + 1 && r[..|rows|] == rows && r[|rows|] == GameRow(nextId, info, None)
  {
    rows + [GameRow(nextId, info, None)]
  }

  /** Ingesting one provider game twice with the insert as written stores it twice. */
  lemma ReingestDuplicatesAsWritten(rows: seq<GameRow>, nextId: nat, info: GameInfo)
    ensures var twice := InsertedAsWritten(InsertedAsWritten(rows, nextId, info), nextId + 1, info);
      |twice| == |rows| + 2 && twice[|rows|].info == twice[|rows| + 1].info
      && !UniqueProviderIds(twice)
  {
    var twice := InsertedAsWritten(InsertedAsWritten(rows, nextId, info), nextId + 1, info);
    assert twice[|rows|].info.id == twice[|rows| + 1].info.id;
  }

  /**
   * The corrected insert, an upsert on the natural key: a row that already
   * holds the provider game gets the new record and keeps its identifier and
   * its rating; otherwise a row is added under nextId with the rating unset.
   */
  function Upsert(rows: seq<GameRow>, nextId: nat, info: GameInfo): (r: seq<GameRow>)
    ensures |r| == |rows| + (if RowOfProviderId(rows, info.id).None? then 1 else 0)
  {
    match RowOfProviderId(rows, info.id)
    case Some(k) => rows[k := rows[k].(info := info)]
    case None => rows + [GameRow(nextId, info, None)]
  }

  /** The row the upsert returns: it always holds the record just written. */
  function UpsertedRow(rows: seq<GameRow>, nextId: nat, info: GameInfo): (r: GameRow)
    ensures r.info == info
  {
    match RowOfProviderId(rows, info.id)
    case Some(k) => rows[k].(info := info)
    case None => GameRow(nextId, info, None)
  }

  /**
   * What the upsert does: the returned row holds the record and is stored; a
   * known game keeps its row, identifier and rating and adds no row; a new one
   * adds exactly one row; every other row is unchanged.
   */
  lemma UpsertStoresRecord(rows: seq<GameRow>, nextId: nat, info: GameInfo)
    ensures var r := Upsert(rows, nextId, info);
      var row := UpsertedRow(rows, nextId, info);
      && row.info == info && row in r
      && (RowOfProviderId(rows, info.id).Some? ==>
            |r| == |rows| && row.id == rows[RowOfProviderId(rows, info.id).value].id
            && row.playhubRating == rows[RowOfProviderId(rows, info.id).value].playhubRating)
      && (RowOfProviderId(rows, info.id).None? ==>
            |r| == |rows| + 1 && row == GameRow(nextId, info, None))
      && (forall i :: 0 <= i < |rows| && rows[i].info.id != info.id ==> r[i] == rows[i])
  {
    var r := Upsert(rows, nextId, info);
    match RowOfProviderId(rows, info.id)
    case Some(k) => assert r[k] == UpsertedRow(rows, nextId, info);
    case None => assert r[|rows|] == UpsertedRow(rows, nextId, info);
  }

  /** The upsert keeps provider ids unique. */
  lemma UpsertKeepsUnique(rows: seq<GameRow>, nextId: nat, info: GameInfo)
    requires UniqueProviderIds(rows)
    ensures UniqueProviderIds(Upsert(rows, nextId, info))
  {
  }

  /** Ingesting one provider game twice leaves the store as ingesting it once. */
  lemma UpsertIdempotent(rows: seq<GameRow>, nextId: nat, laterId: nat, info: GameInfo)
    ensures Upsert(Upsert(rows, nextId, info), laterId, info) == Upsert(rows, nextId, info)
    ensures UpsertedRow(Upsert(rows, nextId, info), laterId, info) == UpsertedRow(rows, nextId, info)
  {
    var once := Upsert(rows, nextId, info);
    match RowOfProviderId(rows, info.id)
    case Some(k) =>
      assert once[k].info.id == info.id;
      assert forall i :: 0 <= i < k ==> once[i] == rows[i];
      assert RowOfProviderId(once, info.id) == Some(k);
      assert once[k := once[k].(info := info)] == once;
    case None =>
      assert forall i :: 0 <= i < |rows| ==> once[i] == rows[i];
      assert once[|rows|].info.id == info.id;
      assert RowOfProviderId(once, info.id) == Some(|rows|);
      assert once[|rows| := once[|rows|].(info := info)] == once;
  }

  /**
   * The rows after upserting the first n records of a batch in order, the
   * i-th under identifier nextId + i when it is new.
   */
  function UpsertFirst(rows: seq<GameRow>, nextId: nat, infos: seq<GameInfo>, n: nat): seq<GameRow>
    requires n <= |infos|
  {
    if n == 0 then rows
    else Upsert(UpsertFirst(rows, nextId, infos, n - 1), nextId + n - 1, infos[n - 1])
  }

  /** The rows CreateGame returns for the first n records of a batch. */
  function CreatedFirst(rows: seq<GameRow>, nextId: nat, infos: seq<GameInfo>, n: nat): seq<GameRow>
    requires n <= |infos|
  {
    if n == 0 then []
    else
      CreatedFirst(rows, nextId, infos, n - 1)
      + [UpsertedRow(UpsertFirst(rows, nextId, infos, n - 1), nextId + n - 1, infos[n - 1])]
  }

  /** One more record of a batch is one more upsert, under the next identifier, and one more Create call. */
  lemma UpsertFirstStep(rows: seq<GameRow>, nextId: nat, infos: seq<GameInfo>, i: nat)
    requires i < |infos|
    ensures UpsertFirst(rows, nextId, infos, i + 1) == Upsert(UpsertFirst(rows, nextId, infos, i), nextId + i, infos[i])
    ensures CreatedFirst(rows, nextId, infos, i + 1)
      == CreatedFirst(rows, nextId, infos, i) + [UpsertedRow(UpsertFirst(rows, nextId, infos, i), nextId + i, infos[i])]
    ensures CreateCalls(infos[..i + 1]) == CreateCalls(infos[..i]) + [Create(infos[i])]
  {
    assert CreateCalls(infos[..i + 1]) == CreateCalls(infos[..i]) + [Create(infos[i])];
  }

  /** The i-th created row holds the i-th record. */
  lemma {:induction false} CreatedRowsHold(rows: seq<GameRow>, nextId: nat, infos: seq<GameInfo>, n: nat)
    requires n <= |infos|
    ensures |CreatedFirst(rows, nextId, infos, n)| == n
    ensures forall i :: 0 <= i < n ==> CreatedFirst(rows, nextId, infos, n)[i].info == infos[i]
  {
    if n > 0 {
      CreatedRowsHold(rows, nextId, infos, n - 1);
    }
  }

  /** A batch adds at most one row per record and keeps provider ids unique. */
  lemma {:induction false} UpsertFirstBound(rows: seq<GameRow>, nextId: nat, infos: seq<GameInfo>, n: nat)
    requires n <= |infos| && UniqueProviderIds(rows)
    ensures |rows| <= |UpsertFirst(rows, nextId, infos, n)| <= |rows| + n
    ensures UniqueProviderIds(UpsertFirst(rows, nextId, infos, n))
  {
    if n > 0 {
      var before := UpsertFirst(rows, nextId, infos, n - 1);
      UpsertFirstBound(rows, nextId, infos, n - 1);
      UpsertStoresRecord(before, nextId + n - 1, infos[n - 1]);
      UpsertKeepsUnique(before, nextId + n - 1, infos[n - 1]);
    }
  }

  /** Identifiers increase from each row to the next and stay below bound. */
  predicate IdsAscending(rows: seq<GameRow>, bound: nat) {
    && (forall i :: 0 <= i < |rows| ==> rows[i].id < bound)
    && (forall i :: 0 < i < |rows| ==> rows[i - 1].id < rows[i].id)
  }

  /** Ascending identifiers are distinct: no identifier is stored twice. */
  lemma {:induction false} AscendingIdsDistinct(rows: seq<GameRow>, bound: nat, i: nat, j: nat)
    requires IdsAscending(rows, bound) && i < j < |rows|
    ensures rows[i].id < rows[j].id
    decreases j - i
  {
    if i + 1 < j {
      AscendingIdsDistinct(rows, bound, i + 1, j);
    }
  }

  /** An upsert keeps identifiers ascending: a known game keeps its identifier, a new one takes nextId. */
  lemma UpsertKeepsAscending(rows: seq<GameRow>, nextId: nat, info: GameInfo)
    requires IdsAscending(rows, nextId)
    ensures IdsAscending(Upsert(rows, nextId, info), nextId + 1)
  {
  }

  /** A batch keeps identifiers ascending, below the identifier after its last record. */
  lemma {:induction false} UpsertFirstAscending(rows: seq<GameRow>, nextId: nat, infos: seq<GameInfo>, n: nat)
    requires n <= |infos| && IdsAscending(rows, nextId)
    ensures IdsAscending(UpsertFirst(rows, nextId, infos, n), nextId + n)
  {
    if n > 0 {
      UpsertFirstAscending(rows, nextId, infos, n - 1);
      UpsertKeepsAscending(UpsertFirst(rows, nextId, infos, n - 1), nextId + n - 1, infos[n - 1]);
    }
  }

  /** With distinct identifiers, a rating update changes at most one row. */
  lemma RatingTouchesOneRow(rows: seq<GameRow>, bound: nat, gameId: string, rating: real)
    requires IdsAscending(rows, bound)
    ensures var r := WithRating(rows, gameId, rating);
      forall i, j :: 0 <= i < j < |rows| && r[i] != rows[i] ==> r[j] == rows[j]
  {
    forall i, j | 0 <= i < j < |rows|
      ensures IdText(rows[i].id) == gameId ==> IdText(rows[j].id) != gameId
    {
      AscendingIdsDistinct(rows, bound, i, j);
      IdTextInjective(rows[i].id, rows[j].id);
    }
  }

  class Store {
    var rows: seq<GameRow>
    var nextId: nat
    ghost var calls: seq<Call>
    const answer: (seq<GameRow>, Lookup) -> Reply
    /**
     * Whether UpdateGameRating throws for these rows and arguments (an
     * identifier the database rejects, a failed connection): SQL outside this
     * model, fixed when the store is made, like answer.
     */
    const rejects: (seq<GameRow>, string, real) -> bool

    /**
     * Identifiers increase along the rows and stay below the next one to
     * assign, and no provider game is stored twice.
     */
    predicate Valid()
      reads this
    {
      IdsAscending(rows, nextId) && UniqueProviderIds(rows)
    }

    constructor(answer: (seq<GameRow>, Lookup) -> Reply, rejects: (seq<GameRow>, string, real) -> bool)
      ensures Valid()
      ensures rows == [] && nextId == 0 && calls == [] && this.answer == answer && this.rejects == rejects
    {
      rows := [];
      nextId := 0;
      calls := [];
      this.answer := answer;
      this.rejects := rejects;
    }

    method Query(lookup: Lookup) returns (reply: Reply)
      modifies this`calls
      ensures reply == answer(rows, lookup)
      ensures calls == old(calls) + [Read(lookup)]
    {
      reply := answer(rows, lookup);
      calls := calls + [Read(lookup)];
    }

    /**
     * CreateGame, with the insert keyed on the provider id: a fresh
     * identifier is drawn on every call and used only for a new game.
     */
    method CreateGame(info: GameInfo) returns (row: GameRow)
      requires Valid()
      modifies this
      ensures Valid()
      ensures row == UpsertedRow(old(rows), old(nextId), info)
      ensures rows == Upsert(old(rows), old(nextId), info) && nextId == old(nextId) + 1
      ensures calls == old(calls) + [Create(info)]
    {
      UpsertKeepsUnique(rows, nextId, info);
      UpsertKeepsAscending(rows, nextId, info);
      row := UpsertedRow(rows, nextId, info);
      rows := Upsert(rows, nextId, info);
      nextId := nextId + 1;
      calls := calls + [Create(info)];
    }

    /**
     * UpdateGameRating: throws when the store rejects the call, otherwise sets
     * the rating of the row the identifier names, if there is one.
     */
    method UpdateGameRating(gameId: string, rating: real) returns (threw: bool)
      requires Valid()
      modifies this
      ensures Valid()
      ensures threw <==> rejects(old(rows), gameId, rating)
      ensures rows == if threw then old(rows) else WithRating(old(rows), gameId, rating)
      ensures nextId == old(nextId)
      ensures calls == old(calls) + [UpdateRating(gameId, rating)]
    {
      calls := calls + [UpdateRating(gameId, rating)];
      if rejects(rows, gameId, rating) {
        return true;
      }
      rows := WithRating(rows, gameId, rating);
      return false;
    }
  }
}

/**
 * The gRPC game service: a lookaside cache in front of the provider. Reads go
 * to the store first; on an empty answer the provider is asked with the same
 * arguments, each of its records is written to the store, and the created rows
 * are the answer.
 */
module GameService {
  import opened Wrappers
  import opened GameEntities
  import opened Repository

  datatype Status = OK | InvalidArgument | NotFound | Cancelled

  /** The queries of the provider interface (IIGDBManager). */
  datatype ProviderQuery =
    | ProviderSearch(query: string, limit: Int32)
    | ProviderBySlug(slug: string)
    | ProviderByGenre(genre: string, limit: Int32)
    | ProviderUpcoming(limit: Int32)

  class Service {
    const store: Store
    /** The provider's answer to each query; it reports failures as an empty list. */
    const provider: ProviderQuery -> seq<GameInfo>
    /** The queries sent to the provider, oldest first. */
    ghost var asked: seq<ProviderQuery>

    constructor(store: Store, provider: ProviderQuery -> seq<GameInfo>)
      ensures this.store == store && this.provider == provider && asked == []
    {
      this.store := store;
      this.provider := provider;
      asked := [];
    }

    /**
     * One step of the write-back: CreateGame on record i of a batch whose
     * first i records are already written over rows0 from identifier id0.
     */
    method IngestNext(ghost rows0: seq<GameRow>, ghost id0: nat, infos: seq<GameInfo>, i: nat, created: seq<GameRow>)
      returns (next: seq<GameRow>)
      requires i < |infos| && store.Valid()
      requires store.rows == UpsertFirst(rows0, id0, infos, i) && store.nextId == id0 + i
      requires created == CreatedFirst(rows0, id0, infos, i)
      modifies store
      ensures store.Valid()
      ensures store.rows == UpsertFirst(rows0, id0, infos, i + 1) && store.nextId == id0 + i + 1
      ensures next == CreatedFirst(rows0, id0, infos, i + 1)
      ensures store.calls == old(store.calls) + [Create(infos[i])]
    {
      UpsertFirstStep(rows0, id0, infos, i);
      var row := store.CreateGame(infos[i]);
      next := created + [row];
    }

    /**
     * The write-back: one CreateGame per provider record, in order; the rows
     * CreateGame returns are the answer.
     */
    method Ingest(infos: seq<GameInfo>) returns (created: seq<GameRow>)
      requires store.Valid()
      modifies store
      ensures store.Valid()
      ensures created == CreatedFirst(old(store.rows), old(store.nextId), infos, |infos|)
      ensures |created| == |infos| && forall i :: 0 <= i < |infos| ==> created[i].info == infos[i]
      ensures store.rows == UpsertFirst(old(store.rows), old(store.nextId), infos, |infos|)
      ensures store.nextId == old(store.nextId) + |infos|
      ensures store.calls == old(store.calls) + CreateCalls(infos)
    {
      created := [];
      var i := 0;
      while i < |infos|
        invariant 0 <= i <= |infos|
        invariant store.Valid()
        invariant created == CreatedFirst(old(store.rows), old(store.nextId), infos, i)
        invariant store.rows == UpsertFirst(old(store.rows), old(store.nextId), infos, i)
        invariant store.nextId == old(store.nextId) + i
        invariant store.calls == old(store.calls) + CreateCalls(infos[..i])
      {
        assert CreateCalls(infos[..i + 1]) == CreateCalls(infos[..i]) + [Create(infos[i])];
        created := IngestNext(old(store.rows), old(store.nextId), infos, i, created);
        i := i + 1;
      }
      assert infos[..i] == infos;
      CreatedRowsHold(old(store.rows), old(store.nextId), infos, |infos|);
    }

    /**
     * A store read with provider fallback: an exception is CANCELLED, a
     * non-empty answer is returned as it is without asking the provider, and an
     * empty one is filled from the provider and written back.
     */
    method Lookaside(lookup: Lookup, fallback: ProviderQuery) returns (status: Status, games: seq<GameRow>)
      requires store.Valid()
      modifies this, store
      ensures store.Valid()
      ensures var reply := store.answer(old(store.rows), lookup);
        && (reply.Threw? ==>
              status == Cancelled && games == [] && asked == old(asked)
              && store.rows == old(store.rows) && store.nextId == old(store.nextId)
              && store.calls == old(store.calls) + [Read(lookup)])
        && (reply.Rows? && reply.rows != [] ==>
              status == OK && games == reply.rows && asked == old(asked)
              && store.rows == old(store.rows) && store.nextId == old(store.nextId)
              && store.calls == old(store.calls) + [Read(lookup)])
        && (reply.Rows? && reply.rows == [] ==>
              var infos := provider(fallback);
              status == OK && asked == old(asked) + [fallback]
              && games == CreatedFirst(old(store.rows), old(store.nextId), infos, |infos|)
              && |games| == |infos| && (forall i :: 0 <= i < |infos| ==> games[i].info == infos[i])
              && store.rows == UpsertFirst(old(store.rows), old(store.nextId), infos, |infos|)
              && store.nextId == old(store.nextId) + |infos|
              && store.calls == old(store.calls) + [Read(lookup)] + CreateCalls(infos))
    {
      var reply := store.Query(lookup);
      if reply.Threw? {
        return Cancelled, [];
      }
      if reply.rows != [] {
        return OK, reply.rows;
      }
      asked := asked + [fallback];
      games := Ingest(provider(fallback));
      status := OK;
    }

    /** SearchGames: an empty query is INVALID_ARGUMENT before any call. */
    method SearchGames(query: string, limit: Int32) returns (status: Status, games: seq<GameRow>)
      requires store.Valid()
      modifies this, store
      ensures store.Valid()
      ensures query == "" ==>
        status == InvalidArgument && games == [] && asked == old(asked)
        && store.rows == old(store.rows) && store.nextId == old(store.nextId) && store.calls == old(store.calls)
      ensures query != "" ==>
        var reply := store.answer(old(store.rows), FindGame(query, limit));
        && (reply.Threw? ==>
              status == Cancelled && games == [] && asked == old(asked)
              && store.rows == old(store.rows) && store.nextId == old(store.nextId)
              && store.calls == old(store.calls) + [Read(FindGame(query, limit))])
        && (reply.Rows? && reply.rows != [] ==>
              status == OK && games == reply.rows && asked == old(asked)
              && store.rows == old(store.rows) && store.nextId == old(store.nextId)
              && store.calls == old(store.calls) + [Read(FindGame(query, limit))])
        && (reply.Rows? && reply.rows == [] ==>
              var infos := provider(ProviderSearch(query, limit));
              status == OK && asked == old(asked) + [ProviderSearch(query, limit)]
              && games == CreatedFirst(old(store.rows), old(store.nextId), infos, |infos|)
              && |games| == |infos| && (forall i :: 0 <= i < |infos| ==> games[i].info == infos[i])
              && store.rows == UpsertFirst(old(store.rows), old(store.nextId), infos, |infos|)
              && store.nextId == old(store.nextId) + |infos|
              && store.calls == old(store.calls) + [Read(FindGame(query, limit))] + CreateCalls(infos))
    {
      if query == "" {
        return InvalidArgument, [];
      }
      status, games := Lookaside(FindGame(query, limit), ProviderSearch(query, limit));
    }

    /** GetGamesByGenre: an empty genre is INVALID_ARGUMENT; otherwise as search, on the genre. */
    method GetGamesByGenre(genre: string, limit: Int32) returns (status: Status, games: seq<GameRow>)
      requires store.Valid()
      modifies this, store
      ensures store.Valid()
      ensures genre == "" ==>
        status == InvalidArgument && games == [] && asked == old(asked)
        && store.rows == old(store.rows) && store.nextId == old(store.nextId) && store.calls == old(store.calls)
      ensures genre != "" ==>
        var reply := store.answer(old(store.rows), ByGenre(genre, limit));
        && (reply.Threw? ==>
              status == Cancelled && games == [] && asked == old(asked)
              && store.rows == old(store.rows) && store.nextId == old(store.nextId)
              && store.calls == old(store.calls) + [Read(ByGenre(genre, limit))])
        && (reply.Rows? && reply.rows != [] ==>
              status == OK && games == reply.rows && asked == old(asked)
              && store.rows == old(store.rows) && store.nextId == old(store.nextId)
              && store.calls == old(store.calls) + [Read(ByGenre(genre, limit))])
        && (reply.Rows? && reply.rows == [] ==>
              var infos := provider(ProviderByGenre(genre, limit));
              status == OK && asked == old(asked) + [ProviderByGenre(genre, limit)]
              && games == CreatedFirst(old(store.rows), old(store.nextId), infos, |infos|)
              && |games| == |infos| && (forall i :: 0 <= i < |infos| ==> games[i].info == infos[i])
              && store.rows == UpsertFirst(old(store.rows), old(store.nextId), infos, |infos|)
              && store.nextId == old(store.nextId) + |infos|
              && store.calls == old(store.calls) + [Read(ByGenre(genre, limit))] + CreateCalls(infos))
    {
      if genre == "" {
        return InvalidArgument, [];
      }
      status, games := Lookaside(ByGenre(genre, limit), ProviderByGenre(genre, limit));
    }

    /** GetUpcomingGames: always a store read, with the provider's upcoming list as fallback. */
    method GetUpcomingGames(limit: Int32) returns (status: Status, games: seq<GameRow>)
      requires store.Valid()
      modifies this, store
      ensures store.Valid()
      ensures var reply := store.answer(old(store.rows), Upcoming(limit));
        && (reply.Threw? ==>
              status == Cancelled && games == [] && asked == old(asked)
              && store.rows == old(store.rows) && store.nextId == old(store.nextId)
              && store.calls == old(store.calls) + [Read(Upcoming(limit))])
        && (reply.Rows? && reply.rows != [] ==>
              status == OK && games == reply.rows && asked == old(asked)
              && store.rows == old(store.rows) && store.nextId == old(store.nextId)
              && store.calls == old(store.calls) + [Read(Upcoming(limit))])
        && (reply.Rows? && reply.rows == [] ==>
              var infos := provider(ProviderUpcoming(limit));
              status == OK && asked == old(asked) + [ProviderUpcoming(limit)]
              && games == CreatedFirst(old(store.rows), old(store.nextId), infos, |infos|)
              && |games| == |infos| && (forall i :: 0 <= i < |infos| ==> games[i].info == infos[i])
              && store.rows == UpsertFirst(old(store.rows), old(store.nextId), infos, |infos|)
              && store.nextId == old(store.nextId) + |infos|
              && store.calls == old(store.calls) + [Read(Upcoming(limit))] + CreateCalls(infos))
    {
      status, games := Lookaside(Upcoming(limit), ProviderUpcoming(limit));
    }

    /** GetTopRatedGames: the provider has no such query, so the store answers alone. */
    method GetTopRatedGames(limit: Int32) returns (status: Status, games: seq<GameRow>)
      modifies store`calls
      ensures var reply := store.answer(store.rows, TopRated(limit));
        && (reply.Threw? ==> status == Cancelled && games == [])
        && (reply.Rows? ==> status == OK && games == reply.rows)
      ensures store.calls == old(store.calls) + [Read(TopRated(limit))]
      ensures asked == old(asked)
    {
      var reply := store.Query(TopRated(limit));
      if reply.Threw? {
        return Cancelled, [];
      }
      return OK, reply.rows;
    }

    /** ListGames: one page of the store with the given limit, offset and sorting, from the store alone. */
    method ListGames(limit: Int32, offset: Int32, sorting: int) returns (status: Status, games: seq<GameRow>)
      modifies store`calls
      ensures var reply := store.answer(store.rows, AllGames(limit, offset, sorting));
        && (reply.Threw? ==> status == Cancelled && games == [])
        && (reply.Rows? ==> status == OK && games == reply.rows)
      ensures store.calls == old(store.calls) + [Read(AllGames(limit, offset, sorting))]
      ensures asked == old(asked)
    {
      var reply := store.Query(AllGames(limit, offset, sorting));
      if reply.Threw? {
        return Cancelled, [];
      }
      return OK, reply.rows;
    }

    /**
     * GetGame: an id is looked up in the store only, and a miss is NOT_FOUND;
     * a slug falls back to the provider on a miss; neither is INVALID_ARGUMENT.
     */
    method GetGame(gameId: string, slug: string) returns (status: Status, game: Option<GameRow>)
      requires store.Valid()
      modifies this, store
      ensures store.Valid()
      ensures gameId == "" && slug == "" ==>
        status == InvalidArgument && game == None && asked == old(asked)
        && store.rows == old(store.rows) && store.nextId == old(store.nextId) && store.calls == old(store.calls)
      ensures gameId != "" ==>
        var reply := store.answer(old(store.rows), ById(gameId));
        && store.calls == old(store.calls) + [Read(ById(gameId))]
        && store.rows == old(store.rows) && store.nextId == old(store.nextId) && asked == old(asked)
        && (reply.Threw? ==> status == Cancelled && game == None)
        && (reply.Rows? && reply.rows == [] ==> status == NotFound && game == None)
        && (reply.Rows? && reply.rows != [] ==> status == OK && game == Some(reply.rows[0]))
      ensures gameId == "" && slug != "" ==>
        var reply := store.answer(old(store.rows), BySlug(slug));
        && (reply.Threw? ==>
              status == Cancelled && game == None && asked == old(asked)
              && store.rows == old(store.rows) && store.nextId == old(store.nextId)
              && store.calls == old(store.calls) + [Read(BySlug(slug))])
        && (reply.Rows? && reply.rows != [] ==>
              status == OK && game == Some(reply.rows[0]) && asked == old(asked)
              && store.rows == old(store.rows) && store.nextId == old(store.nextId)
              && store.calls == old(store.calls) + [Read(BySlug(slug))])
        && (reply.Rows? && reply.rows == [] ==>
              var infos := provider(ProviderBySlug(slug));
              asked == old(asked) + [ProviderBySlug(slug)]
              && store.rows == UpsertFirst(old(store.rows), old(store.nextId), infos, |infos|)
              && store.nextId == old(store.nextId) + |infos|
              && store.calls == old(store.calls) + [Read(BySlug(slug))] + CreateCalls(infos)
              && (infos == [] ==> status == NotFound && game == None)
              && (infos != [] ==>
                    status == OK && game == Some(CreatedFirst(old(store.rows), old(store.nextId), infos, |infos|)[0])
                    && game.value.info == infos[0]))
    {
      if gameId != "" {
        var reply := store.Query(ById(gameId));
        if reply.Threw? {
          return Cancelled, None;
        }
        if reply.rows == [] {
          return NotFound, None;
        }
        return OK, Some(reply.rows[0]);
      }
      if slug == "" {
        return InvalidArgument, None;
      }
      var games;
      status, games := Lookaside(BySlug(slug), ProviderBySlug(slug));
      if status == Cancelled {
        return Cancelled, None;
      }
      if games == [] {
        return NotFound, None;
      }
      game := Some(games[0]);
    }

    /** SetRating: exactly one UpdateGameRating call; any exception from it is INVALID_ARGUMENT. */
    method SetRating(gameId: string, rating: real) returns (status: Status)
      requires store.Valid()
      modifies store
      ensures store.Valid()
      ensures store.calls == old(store.calls) + [UpdateRating(gameId, rating)]
      ensures status == InvalidArgument <==> store.rejects(old(store.rows), gameId, rating)
      ensures status == OK <==> !store.rejects(old(store.rows), gameId, rating)
      ensures status == InvalidArgument ==> store.rows == old(store.rows)
      ensures status == OK ==> store.rows == WithRating(old(store.rows), gameId, rating)
      ensures store.nextId == old(store.nextId)
      ensures asked == old(asked)
    {
      var threw := store.UpdateGameRating(gameId, rating);
      status := if threw then InvalidArgument else OK;
    }
  }
}
