/**
 * ParseGamesResponse: the permissive mapping of the provider's JSON reply to
 * GameInfo records. Each array element maps to a record or fails with a
 * nlohmann type error; a failing element is dropped whole and the others are
 * kept in order. The functions below give the meaning of one element and of
 * the whole reply; the methods are the loops of the source, proved equal to them.
 */
module IgdbParse {
  import opened Wrappers
  import opened Json
  import opened Decimal
  import opened GameEntities
  import Utils

  /** The record an element that sets nothing produces: the defaults of the parser. */
  const DefaultGame: GameInfo :=
    GameInfo("", "", "", "", 0.0, None, None, "N/A", [], "", [], [], [], [], [])

  // ---------------------------------------------------------------------
  // One field at a time: absent or null keeps the default, a present value
  // of the wrong type is a type error (Fail)
  // ---------------------------------------------------------------------

  /** "id": a std::uint32_t rendered by std::to_string; empty when absent. */
  function IdOf(j: Json): Result<string> {
    if HasNonNull(j, "id") then
      match AsUint32(Member(j, "id"))
      case None => Fail
      case Some(u) => Ok(NatToDecimal(u))
    else Ok("")
  }

  /** "name", "slug" and "summary": strings, empty when absent. */
  function TextOf(j: Json, key: string): Result<string> {
    if HasNonNull(j, key) then
      match AsString(Member(j, key))
      case None => Fail
      case Some(s) => Ok(s)
    else Ok("")
  }

  /** "rating": a double, 0.0 when absent or null. */
  function RatingOf(j: Json): Result<real> {
    if HasNonNull(j, "rating") then
      match AsDouble(Member(j, "rating"))
      case None => Fail
      case Some(x) => Ok(x)
    else Ok(0.0)
  }

  /** "hypes": read as std::uint32_t and stored in an int32 field; left unset when absent. */
  function HypesOf(j: Json): Result<Option<Int32>> {
    if HasNonNull(j, "hypes") then
      match AsUint32(Member(j, "hypes"))
      case None => Fail
      case Some(u) => Ok(Some(ToInt32(u)))
    else Ok(None)
  }

  /** "first_release_date": a time_t rendered as a date, "N/A" when absent or null. */
  function FirstReleaseOf(j: Json): Result<string> {
    if HasNonNull(j, "first_release_date") then
      match AsInt64(Member(j, "first_release_date"))
      case None => Fail
      case Some(t) => Ok(Utils.TimestampToString(t))
    else Ok("N/A")
  }

  /**
   * "cover": set only when it is an object holding "url"; the url must then be
   * a string (a null url is a type error too).
   */
  function CoverOf(j: Json): Result<string> {
    if HasNonNull(j, "cover") && Member(j, "cover").JObject? && Contains(Member(j, "cover"), "url") then
      match AsString(Member(Member(j, "cover"), "url"))
      case None => Fail
      case Some(s) => Ok(Utils.ForceOriginalQuality(s))
    else Ok("")
  }

  /** The member is present and is an array (the source's is_array() guard). */
  predicate HasArray(j: Json, field: string) {
    Contains(j, field) && Member(j, field).JArray?
  }

  /** The entries of an array member, or none when the member is absent or not an array. */
  function EntriesOf(j: Json, field: string): seq<Json> {
    if HasArray(j, field) then Member(j, field).items else []
  }

  /**
   * One release_dates entry: its "date" read as time_t. An entry that is not an
   * object, or has no "date", is an error (nlohmann's const operator[] throws,
   * or asserts, there).
   */
  function DateOf(entry: Json): Result<string> {
    if Contains(entry, "date") then
      match AsInt64(Member(entry, "date"))
      case None => Fail
      case Some(t) => Ok(Utils.TimestampToString(t))
    else Fail
  }

  /** The dates of all entries, in order; any failing entry fails the whole list. */
  function DatesOf(entries: seq<Json>): Result<seq<string>>
    decreases |entries|
  {
    if entries == [] then Ok([])
    else
      match (DatesOf(entries[..|entries| - 1]), DateOf(entries[|entries| - 1]))
      case (Ok(dates), Ok(d)) => Ok(dates + [d])
      case _ => Fail
  }

  /**
   * The strings under key of those entries that hold it with a non-null value,
   * passed through rewrite, in order. A held value that is not a string fails
   * the whole list.
   */
  function Collect(entries: seq<Json>, key: string, rewrite: string -> string): Result<seq<string>>
    decreases |entries|
  {
    if entries == [] then Ok([])
    else
      var last := entries[|entries| - 1];
      match Collect(entries[..|entries| - 1], key, rewrite)
      case Fail => Fail
      case Ok(values) =>
        if HasNonNull(last, key) then
          match AsString(Member(last, key))
          case None => Fail
          case Some(s) => Ok(values + [rewrite(s)])
        else Ok(values)
  }

  function Identity(s: string): string {
    s
  }

  /**
   * The record one element of the reply maps to, or Fail on a type error
   * anywhere in it. An element that is not an object (nlohmann's contains is
   * false on it) gives the all-default record, and no record carries a
   * playhub_rating.
   */
  function GameOf(j: Json): (r: Result<GameInfo>)
    ensures !j.JObject? ==> r == Ok(DefaultGame)
    ensures r.Ok? ==> r.value.playhubRating == None
  {
    var id := IdOf(j);
    var name := TextOf(j, "name");
    var slug := TextOf(j, "slug");
    var summary := TextOf(j, "summary");
    var rating := RatingOf(j);
    var hypes := HypesOf(j);
    var first := FirstReleaseOf(j);
    var dates := DatesOf(EntriesOf(j, "release_dates"));
    var cover := CoverOf(j);
    var artworks := Collect(EntriesOf(j, "artworks"), "url", Utils.ForceOriginalQuality);
    var screenshots := Collect(EntriesOf(j, "screenshots"), "url", Utils.ForceOriginalQuality);
    var genres := Collect(EntriesOf(j, "genres"), "name", Identity);
    var themes := Collect(EntriesOf(j, "themes"), "name", Identity);
    var platforms := Collect(EntriesOf(j, "platforms"), "name", Identity);
    if id.Ok? && name.Ok? && slug.Ok? && summary.Ok? && rating.Ok? && hypes.Ok? && first.Ok?
       && dates.Ok? && cover.Ok? && artworks.Ok? && screenshots.Ok? && genres.Ok? && themes.Ok?
       && platforms.Ok?
    then
      Ok(GameInfo(id.value, name.value, slug.value, summary.value, rating.value, None, hypes.value,
                  first.value, dates.value, cover.value, artworks.value, screenshots.value,
                  genres.value, themes.value, platforms.value))
    else Fail
  }

  /**
   * The records of the elements that map without error, in input order. The
   * per-element mapping is a parameter (it is GameOf for the parser), so that
   * the properties of the outer loop hold whatever each element maps to.
   */
  function GamesOf(elements: seq<Json>, parse: Json -> Result<GameInfo>): seq<GameInfo>
    decreases |elements|
  {
    if elements == [] then []
    else
      var games := GamesOf(elements[..|elements| - 1], parse);
      match parse(elements[|elements| - 1])
      case Ok(g) => games + [g]
      case Fail => games
  }

  /**
   * The whole reply: None stands for an empty body or text that did not parse.
   * Only a top-level array yields records.
   */
  function ResponseGames(response: Option<Json>): seq<GameInfo> {
    if response.Some? && response.value.JArray? then GamesOf(response.value.items, GameOf) else []
  }

  // ---------------------------------------------------------------------
  // The loops of ParseGamesResponse
  // ---------------------------------------------------------------------

  /** The loop over release_dates. */
  method ParseReleaseDates(entries: seq<Json>) returns (r: Result<seq<string>>)
    ensures r == DatesOf(entries)
  {
    var dates: seq<string> := [];
    var i := 0;
    while i < |entries|
      invariant 0 <= i <= |entries|
      invariant DatesOf(entries[..i]) == Ok(dates)
    {
      var entry := entries[i];
      if !Contains(entry, "date") {
        DateFails(entries, i);
        return Fail;
      }
      var t := AsInt64(Member(entry, "date"));
      if t.None? {
        DateFails(entries, i);
        return Fail;
      }
      DateAppended(entries, i, dates, t.value);
      dates := dates + [Utils.TimestampToString(t.value)];
      i := i + 1;
    }
    assert entries[..i] == entries;
    return Ok(dates);
  }

  /** One of the loops over artworks, screenshots, genres, themes or platforms. */
  method ParseStrings(entries: seq<Json>, key: string, rewrite: string -> string) returns (r: Result<seq<string>>)
    ensures r == Collect(entries, key, rewrite)
  {
    var values: seq<string> := [];
    var i := 0;
    while i < |entries|
      invariant 0 <= i <= |entries|
      invariant Collect(entries[..i], key, rewrite) == Ok(values)
    {
      assert entries[..i + 1][..i] == entries[..i];
      var entry := entries[i];
      if HasNonNull(entry, key) {
        var s := AsString(Member(entry, key));
        if s.None? {
          CollectFailFromPrefix(entries, key, rewrite, i + 1);
          return Fail;
        }
        values := values + [rewrite(s.value)];
      }
      i := i + 1;
    }
    assert entries[..i] == entries;
    return Ok(values);
  }

  /** The body of the per-element try block: Fail where it would throw. */
  method ParseGame(j: Json) returns (r: Result<GameInfo>)
    ensures r == GameOf(j)
  {
    var id := IdOf(j);
    var name := TextOf(j, "name");
    var slug := TextOf(j, "slug");
    var summary := TextOf(j, "summary");
    var rating := RatingOf(j);
    var hypes := HypesOf(j);
    var first := FirstReleaseOf(j);
    if id.Fail? || name.Fail? || slug.Fail? || summary.Fail? || rating.Fail? || hypes.Fail? || first.Fail? {
      return Fail;
    }
    var dates := ParseReleaseDates(EntriesOf(j, "release_dates"));
    if dates.Fail? {
      return Fail;
    }
    var cover := CoverOf(j);
    if cover.Fail? {
      return Fail;
    }
    var artworks := ParseStrings(EntriesOf(j, "artworks"), "url", Utils.ForceOriginalQuality);
    if artworks.Fail? {
      return Fail;
    }
    var screenshots := ParseStrings(EntriesOf(j, "screenshots"), "url", Utils.ForceOriginalQuality);
    if screenshots.Fail? {
      return Fail;
    }
    var genres := ParseStrings(EntriesOf(j, "genres"), "name", Identity);
    if genres.Fail? {
      return Fail;
    }
    var themes := ParseStrings(EntriesOf(j, "themes"), "name", Identity);
    if themes.Fail? {
      return Fail;
    }
    var platforms := ParseStrings(EntriesOf(j, "platforms"), "name", Identity);
    if platforms.Fail? {
      return Fail;
    }
    r := Ok(GameInfo(id.value, name.value, slug.value, summary.value, rating.value, None, hypes.value,
                     first.value, dates.value, cover.value, artworks.value, screenshots.value,
                     genres.value, themes.value, platforms.value));
  }

  /** ParseGamesResponse: the records of the elements that map, in order; nothing otherwise. */
  method ParseGamesResponse(response: Option<Json>) returns (games: seq<GameInfo>)
    ensures games == ResponseGames(response)
  {
    games := [];
    if response.None? || !response.value.JArray? {
      return;
    }
    var elements := response.value.items;
    var i := 0;
    while i < |elements|
      invariant 0 <= i <= |elements|
      invariant games == GamesOf(elements[..i], GameOf)
    {
      GamesStep(elements, GameOf, i);
      var game := ParseGame(elements[i]);
      if game.Ok? {
        games := games + [game.value];
      }
      i := i + 1;
    }
    assert elements[..i] == elements;
  }

  /** One more element: the records so far, extended by its record when it maps. */
  lemma GamesStep(elements: seq<Json>, parse: Json -> Result<GameInfo>, i: nat)
    requires i < |elements|
    ensures GamesOf(elements[..i + 1], parse)
            == GamesOf(elements[..i], parse) + (if parse(elements[i]).Ok? then [parse(elements[i]).value] else [])
  {
    assert elements[..i + 1][..i] == elements[..i];
  }

  // ---------------------------------------------------------------------
  // Failure propagates through the folds
  // ---------------------------------------------------------------------

  /** One more entry: the dates so far, extended by its date or failed. */
  lemma DatesStep(entries: seq<Json>, i: nat)
    requires i < |entries|
    ensures DatesOf(entries[..i + 1])
            == if DatesOf(entries[..i]).Ok? && DateOf(entries[i]).Ok?
               then Ok(DatesOf(entries[..i]).value + [DateOf(entries[i]).value])
               else Fail
  {
    assert entries[..i + 1][..i] == entries[..i];
  }

  /** An entry whose date reads as a timestamp extends the dates before it. */
  lemma DateAppended(entries: seq<Json>, i: nat, dates: seq<string>, t: int)
    requires i < |entries| && DatesOf(entries[..i]) == Ok(dates)
    requires Contains(entries[i], "date") && AsInt64(Member(entries[i], "date")) == Some(t)
    ensures DatesOf(entries[..i + 1]) == Ok(dates + [Utils.TimestampToString(t)])
  {
    DatesStep(entries, i);
  }

  /** An entry without a readable date fails the whole list. */
  lemma DateFails(entries: seq<Json>, i: nat)
    requires i < |entries|
    requires !Contains(entries[i], "date") || AsInt64(Member(entries[i], "date")).None?
    ensures DatesOf(entries).Fail?
  {
    DatesStep(entries, i);
    DatesFailFromPrefix(entries, i + 1);
  }

  lemma {:induction false} DatesFailFromPrefix(entries: seq<Json>, n: nat)
    requires 0 < n <= |entries| && DatesOf(entries[..n]).Fail?
    ensures DatesOf(entries).Fail?
    decreases |entries| - n
  {
    if n < |entries| {
      assert entries[..n + 1][..n] == entries[..n];
      DatesFailFromPrefix(entries, n + 1);
    } else {
      assert entries[..n] == entries;
    }
  }

  lemma {:induction false} CollectFailFromPrefix(entries: seq<Json>, key: string, rewrite: string -> string, n: nat)
    requires 0 < n <= |entries| && Collect(entries[..n], key, rewrite).Fail?
    ensures Collect(entries, key, rewrite).Fail?
    decreases |entries| - n
  {
    if n < |entries| {
      assert entries[..n + 1][..n] == entries[..n];
      CollectFailFromPrefix(entries, key, rewrite, n + 1);
    } else {
      assert entries[..n] == entries;
    }
  }

  // ---------------------------------------------------------------------
  // Properties of the mapping
  // ---------------------------------------------------------------------

  /** The records of a concatenation are the records of its parts, in order. */
  lemma {:induction false} GamesOfAppend(a: seq<Json>, b: seq<Json>, parse: Json -> Result<GameInfo>)
    ensures GamesOf(a + b, parse) == GamesOf(a, parse) + GamesOf(b, parse)
    decreases |b|
  {
    if b == [] {
      assert a + b == a;
    } else {
      var init := b[..|b| - 1];
      assert (a + b)[..|a + b| - 1] == a + init;
      assert (a + b)[|a + b| - 1] == b[|b| - 1];
      GamesOfAppend(a, init, parse);
    }
  }

  lemma {:induction false} GamesOfSplit(elements: seq<Json>, i: nat, parse: Json -> Result<GameInfo>)
    requires i < |elements|
    ensures GamesOf(elements, parse)
      == GamesOf(elements[..i], parse) + GamesOf([elements[i]], parse) + GamesOf(elements[i + 1..], parse)
  {
    assert elements == elements[..i] + [elements[i]] + elements[i + 1..];
    GamesOfAppend(elements[..i] + [elements[i]], elements[i + 1..], parse);
    GamesOfAppend(elements[..i], [elements[i]], parse);
  }

  /** An element that fails is dropped whole; the elements around it are kept in order. */
  lemma {:induction false} FailingElementDropped(elements: seq<Json>, i: nat, parse: Json -> Result<GameInfo>)
    requires i < |elements| && parse(elements[i]).Fail?
    ensures GamesOf(elements, parse) == GamesOf(elements[..i], parse) + GamesOf(elements[i + 1..], parse)
  {
    GamesOfSplit(elements, i, parse);
    assert [elements[i]][..0] == [];
  }

  /** An element that maps contributes its record at its place. */
  lemma {:induction false} GoodElementKept(elements: seq<Json>, i: nat, parse: Json -> Result<GameInfo>)
    requires i < |elements| && parse(elements[i]).Ok?
    ensures GamesOf(elements, parse)
      == GamesOf(elements[..i], parse) + [parse(elements[i]).value] + GamesOf(elements[i + 1..], parse)
  {
    GamesOfSplit(elements, i, parse);
    assert [elements[i]][..0] == [];
  }

  /** When every element maps, there is one record per element, at the same index. */
  lemma {:induction false} EveryElementKept(elements: seq<Json>, parse: Json -> Result<GameInfo>)
    requires forall i :: 0 <= i < |elements| ==> parse(elements[i]).Ok?
    ensures |GamesOf(elements, parse)| == |elements|
    ensures forall i :: 0 <= i < |elements| ==> GamesOf(elements, parse)[i] == parse(elements[i]).value
    decreases |elements|
  {
    if elements != [] {
      var init := elements[..|elements| - 1];
      assert forall i :: 0 <= i < |init| ==> init[i] == elements[i];
      EveryElementKept(init, parse);
    }
  }

  lemma {:induction false} GamesOfBound(elements: seq<Json>, parse: Json -> Result<GameInfo>)
    ensures |GamesOf(elements, parse)| <= |elements|
    decreases |elements|
  {
    if elements != [] {
      GamesOfBound(elements[..|elements| - 1], parse);
    }
  }

  /** There are never more records than elements, and no records unless the reply is an array. */
  lemma ResponseGamesBound(response: Option<Json>)
    ensures |ResponseGames(response)| <= (if response.Some? && response.value.JArray? then |response.value.items| else 0)
  {
    if response.Some? && response.value.JArray? {
      GamesOfBound(response.value.items, GameOf);
    }
  }

  /**
   * The defaults of a record that mapped: a missing or null id, name, slug or
   * summary reads "", a missing or null rating 0.0, a missing or null
   * first_release_date "N/A", missing hypes stay unset, a cover without an
   * object holding "url" reads "", and every list whose member is missing or
   * not an array is empty.
   */
  lemma MappedRecordDefaults(j: Json)
    requires GameOf(j).Ok?
    ensures var g := GameOf(j).value;
      && (!HasNonNull(j, "id") ==> g.id == "")
      && (!HasNonNull(j, "name") ==> g.name == "")
      && (!HasNonNull(j, "slug") ==> g.slug == "")
      && (!HasNonNull(j, "summary") ==> g.summary == "")
      && (!HasNonNull(j, "rating") ==> g.igdbRating == 0.0)
      && (!HasNonNull(j, "first_release_date") ==> g.firstReleaseDate == "N/A")
      && (!HasNonNull(j, "hypes") ==> g.hypes == None)
      && (!HasNonNull(j, "cover") ==> g.coverUrl == "")
      && (HasNonNull(j, "cover") && !Member(j, "cover").JObject? ==> g.coverUrl == "")
      && (HasNonNull(j, "cover") && !Contains(Member(j, "cover"), "url") ==> g.coverUrl == "")
      && (!HasArray(j, "release_dates") ==> g.releaseDates == [])
      && (!HasArray(j, "artworks") ==> g.artworkUrls == [])
      && (!HasArray(j, "screenshots") ==> g.screenshots == [])
      && (!HasArray(j, "genres") ==> g.genres == [])
      && (!HasArray(j, "themes") ==> g.themes == [])
      && (!HasArray(j, "platforms") ==> g.platforms == [])
  {
  }

  /** A present numeric id in the uint32 range is stored as its decimal text, which reads back as the id. */
  lemma IdReadsBack(j: Json)
    requires GameOf(j).Ok? && HasNonNull(j, "id")
    requires Member(j, "id").JInt? && 0 <= Member(j, "id").i < TwoTo32
    ensures ParseInt(GameOf(j).value.id) == Some(Member(j, "id").i)
  {
    var n: nat := Member(j, "id").i;
    assert GameOf(j).value.id == NatToDecimal(n);
    IntRoundTrip(n);
  }

  /** A hype count of 2^31 or more is stored negative: the uint32 is narrowed into an int32 field. */
  lemma LargeHypesWrap(j: Json)
    requires GameOf(j).Ok? && HasNonNull(j, "hypes")
    requires Member(j, "hypes").JInt? && TwoTo31 <= Member(j, "hypes").i < TwoTo32
    ensures GameOf(j).value.hypes == Some(Member(j, "hypes").i - TwoTo32)
  {
  }

  /** Entries that do not hold the key are skipped. */
  lemma {:induction false} CollectSkipsEntriesWithoutKey(entries: seq<Json>, key: string, rewrite: string -> string)
    requires forall i :: 0 <= i < |entries| ==> !HasNonNull(entries[i], key)
    ensures Collect(entries, key, rewrite) == Ok([])
    decreases |entries|
  {
    if entries != [] {
      CollectSkipsEntriesWithoutKey(entries[..|entries| - 1], key, rewrite);
    }
  }

  predicate HoldsString(entry: Json, key: string) {
    HasNonNull(entry, key) && Member(entry, key).JString?
  }

  function HeldString(entry: Json, key: string): string
    requires HoldsString(entry, key)
  {
    Member(entry, key).s
  }

  /** When every entry holds a string under the key, each one is kept, rewritten, at its place. */
  lemma {:induction false} CollectKeepsEveryString(entries: seq<Json>, key: string, rewrite: string -> string)
    requires forall i :: 0 <= i < |entries| ==> HoldsString(entries[i], key)
    ensures Collect(entries, key, rewrite).Ok?
    ensures |Collect(entries, key, rewrite).value| == |entries|
    ensures forall i :: 0 <= i < |entries| ==>
      Collect(entries, key, rewrite).value[i] == rewrite(HeldString(entries[i], key))
    decreases |entries|
  {
    if entries != [] {
      var init := entries[..|entries| - 1];
      assert forall i :: 0 <= i < |init| ==> init[i] == entries[i];
      CollectKeepsEveryString(init, key, rewrite);
    }
  }

  /** Every URL collected through the rewrite is already at original quality. */
  lemma {:induction false} CollectedUrlsOriginal(entries: seq<Json>, key: string)
    requires Collect(entries, key, Utils.ForceOriginalQuality).Ok?
    ensures forall u :: u in Collect(entries, key, Utils.ForceOriginalQuality).value ==>
      Utils.ForceOriginalQuality(u) == u
    decreases |entries|
  {
    if entries != [] {
      var last := entries[|entries| - 1];
      CollectedUrlsOriginal(entries[..|entries| - 1], key);
      if HasNonNull(last, key) && Member(last, key).JString? {
        Utils.ForceOriginalQualityIdempotent(Member(last, key).s);
      }
    }
  }

  /** Every image URL of a mapped record (cover, artworks, screenshots) is at original quality. */
  lemma ImageUrlsOriginal(j: Json)
    requires GameOf(j).Ok?
    ensures var g := GameOf(j).value;
      && Utils.ForceOriginalQuality(g.coverUrl) == g.coverUrl
      && (forall u :: u in g.artworkUrls ==> Utils.ForceOriginalQuality(u) == u)
      && (forall u :: u in g.screenshots ==> Utils.ForceOriginalQuality(u) == u)
  {
    CollectedUrlsOriginal(EntriesOf(j, "artworks"), "url");
    CollectedUrlsOriginal(EntriesOf(j, "screenshots"), "url");
    if HasNonNull(j, "cover") && Member(j, "cover").JObject? && Contains(Member(j, "cover"), "url") {
      Utils.ForceOriginalQualityIdempotent(Member(Member(j, "cover"), "url").s);
    } else {
      assert GameOf(j).value.coverUrl == "";
    }
  }
}
