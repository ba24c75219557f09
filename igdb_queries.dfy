/**
 * The request bodies the provider client sends to the IGDB games endpoint,
 * in IGDB's query language: a shared field projection followed by one
 * operation-specific clause. Arguments are inserted verbatim (no escaping,
 * no clamping of the limit), as fmt::format does.
 */
module IgdbQueries {
  import opened Wrappers
  import opened Decimal
  import opened GameEntities
  import Utils

  /** kSearchGameQuery: the fields every request asks for. */
  const FieldProjection: string :=
    "fields name,summary,rating,genres.name,"
    + "first_release_date,artworks.url,cover.url,"
    + "hypes,platforms.name,screenshots.url,slug,themes.name; "

  /** The relevance filter every request carries: main games and their kin, not cancelled or delisted. */
  const RelevanceFilter: string := "game_type = (0,8,9,10) & (game_status = null | game_status != (6, 7))"

  // The literal parts of each body around its arguments.
  const SearchClause: string := "search \""
  const SlugClause: string := "where slug = \""
  const GenreClause: string := "where genres.name = \""
  const UpcomingClause: string := "where first_release_date > "
  const QuoteWhere: string := "\"; where "
  const QuoteAnd: string := "\" & "
  const HypedAnd: string := " & hypes != null & "
  const LimitClause: string := "; limit "
  const SortByRating: string := "; sort rating desc; limit "
  const SortByHypes: string := "; sort hypes desc; limit "
  const Terminator: string := ";"

  const SearchHead: string := FieldProjection + SearchClause
  const SearchMid: string := QuoteWhere + RelevanceFilter + LimitClause
  const SlugHead: string := FieldProjection + SlugClause
  const SlugTail: string := QuoteAnd + RelevanceFilter + Terminator
  const GenreHead: string := FieldProjection + GenreClause
  const GenreMid: string := QuoteAnd + RelevanceFilter + SortByRating
  const UpcomingHead: string := FieldProjection + UpcomingClause
  const UpcomingMid: string := HypedAnd + RelevanceFilter + SortByHypes

  /** The body of SearchGames: a text search restricted by the relevance filter. */
  function SearchBody(query: string, limit: Int32): (r: string)
    ensures FieldProjection <= r
    ensures Infix(RelevanceFilter, r)
  {
    PrefixOfBody(FieldProjection, SearchClause, query, SearchMid, IntToDecimal(limit), Terminator);
    InfixOf(RelevanceFilter, QuoteWhere, LimitClause, SearchMid);
    InfixOfBody(RelevanceFilter, SearchHead, query, SearchMid, IntToDecimal(limit), Terminator);
    SearchHead + query + SearchMid + IntToDecimal(limit) + Terminator
  }

  /** The body of GetGameBySlug: an exact slug match, with no limit clause. */
  function SlugBody(slug: string): (r: string)
    ensures FieldProjection <= r
    ensures Infix(RelevanceFilter, r)
  {
    PrefixOfSlugBody(FieldProjection, SlugClause, slug, SlugTail);
    InfixOf(RelevanceFilter, QuoteAnd, Terminator, SlugTail);
    InfixOfSlugBody(RelevanceFilter, SlugHead, slug, SlugTail);
    SlugHead + slug + SlugTail
  }

  /** The body of GetGamesByGenre: an exact genre-name match, best rated first. */
  function GenreBody(genre: string, limit: Int32): (r: string)
    ensures FieldProjection <= r
    ensures Infix(RelevanceFilter, r)
    ensures Infix(SortByRating, r)
  {
    PrefixOfBody(FieldProjection, GenreClause, genre, GenreMid, IntToDecimal(limit), Terminator);
    InfixOf(RelevanceFilter, QuoteAnd, SortByRating, GenreMid);
    InfixOfBody(RelevanceFilter, GenreHead, genre, GenreMid, IntToDecimal(limit), Terminator);
    InfixAtEnd(SortByRating, QuoteAnd + RelevanceFilter, GenreMid);
    InfixOfBody(SortByRating, GenreHead, genre, GenreMid, IntToDecimal(limit), Terminator);
    GenreHead + genre + GenreMid + IntToDecimal(limit) + Terminator
  }

  /**
   * The body of GetUpcomingGames: games released after now that have a hype
   * count, ordered by hypes (not by release date).
   */
  function UpcomingBody(now: int, limit: Int32): (r: string)
    ensures FieldProjection <= r
    ensures Infix(RelevanceFilter, r)
    ensures Infix(HypedAnd, r)
    ensures Infix(SortByHypes, r)
  {
    var d := IntToDecimal(now);
    var l := IntToDecimal(limit);
    PrefixOfBody(FieldProjection, UpcomingClause, d, UpcomingMid, l, Terminator);
    InfixOf(RelevanceFilter, HypedAnd, SortByHypes, UpcomingMid);
    InfixOfBody(RelevanceFilter, UpcomingHead, d, UpcomingMid, l, Terminator);
    InfixOf(HypedAnd, [], RelevanceFilter + SortByHypes, UpcomingMid);
    InfixOfBody(HypedAnd, UpcomingHead, d, UpcomingMid, l, Terminator);
    InfixAtEnd(SortByHypes, HypedAnd + RelevanceFilter, UpcomingMid);
    InfixOfBody(SortByHypes, UpcomingHead, d, UpcomingMid, l, Terminator);
    UpcomingHead + d + UpcomingMid + l + Terminator
  }

  // ---------------------------------------------------------------------
  // Reading the arguments back out of a body
  // ---------------------------------------------------------------------

  predicate InfixAt(sub: string, s: string, i: int) {
    0 <= i <= |s| - |sub| && s[i..i + |sub|] == sub
  }

  /** sub occurs somewhere in s. */
  predicate Infix(sub: string, s: string) {
    exists i :: 0 <= i <= |s| - |sub| && InfixAt(sub, s, i)
  }

  lemma InfixOf(sub: string, before: string, after: string, s: string)
    requires s == before + sub + after
    ensures Infix(sub, s)
  {
    assert InfixAt(sub, s, |before|);
  }

  lemma PrefixOf(p: string, rest: string, s: string)
    requires s == p + rest
    ensures p <= s
  {
    assert s[..|p|] == p;
  }

  lemma InfixAtEnd(sub: string, before: string, s: string)
    requires s == before + sub
    ensures Infix(sub, s)
  {
    assert InfixAt(sub, s, |before|);
  }

  /** A body laid out as p + clause + x + mid + y + t starts with p. */
  lemma PrefixOfBody(p: string, clause: string, x: string, mid: string, y: string, t: string)
    ensures p <= p + clause + x + mid + y + t
  {
    PrefixOf(p, clause + x + mid + y + t, p + clause + x + mid + y + t);
  }

  /** The same two facts for a body laid out as p + clause + x + tail. */
  lemma PrefixOfSlugBody(p: string, clause: string, x: string, tail: string)
    ensures p <= p + clause + x + tail
  {
    PrefixOf(p, clause + x + tail, p + clause + x + tail);
  }

  lemma InfixOfSlugBody(sub: string, head: string, x: string, tail: string)
    requires Infix(sub, tail)
    ensures Infix(sub, head + x + tail)
  {
    var i :| 0 <= i <= |tail| - |sub| && InfixAt(sub, tail, i);
    var body := head + x + tail;
    var k := |head| + |x| + i;
    assert body[k..k + |sub|] == tail[i..i + |sub|];
    assert InfixAt(sub, body, k);
  }

  /** What occurs in the middle part of head + x + mid + y + t occurs in the body. */
  lemma InfixOfBody(sub: string, head: string, x: string, mid: string, y: string, t: string)
    requires Infix(sub, mid)
    ensures Infix(sub, head + x + mid + y + t)
  {
    var i :| 0 <= i <= |mid| - |sub| && InfixAt(sub, mid, i);
    var body := head + x + mid + y + t;
    var k := |head| + |x| + i;
    assert body[k..k + |sub|] == mid[i..i + |sub|];
    assert InfixAt(sub, body, k);
  }

  /**
   * Splits head + x + mid + y + tail into (x, y), where x is the text up to the
   * first stop character after head, and mid starts with that character.
   */
  function Split(body: string, head: string, stop: char, mid: string, tail: string): Option<(string, string)> {
    if head <= body then
      var rest := body[|head|..];
      match Utils.FindFirst(rest, stop)
      case None => None
      case Some(i) =>
        var after := rest[i..];
        if mid <= after && |mid| + |tail| <= |after| && after[|after| - |tail|..] == tail
        then Some((rest[..i], after[|mid|..|after| - |tail|]))
        else None
    else None
  }

  lemma SplitRoundTrip(head: string, x: string, stop: char, mid: string, y: string, tail: string)
    requires stop !in x && |mid| > 0 && mid[0] == stop
    ensures Split(head + x + mid + y + tail, head, stop, mid, tail) == Some((x, y))
  {
    var body := head + x + mid + y + tail;
    assert body[..|head|] == head;
    var rest := body[|head|..];
    assert rest == x + mid + y + tail;
    assert rest[|x|] == stop;
    assert stop !in rest[..|x|] by { assert rest[..|x|] == x; }
    var after := rest[|x|..];
    assert after == mid + y + tail;
    assert after[..|mid|] == mid;
    assert after[|after| - |tail|..] == tail;
    assert after[|mid|..|after| - |tail|] == y;
  }

  /** The (query, limit) a search body was built from. */
  function SearchArguments(body: string): Option<(string, int)> {
    match Split(body, SearchHead, '"', SearchMid, Terminator)
    case None => None
    case Some((query, digits)) =>
      match ParseInt(digits)
      case None => None
      case Some(limit) => Some((query, limit))
  }

  function SlugArgument(body: string): Option<string> {
    match Split(body, SlugHead, '"', SlugTail, "")
    case None => None
    case Some((slug, rest)) => if rest == "" then Some(slug) else None
  }

  function GenreArguments(body: string): Option<(string, int)> {
    match Split(body, GenreHead, '"', GenreMid, Terminator)
    case None => None
    case Some((genre, digits)) =>
      match ParseInt(digits)
      case None => None
      case Some(limit) => Some((genre, limit))
  }

  function UpcomingArguments(body: string): Option<(int, int)> {
    match Split(body, UpcomingHead, ' ', UpcomingMid, Terminator)
    case None => None
    case Some((nowDigits, limitDigits)) =>
      match (ParseInt(nowDigits), ParseInt(limitDigits))
      case (Some(now), Some(limit)) => Some((now, limit))
      case _ => None
  }

  /** A search body gives back its query and limit, for any query without a double quote. */
  lemma SearchRoundTrip(query: string, limit: Int32)
    requires '"' !in query
    ensures SearchArguments(SearchBody(query, limit)) == Some((query, limit as int))
  {
    SplitRoundTrip(SearchHead, query, '"', SearchMid, IntToDecimal(limit), Terminator);
    IntRoundTrip(limit);
  }

  lemma SlugRoundTrip(slug: string)
    requires '"' !in slug
    ensures SlugArgument(SlugBody(slug)) == Some(slug)
  {
    SplitRoundTrip(SlugHead, slug, '"', SlugTail, "", "");
    assert SlugHead + slug + SlugTail + "" + "" == SlugBody(slug);
  }

  lemma GenreRoundTrip(genre: string, limit: Int32)
    requires '"' !in genre
    ensures GenreArguments(GenreBody(genre, limit)) == Some((genre, limit as int))
  {
    SplitRoundTrip(GenreHead, genre, '"', GenreMid, IntToDecimal(limit), Terminator);
    IntRoundTrip(limit);
  }

  lemma NoSpaceInDecimal(i: int)
    ensures ' ' !in IntToDecimal(i)
  {
    var s := IntToDecimal(i);
    if i < 0 {
      assert s == "-" + NatToDecimal(-i);
    }
  }

  /** An upcoming body gives back the instant and the limit it was built from, for every pair. */
  lemma UpcomingRoundTrip(now: int, limit: Int32)
    ensures UpcomingArguments(UpcomingBody(now, limit)) == Some((now, limit as int))
  {
    NoSpaceInDecimal(now);
    SplitRoundTrip(UpcomingHead, IntToDecimal(now), ' ', UpcomingMid, IntToDecimal(limit), Terminator);
    IntRoundTrip(now);
    IntRoundTrip(limit);
  }

  /** Different searches send different bodies: the query and the limit both reach the provider. */
  lemma SearchBodyInjective(q1: string, l1: Int32, q2: string, l2: Int32)
    requires '"' !in q1 && '"' !in q2
    requires SearchBody(q1, l1) == SearchBody(q2, l2)
    ensures q1 == q2 && l1 == l2
  {
    SearchRoundTrip(q1, l1);
    SearchRoundTrip(q2, l2);
  }
}
