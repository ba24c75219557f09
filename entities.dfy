/**
 * The game record exchanged between the provider client, the store and the
 * service (entities::GameInfo), and the 32-bit integer type of the limits.
 */
module GameEntities {
  import opened Wrappers

  const TwoTo31: int := 0x8000_0000

  /** std::int32_t: the type of every limit and of the hypes counter. */
  type Int32 = i: int | -TwoTo31 <= i < TwoTo31

  /**
   * Conversion of an unsigned 32-bit value to std::int32_t, as an assignment
   * of a std::uint32_t to an int32 field does: values of 2^31 and above wrap
   * to negative numbers.
   */
  function ToInt32(u: nat): (r: Int32)
    requires u < 2 * TwoTo31
    ensures u < TwoTo31 ==> r == u
    ensures u >= TwoTo31 ==> r < 0 && r + 2 * TwoTo31 == u
  {
    if u < TwoTo31 then u else u - 2 * TwoTo31
  }

  /**
   * One game as the provider describes it. The two fields the parser may leave
   * uninitialised (playhub_rating always, hypes when absent) are options, with
   * None for "never written".
   */
  datatype GameInfo = GameInfo(
    id: string,
    name: string,
    slug: string,
    summary: string,
    igdbRating: real,
    playhubRating: Option<real>,
    hypes: Option<Int32>,
    firstReleaseDate: string,
    releaseDates: seq<string>,
    coverUrl: string,
    artworkUrls: seq<string>,
    screenshots: seq<string>,
    genres: seq<string>,
    themes: seq<string>,
    platforms: seq<string>)
}
