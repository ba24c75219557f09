/**
 * The concrete cases of the unit tests of the utilities, stated against the
 * general model in module Utils. Each literal is passed in as a parameter so
 * that the verifier reasons about it through the general lemmas instead of
 * evaluating the recursive definitions on it.
 */
module UtilsExamples {
  import opened Decimal
  import opened Utils

  /** 2023-01-01 is day 19358 of the epoch. */
  lemma EpochDayOf2023()
    ensures CivilFromDays(19358) == CivilDate(2023, 1, 1)
  {
    var d := CivilDate(2023, 1, 1);
    assert DaysOf(d) == 19358;
    CivilRoundTrip(d);
  }

  lemma NewYear2023Day(t: int)
    requires t == 1672531200
    ensures t > 0 && t / SecondsPerDay == 19358
  {
  }

  lemma NewYear2023Text(d: CivilDate)
    requires d == CivilDate(2023, 1, 1)
    ensures FormatDate(d) == "2023-01-01"
  {
    assert NatToDecimal(2023) == "2023";
    assert Pad2(1) == "01";
  }

  /** The first timestamp of the unit tests: midnight of 2023-01-01 UTC. */
  lemma {:induction false} TimestampExample(t: int)
    requires t == 1672531200
    ensures TimestampToString(t) == "2023-01-01"
  {
    NewYear2023Day(t);
    EpochDayOf2023();
    NewYear2023Text(CivilFromDays(t / SecondsPerDay));
  }

  /** The other timestamps of the unit tests: zero and a negative value print "N/A". */
  lemma NonPositiveTimestampExamples(zero: int, negative: int)
    requires zero == 0 && negative == -100
    ensures TimestampToString(zero) == "N/A"
    ensures TimestampToString(negative) == "N/A"
  {
  }

  lemma ImageHostShape(host: string)
    requires host == "//images.igdb.com/igdb/image/upload"
    ensures 't' !in host && host[|host| - 1] != '/'
  {
  }

  lemma ThumbParts(token: string, file: string)
    requires token == "thumb" && file == "co2vcd.jpg"
    ensures |token| >= 1 && AllWordChars(token)
    ensures 't' !in file && file[|file| - 1] != '/'
  {
  }

  lemma ThumbUrl(host: string, url: string)
    requires url == host + "/t_thumb/co2vcd.jpg"
    ensures url == host + "/t_" + "thumb" + "/" + "co2vcd.jpg"
  {
  }

  /** The thumbnail case of the unit tests. */
  lemma {:induction false} ThumbRewritten(host: string)
    requires host == "//images.igdb.com/igdb/image/upload"
    ensures ForceOriginalQuality(host + "/t_thumb/co2vcd.jpg") == host + "/t_original/co2vcd.jpg"
  {
    ImageHostShape(host);
    ThumbParts("thumb", "co2vcd.jpg");
    RewritesOneToken(host, "thumb", "co2vcd.jpg");
    ThumbUrl(host, host + "/t_thumb/co2vcd.jpg");
  }

  lemma CoverBigParts(token: string, file: string)
    requires token == "cover_big" && file == "xyz123.jpg"
    ensures |token| >= 1 && AllWordChars(token)
    ensures 't' !in file && file[|file| - 1] != '/'
  {
  }

  lemma CoverBigUrl(host: string, url: string)
    requires url == host + "/t_cover_big/xyz123.jpg"
    ensures url == host + "/t_" + "cover_big" + "/" + "xyz123.jpg"
  {
  }

  /** The cover case of the unit tests: an underscore inside the size name. */
  lemma {:induction false} CoverBigRewritten(host: string)
    requires host == "//images.igdb.com/igdb/image/upload"
    ensures ForceOriginalQuality(host + "/t_cover_big/xyz123.jpg") == host + "/t_original/xyz123.jpg"
  {
    ImageHostShape(host);
    CoverBigParts("cover_big", "xyz123.jpg");
    RewritesOneToken(host, "cover_big", "xyz123.jpg");
    CoverBigUrl(host, host + "/t_cover_big/xyz123.jpg");
  }
}
