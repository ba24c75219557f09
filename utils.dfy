/**
 * The string helpers of the tools library: the line loop of LoadEnv, the
 * UTC rendering of a timestamp as YYYY-MM-DD, and the rewrite of image URLs
 * to the "original" size.
 */
module Utils {
  import opened Wrappers
  import opened Decimal

  // ---------------------------------------------------------------------
  // LoadEnv: one "KEY=VALUE" assignment per line
  // ---------------------------------------------------------------------

  /** Position of the first c in s (std::string::find with one character). */
  function FindFirst(s: string, c: char): (r: Option<nat>)
    ensures r.Some? ==> r.value < |s| && s[r.value] == c && c !in s[..r.value]
    ensures r.None? <==> c !in s
  {
    if s == [] then None
    else if s[0] == c then Some(0)
    else match FindFirst(s[1..], c)
      case None => None
      case Some(p) => assert s[1..][..p] == s[1..p + 1]; Some(p + 1)
  }

  /** A line LoadEnv skips before looking for '=': empty, or a '#' comment. */
  predicate IsSkipped(line: string) {
    line == [] || line[0] == '#'
  }

  /**
   * The assignment a line makes, if any: the text before the first '=' is the
   * key and the rest the value, so a value may contain '=' and a key may be empty.
   */
  function ParseLine(line: string): (r: Option<(string, string)>)
    ensures r.None? <==> IsSkipped(line) || '=' !in line
    ensures r.Some? ==> line == r.value.0 + "=" + r.value.1 && '=' !in r.value.0
  {
    if IsSkipped(line) then None
    else match FindFirst(line, '=')
      case None => None
      case Some(p) =>
        assert line == line[..p] + "=" + line[p + 1..];
        Some((line[..p], line[p + 1..]))
  }

  predicate Assigns(line: string, key: string) {
    ParseLine(line).Some? && ParseLine(line).value.0 == key
  }

  /** The map built from the lines read so far, later assignments overriding earlier ones. */
  function EnvOf(lines: seq<string>): map<string, string>
    decreases |lines|
  {
    if lines == [] then map[]
    else
      var env := EnvOf(lines[..|lines| - 1]);
      match ParseLine(lines[|lines| - 1])
      case None => env
      case Some(kv) => env[kv.0 := kv.1]
  }

  /** The getline loop of LoadEnv, over the lines of an opened file. */
  method LoadEnvLines(lines: seq<string>) returns (envVars: map<string, string>)
    ensures envVars == EnvOf(lines)
  {
    envVars := map[];
    var n := 0;
    while n < |lines|
      invariant 0 <= n <= |lines|
      invariant envVars == EnvOf(lines[..n])
    {
      var line := lines[n];
      assert lines[..n + 1][..n] == lines[..n];
      if !(line == [] || line[0] == '#') {
        var equalsPos := FindFirst(line, '=');
        if equalsPos.Some? {
          var key := line[..equalsPos.value];
          var value := line[equalsPos.value + 1..];
          envVars := envVars[key := value];
        }
      }
      n := n + 1;
    }
    assert lines[..n] == lines;
  }

  /** A key is defined exactly when some line assigns it. */
  lemma {:induction false} DefinedIffAssigned(lines: seq<string>, key: string)
    ensures key in EnvOf(lines) <==> exists i :: 0 <= i < |lines| && Assigns(lines[i], key)
    decreases |lines|
  {
    if lines != [] {
      var init := lines[..|lines| - 1];
      var last := lines[|lines| - 1];
      DefinedIffAssigned(init, key);
      if key in EnvOf(lines) {
        if !Assigns(last, key) {
          assert key in EnvOf(init);
          var i :| 0 <= i < |init| && Assigns(init[i], key);
          assert lines[i] == init[i];
        }
      }
      if exists i :: 0 <= i < |lines| && Assigns(lines[i], key) {
        var i :| 0 <= i < |lines| && Assigns(lines[i], key);
        if i < |init| {
          assert init[i] == lines[i];
          assert key in EnvOf(init);
        }
      }
    }
  }

  /** The value of a key is the one given by the last line that assigns it. */
  lemma {:induction false} LastAssignmentWins(lines: seq<string>, key: string, i: nat)
    requires i < |lines| && Assigns(lines[i], key)
    requires forall j :: i < j < |lines| ==> !Assigns(lines[j], key)
    ensures key in EnvOf(lines) && EnvOf(lines)[key] == ParseLine(lines[i]).value.1
    decreases |lines|
  {
    var init := lines[..|lines| - 1];
    if i < |init| {
      assert init[i] == lines[i];
      assert forall j :: i < j < |init| ==> init[j] == lines[j];
      LastAssignmentWins(init, key, i);
      assert !Assigns(lines[|lines| - 1], key);
    }
  }

  // ---------------------------------------------------------------------
  // TimestampToString: the UTC calendar day of a Unix timestamp
  // ---------------------------------------------------------------------

  const SecondsPerDay: int := 86400

  /** 10000-01-01T00:00:00Z: the first instant whose year no longer fits "%Y-%m-%d" in 11 bytes. */
  const MaxTimestamp: int := 253402300800

  datatype CivilDate = CivilDate(year: int, month: int, day: int)

  predicate IsLeapYear(y: int) {
    y % 4 == 0 && (y % 100 != 0 || y % 400 == 0)
  }

  function DaysInYear(y: int): nat {
    if IsLeapYear(y) then 366 else 365
  }

  function DaysInMonth(y: int, m: int): nat
    requires 1 <= m <= 12
  {
    if m == 2 then (if IsLeapYear(y) then 29 else 28)
    else if m == 4 || m == 6 || m == 9 || m == 11 then 30
    else 31
  }

  predicate ValidDate(d: CivilDate) {
    1 <= d.month <= 12 && 1 <= d.day <= DaysInMonth(d.year, d.month)
  }

  /** Days of year y that lie in the months before month m. */
  function DaysBeforeMonth(y: int, m: int): nat
    requires 1 <= m <= 13
  {
    [0, 31, 59, 90, 120, 151, 181, 212, 243, 273, 304, 334, 365][m - 1]
      + (if IsLeapYear(y) && m > 2 then 1 else 0)
  }

  /** Leap years among the years 1 .. y - 1 of the proleptic Gregorian calendar. */
  function LeapYearsBefore(y: int): int
    requires y >= 1
  {
    (y - 1) / 4 - (y - 1) / 100 + (y - 1) / 400
  }

  /** Days from 1970-01-01 to the first day of year y. */
  function DaysBeforeYear(y: int): int
    requires y >= 1970
  {
    365 * (y - 1970) + LeapYearsBefore(y) - LeapYearsBefore(1970)
  }

  /** Days from 1970-01-01 to the given date (0 for the epoch's own day). */
  function DaysOf(d: CivilDate): int
    requires d.year >= 1970 && ValidDate(d)
  {
    DaysBeforeYear(d.year) + DaysBeforeMonth(d.year, d.month) + d.day - 1
  }

  lemma DivStep(y: int)
    ensures y / 4 - (y - 1) / 4 == (if y % 4 == 0 then 1 else 0)
    ensures y / 100 - (y - 1) / 100 == (if y % 100 == 0 then 1 else 0)
    ensures y / 400 - (y - 1) / 400 == (if y % 400 == 0 then 1 else 0)
  {
  }

  lemma YearStep(y: int)
    requires y >= 1970
    ensures DaysBeforeYear(y + 1) == DaysBeforeYear(y) + DaysInYear(y)
  {
    LeapStep(y);
  }

  /** Year y adds one to the count of leap years before the next year exactly when it is a leap year. */
  lemma LeapStep(y: int)
    requires y >= 1
    ensures LeapYearsBefore(y + 1) == LeapYearsBefore(y) + (if IsLeapYear(y) then 1 else 0)
  {
    DivStep(y);
    DivisorChain(y);
  }

  lemma DivisorChain(y: int)
    ensures y % 400 == 0 ==> y % 100 == 0
    ensures y % 100 == 0 ==> y % 4 == 0
  {
    if y % 400 == 0 {
      Multiple400(y);
    }
    if y % 100 == 0 {
      Multiple100(y);
    }
  }

  lemma Multiple400(y: int)
    requires y % 400 == 0
    ensures y % 100 == 0
  {
    var j := 4 * (y / 400);
    assert y == 100 * j;
    assert y / 100 == j;
  }

  lemma Multiple100(y: int)
    requires y % 100 == 0
    ensures y % 4 == 0
  {
    var j := 25 * (y / 100);
    assert y == 4 * j;
    assert y / 4 == j;
  }

  lemma {:induction false} DaysBeforeYearMonotonic(y1: int, y2: int)
    requires 1970 <= y1 <= y2
    ensures DaysBeforeYear(y1) + 365 * (y2 - y1) <= DaysBeforeYear(y2)
    decreases y2 - y1
  {
    if y1 < y2 {
      YearStep(y1);
      DaysBeforeYearMonotonic(y1 + 1, y2);
    }
  }

  /** Walks the months of year y from month m, consuming days. */
  function FromMonth(y: int, m: int, days: nat): (d: CivilDate)
    requires 1 <= m <= 12 && days < DaysInYear(y) - DaysBeforeMonth(y, m)
    ensures ValidDate(d) && d.year == y && d.month >= m
    ensures DaysBeforeMonth(y, d.month) + d.day - 1 == DaysBeforeMonth(y, m) + days
    decreases 12 - m
  {
    if days < DaysInMonth(y, m) then CivilDate(y, m, days + 1)
    else FromMonth(y, m + 1, days - DaysInMonth(y, m))
  }

  /** Walks the years from year y, consuming days. */
  function FromYear(y: int, days: nat): (d: CivilDate)
    requires y >= 1970
    ensures ValidDate(d) && d.year >= y
    ensures DaysOf(d) == DaysBeforeYear(y) + days
    decreases days
  {
    if days < DaysInYear(y) then FromMonth(y, 1, days)
    else
      YearStep(y);
      FromYear(y + 1, days - DaysInYear(y))
  }

  /** The calendar date of the day that lies the given number of days after 1970-01-01. */
  function CivilFromDays(days: nat): (d: CivilDate)
    ensures ValidDate(d) && d.year >= 1970
    ensures DaysOf(d) == days
  {
    FromYear(1970, days)
  }

  /** Within a year, DaysOf stays below the first day of the next year. */
  lemma DayWithinYear(d: CivilDate)
    requires d.year >= 1970 && ValidDate(d)
    ensures DaysBeforeYear(d.year) <= DaysOf(d) < DaysBeforeYear(d.year + 1)
  {
    YearStep(d.year);
  }

  /** Distinct valid dates fall on distinct days. */
  lemma DaysOfInjective(d1: CivilDate, d2: CivilDate)
    requires d1.year >= 1970 && ValidDate(d1)
    requires d2.year >= 1970 && ValidDate(d2)
    requires DaysOf(d1) == DaysOf(d2)
    ensures d1 == d2
  {
    SameDaySameYear(d1, d2);
    DayOfYearInjective(d1, d2);
  }

  lemma SameDaySameYear(d1: CivilDate, d2: CivilDate)
    requires d1.year >= 1970 && ValidDate(d1)
    requires d2.year >= 1970 && ValidDate(d2)
    requires DaysOf(d1) == DaysOf(d2)
    ensures d1.year == d2.year
  {
    DayWithinYear(d1);
    DayWithinYear(d2);
    OneYearPerDay(d1.year, d2.year, DaysOf(d1));
  }

  /** The years partition the days: a day lies within one year only. */
  lemma OneYearPerDay(y1: int, y2: int, days: int)
    requires 1970 <= y1 && 1970 <= y2
    requires DaysBeforeYear(y1) <= days < DaysBeforeYear(y1 + 1)
    requires DaysBeforeYear(y2) <= days < DaysBeforeYear(y2 + 1)
    ensures y1 == y2
  {
    if y1 < y2 {
      DaysBeforeYearMonotonic(y1 + 1, y2);
    } else if y2 < y1 {
      DaysBeforeYearMonotonic(y2 + 1, y1);
    }
  }

  lemma MonthStep(y: int, m: int)
    requires 1 <= m <= 12
    ensures DaysBeforeMonth(y, m + 1) == DaysBeforeMonth(y, m) + DaysInMonth(y, m)
  {
  }

  lemma {:induction false} DaysBeforeMonthMonotonic(y: int, m1: int, m2: int)
    requires 1 <= m1 <= m2 <= 13
    ensures DaysBeforeMonth(y, m1) <= DaysBeforeMonth(y, m2)
    decreases m2 - m1
  {
    if m1 < m2 {
      MonthStep(y, m1);
      DaysBeforeMonthMonotonic(y, m1 + 1, m2);
    }
  }

  /** Within one year, distinct valid dates have distinct offsets from the first of January. */
  lemma DayOfYearInjective(d1: CivilDate, d2: CivilDate)
    requires ValidDate(d1) && ValidDate(d2) && d1.year == d2.year
    requires DaysBeforeMonth(d1.year, d1.month) + d1.day == DaysBeforeMonth(d2.year, d2.month) + d2.day
    ensures d1 == d2
  {
    var y := d1.year;
    MonthStep(y, d1.month);
    MonthStep(y, d2.month);
    if d1.month < d2.month {
      DaysBeforeMonthMonotonic(y, d1.month + 1, d2.month);
    } else if d2.month < d1.month {
      DaysBeforeMonthMonotonic(y, d2.month + 1, d1.month);
    }
  }

  /** Every valid date from 1970 on is reached: CivilFromDays inverts DaysOf. */
  lemma CivilRoundTrip(d: CivilDate)
    requires d.year >= 1970 && ValidDate(d)
    ensures DaysOf(d) >= 0 && CivilFromDays(DaysOf(d)) == d
  {
    DayWithinYear(d);
    DaysBeforeYearMonotonic(1970, d.year);
    DaysOfInjective(CivilFromDays(DaysOf(d)), d);
  }

  /** Two digits, zero-padded (strftime's %m and %d). */
  function Pad2(n: nat): (s: string)
    requires n < 100
    ensures |s| == 2 && AllDigits(s) && DecimalValue(s) == n
  {
    NatRoundTrip(n);
    if n < 10 then
      var s := "0" + NatToDecimal(n);
      assert s[..1] == "0";
      s
    else
      var s := NatToDecimal(n);
      assert s[..1] == NatToDecimal(n / 10);
      s
  }

  /** strftime(\"%Y-%m-%d\") of a broken-down date. */
  function FormatDate(d: CivilDate): string
    requires d.year >= 0 && ValidDate(d)
  {
    NatToDecimal(d.year) + "-" + Pad2(d.month) + "-" + Pad2(d.day)
  }

  /**
   * TimestampToString under UTC: "N/A" for a non-positive timestamp,
   * otherwise the calendar date of the day holding the timestamp.
   */
  function TimestampToString(timestamp: int): (r: string)
    ensures timestamp <= 0 ==> r == "N/A"
    ensures timestamp > 0 ==> |r| >= 10
  {
    if timestamp <= 0 then "N/A"
    else
      var d := CivilFromDays(timestamp / SecondsPerDay);
      FourDigitsAtLeast(d.year);
      FormatDate(d)
  }

  lemma {:induction false} FourDigitsAtLeast(n: nat)
    requires n >= 1000
    ensures |NatToDecimal(n)| >= 4
  {
    assert NatToDecimal(n) == NatToDecimal(n / 10) + [DigitChar(n % 10)];
    assert NatToDecimal(n / 10) == NatToDecimal(n / 100) + [DigitChar(n / 10 % 10)];
    assert NatToDecimal(n / 100) == NatToDecimal(n / 1000) + [DigitChar(n / 100 % 10)];
  }

  lemma {:induction false} FourDigits(n: nat)
    requires 1000 <= n < 10000
    ensures |NatToDecimal(n)| == 4
  {
    assert NatToDecimal(n) == NatToDecimal(n / 10) + [DigitChar(n % 10)];
    assert NatToDecimal(n / 10) == NatToDecimal(n / 100) + [DigitChar(n / 10 % 10)];
    assert NatToDecimal(n / 100) == NatToDecimal(n / 1000) + [DigitChar(n / 100 % 10)];
  }

  /** A day before 10000-01-01 lies in a year of at most four digits. */
  lemma YearBeforeTenThousand(days: nat)
    requires days < MaxTimestamp / SecondsPerDay
    ensures CivilFromDays(days).year < 10000
  {
    var d := CivilFromDays(days);
    if d.year >= 10000 {
      DaysBeforeYearMonotonic(10000, d.year);
      DayWithinYear(d);
      assert false;
    }
  }

  /**
   * For a positive timestamp before the year 10000 the text is exactly
   * "YYYY-MM-DD", and the date it spells is a valid date that falls on the
   * timestamp's day.
   */
  lemma TimestampNamesItsDay(timestamp: int)
    requires 0 < timestamp < MaxTimestamp
    ensures var r := TimestampToString(timestamp);
            && |r| == 10 && r[4] == '-' && r[7] == '-'
            && AllDigits(r[..4]) && AllDigits(r[5..7]) && AllDigits(r[8..])
            && var d := CivilDate(DecimalValue(r[..4]), DecimalValue(r[5..7]), DecimalValue(r[8..]));
               d.year >= 1970 && ValidDate(d) && DaysOf(d) == timestamp / SecondsPerDay
  {
    var days := timestamp / SecondsPerDay;
    var d := CivilFromDays(days);
    YearBeforeTenThousand(days);
    FourDigits(d.year);
    NatRoundTrip(d.year);
    var r := TimestampToString(timestamp);
    assert r == NatToDecimal(d.year) + "-" + Pad2(d.month) + "-" + Pad2(d.day);
    assert r[..4] == NatToDecimal(d.year);
    assert r[5..7] == Pad2(d.month);
    assert r[8..] == Pad2(d.day);
  }

  // ---------------------------------------------------------------------
  // ForceOriginalQuality: regex_replace(url, "/t_[a-zA-Z0-9_]+/", "/t_original/")
  // ---------------------------------------------------------------------

  const OriginalToken: string := "/t_original/"

  /** The character class [a-zA-Z0-9_]. */
  predicate IsWordChar(c: char) {
    'a' <= c <= 'z' || 'A' <= c <= 'Z' || '0' <= c <= '9' || c == '_'
  }

  predicate AllWordChars(w: string) {
    forall i :: 0 <= i < |w| ==> IsWordChar(w[i])
  }

  /** Length of the longest prefix of s made of word characters. */
  function WordRun(s: string): (n: nat)
    ensures n <= |s|
    ensures forall i :: 0 <= i < n ==> IsWordChar(s[i])
    ensures n < |s| ==> !IsWordChar(s[n])
  {
    if s != [] && IsWordChar(s[0]) then 1 + WordRun(s[1..]) else 0
  }

  /**
   * Length of the size-token segment "/t_" word+ "/" that the pattern matches
   * at the start of s, or 0 when it does not match there. The class excludes
   * '/', so the greedy run must be followed directly by '/'.
   */
  function SizeTokenLength(s: string): (n: nat)
    ensures n <= |s|
    ensures n > 0 ==> n >= 5 && s[0] == '/' && s[n - 1] == '/'
  {
    if |s| >= 3 && s[0] == '/' && s[1] == 't' && s[2] == '_' then
      var w := WordRun(s[3..]);
      if w >= 1 && 3 + w < |s| && s[3 + w] == '/' then 4 + w else 0
    else 0
  }

  /**
   * ForceOriginalQuality: every leftmost, non-overlapping size token becomes
   * "/t_original/"; all other characters are copied in order. No scheme
   * prefix is added (tests/utils_test.cpp expects an "https:" prefix that the
   * code never produces).
   */
  function ForceOriginalQuality(url: string): (r: string)
    ensures r == [] <==> url == []
    ensures r != [] ==> r[0] == url[0]
    decreases |url|
  {
    if url == [] then []
    else
      var n := SizeTokenLength(url);
      if n > 0 then OriginalToken + ForceOriginalQuality(url[n..])
      else [url[0]] + ForceOriginalQuality(url[1..])
  }

  predicate HasSizeToken(url: string) {
    exists i :: 0 <= i < |url| && SizeTokenLength(url[i..]) > 0
  }

  /** A URL without any size token is returned unchanged. */
  lemma {:induction false} NoSizeTokenUnchanged(url: string)
    requires !HasSizeToken(url)
    ensures ForceOriginalQuality(url) == url
    decreases |url|
  {
    if url != [] {
      assert url[0..] == url;
      assert !HasSizeToken(url[1..]) by {
        forall i | 0 <= i < |url[1..]|
          ensures SizeTokenLength(url[1..][i..]) == 0
        {
          assert url[1..][i..] == url[i + 1..];
        }
      }
      NoSizeTokenUnchanged(url[1..]);
    }
  }

  /** A character other than '/' cannot start a size token and is copied. */
  lemma CopiesNonSlash(c: char, rest: string)
    requires c != '/'
    ensures ForceOriginalQuality([c] + rest) == [c] + ForceOriginalQuality(rest)
  {
    assert ([c] + rest)[1..] == rest;
  }

  /** A run of word characters is copied unchanged. */
  lemma {:induction false} CopiesWordRun(w: string, rest: string)
    requires AllWordChars(w)
    ensures ForceOriginalQuality(w + rest) == w + ForceOriginalQuality(rest)
    decreases |w|
  {
    if w == [] {
      assert w + rest == rest;
    } else {
      var tail := w[1..] + rest;
      calc {
        ForceOriginalQuality(w + rest);
        { assert w + rest == [w[0]] + tail; }
        ForceOriginalQuality([w[0]] + tail);
        { assert IsWordChar(w[0]); CopiesNonSlash(w[0], tail); }
        [w[0]] + ForceOriginalQuality(tail);
        { assert AllWordChars(w[1..]); CopiesWordRun(w[1..], rest); }
        [w[0]] + (w[1..] + ForceOriginalQuality(rest));
        { assert w == [w[0]] + w[1..]; }
        w + ForceOriginalQuality(rest);
      }
    }
  }

  /** The word run of w + rest is w, when rest does not continue it. */
  lemma {:induction false} WordRunOfPrefix(w: string, rest: string)
    requires AllWordChars(w)
    requires rest == [] || !IsWordChar(rest[0])
    ensures WordRun(w + rest) == |w|
    decreases |w|
  {
    if w != [] {
      assert (w + rest)[1..] == w[1..] + rest;
      assert AllWordChars(w[1..]);
      WordRunOfPrefix(w[1..], rest);
    } else {
      assert w + rest == rest;
    }
  }

  /** "/t_original/" is itself a size token, which the rewrite maps to itself. */
  lemma OriginalTokenFixed(rest: string)
    ensures ForceOriginalQuality(OriginalToken + rest) == OriginalToken + ForceOriginalQuality(rest)
  {
    var s := OriginalToken + rest;
    assert s[3..] == "original" + ("/" + rest);
    assert AllWordChars("original");
    WordRunOfPrefix("original", "/" + rest);
    assert SizeTokenLength(s) == 12;
    assert s[12..] == rest;
  }

  /** A rewritten text that starts with "t_" came from a text that starts with "t_". */
  lemma StartsWithTUnderscore(x: string)
    requires |ForceOriginalQuality(x)| >= 2
    requires ForceOriginalQuality(x)[0] == 't' && ForceOriginalQuality(x)[1] == '_'
    ensures |x| >= 2 && x[0] == 't' && x[1] == '_'
    ensures ForceOriginalQuality(x) == "t_" + ForceOriginalQuality(x[2..])
  {
    assert x == [x[0]] + x[1..];
    CopiesNonSlash(x[0], x[1..]);
    var y := x[1..];
    assert y != [];
    assert y[1..] == x[2..];
    assert y == [y[0]] + x[2..];
    CopiesNonSlash(y[0], x[2..]);
  }

  /** The rewrite keeps the leading word run of a text and the character that ends it. */
  lemma WordRunKept(r: string)
    ensures var w := WordRun(r);
            && WordRun(ForceOriginalQuality(r)) == w
            && (w < |r| ==> w < |ForceOriginalQuality(r)| && ForceOriginalQuality(r)[w] == r[w])
            && (w == |r| ==> |ForceOriginalQuality(r)| == w)
  {
    var w := WordRun(r);
    assert r == r[..w] + r[w..];
    assert AllWordChars(r[..w]);
    CopiesWordRun(r[..w], r[w..]);
    var tail := ForceOriginalQuality(r[w..]);
    WordRunOfPrefix(r[..w], tail);
  }

  /**
   * Where no size token starts at the first character, none starts there
   * after the rest of the URL has been rewritten either.
   */
  lemma NoTokenAfterRewrite(url: string)
    requires url != [] && SizeTokenLength(url) == 0
    ensures SizeTokenLength([url[0]] + ForceOriginalQuality(url[1..])) == 0
  {
    var t := [url[0]] + ForceOriginalQuality(url[1..]);
    if |t| >= 3 && t[0] == '/' && t[1] == 't' && t[2] == '_' {
      assert t[1..] == ForceOriginalQuality(url[1..]);
      StartsWithTUnderscore(url[1..]);
      assert url[1..][2..] == url[3..];
      var r := url[3..];
      assert t[3..] == ForceOriginalQuality(r);
      WordRunKept(r);
    }
  }

  /** Rewriting twice gives the same URL as rewriting once. */
  lemma {:induction false} ForceOriginalQualityIdempotent(url: string)
    ensures ForceOriginalQuality(ForceOriginalQuality(url)) == ForceOriginalQuality(url)
    decreases |url|
  {
    if url != [] {
      var n := SizeTokenLength(url);
      if n > 0 {
        ForceOriginalQualityIdempotent(url[n..]);
        OriginalTokenFixed(ForceOriginalQuality(url[n..]));
      } else {
        var rest := ForceOriginalQuality(url[1..]);
        ForceOriginalQualityIdempotent(url[1..]);
        NoTokenAfterRewrite(url);
        assert ([url[0]] + rest)[1..] == rest;
      }
    }
  }

  /** A prefix without 't' that does not end in '/' holds no size token and is copied. */
  lemma {:induction false} CopiesPrefixWithoutT(p: string, rest: string)
    requires 't' !in p && (p == [] || p[|p| - 1] != '/')
    ensures ForceOriginalQuality(p + rest) == p + ForceOriginalQuality(rest)
    decreases |p|
  {
    if p == [] {
      assert p + rest == rest;
    } else {
      TailWithoutT(p);
      CopiesPrefixWithoutT(p[1..], rest);
      NoTokenAtStart(p, rest);
      CopiesUnmatched(p + rest);
      SplitHead(p, rest);
      ConsAppend(p[0], p[1..], ForceOriginalQuality(rest));
    }
  }

  lemma TailWithoutT(p: string)
    requires p != [] && 't' !in p && p[|p| - 1] != '/'
    ensures 't' !in p[1..] && (p[1..] == [] || p[1..][|p[1..]| - 1] != '/')
  {
    assert forall c :: c in p[1..] ==> c in p;
  }

  lemma SplitHead(p: string, rest: string)
    requires p != []
    ensures (p + rest)[0] == p[0] && (p + rest)[1..] == p[1..] + rest
    ensures p == [p[0]] + p[1..]
  {
  }

  lemma ConsAppend(c: char, q: string, x: string)
    ensures [c] + (q + x) == ([c] + q) + x
  {
  }

  /** No size token starts a URL that starts with a non-empty text without 't' and not ending in '/'. */
  lemma NoTokenAtStart(p: string, rest: string)
    requires p != [] && 't' !in p && p[|p| - 1] != '/'
    ensures SizeTokenLength(p + rest) == 0
  {
    var s := p + rest;
    assert s[0] == p[0];
    if p[0] == '/' {
      assert |p| >= 2 && p[1] in p;
      assert s[1] == p[1];
    }
  }

  /** Where no size token starts, the first character is copied. */
  lemma CopiesUnmatched(s: string)
    requires s != [] && SizeTokenLength(s) == 0
    ensures ForceOriginalQuality(s) == [s[0]] + ForceOriginalQuality(s[1..])
  {
  }

  /** Any size token at the start of a URL becomes "/t_original/". */
  lemma SizeTokenReplaced(token: string, rest: string)
    requires |token| >= 1 && AllWordChars(token)
    ensures ForceOriginalQuality("/t_" + token + "/" + rest) == OriginalToken + ForceOriginalQuality(rest)
  {
    var seg := "/t_" + token + "/" + rest;
    assert seg[0] == '/' && seg[1] == 't' && seg[2] == '_';
    assert seg[3..] == token + ("/" + rest);
    WordRunOfPrefix(token, "/" + rest);
    assert seg[3 + |token|] == '/';
    assert SizeTokenLength(seg) == 4 + |token|;
    assert seg[4 + |token|..] == rest;
  }

  /**
   * A URL made of a host part without 't', one size token and a file name
   * without 't': only the token changes.
   */
  lemma {:induction false} RewritesOneToken(host: string, token: string, file: string)
    requires 't' !in host && (host == [] || host[|host| - 1] != '/')
    requires |token| >= 1 && AllWordChars(token)
    requires 't' !in file && (file == [] || file[|file| - 1] != '/')
    ensures ForceOriginalQuality(host + "/t_" + token + "/" + file) == host + OriginalToken + file
  {
    var seg := "/t_" + token + "/" + file;
    calc {
      ForceOriginalQuality(host + "/t_" + token + "/" + file);
      { assert host + "/t_" + token + "/" + file == host + seg; }
      ForceOriginalQuality(host + seg);
      { CopiesPrefixWithoutT(host, seg); }
      host + ForceOriginalQuality(seg);
      { SizeTokenReplaced(token, file); }
      host + (OriginalToken + ForceOriginalQuality(file));
      { CopiesPrefixWithoutT(file, []); assert file + [] == file; }
      host + (OriginalToken + file);
    }
  }

  /**
   * The remaining cases of the unit tests: the code returns these URLs
   * unchanged, where the tests expect an "https:" prefix.
   */
  lemma NoSchemePrefixAdded(url: string)
    requires url == "//example.com/image.jpg" || url == ""
    ensures ForceOriginalQuality(url) == url
  {
    CopiesPrefixWithoutT(url, []);
    assert url + [] == url;
  }
}
