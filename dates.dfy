/** The two date converters of the reader (src/utils.py).

    `complex_to_simple_date` reads the RSS 2.0 `pubDate` text, which is the
    date-time of section 5 of RFC 822 with the four-digit year of section
    5.2.14 of RFC 1123, through `strptime('%a, %d %b %Y %H:%M:%S %z')`, and
    writes the calendar date as `YYYYMMDD` (`strftime('%Y%m%d')`).
    `simple_to_readable_date` reads `YYYYMMDD` (`strptime('%Y%m%d')`) and
    writes `YYYY-MonthName-DD` (`strftime('%Y-%B-%d')`).

    Only the fixed-width spellings are modelled: two-digit day, hour, minute
    and second, a four-digit year and a numeric `+HHMM`/`-HHMM` offset, so
    every field sits at a fixed position of the text. Weekday and month
    names are matched ignoring ASCII case, as `strptime` does; the weekday
    is not compared with the date, and the offset does not move the date. */
module Dates {
  import opened Common

  // ----- digits at fixed positions -----

  predicate IsDigit(c: char)
  {
    '0' <= c <= '9'
  }

  predicate AllDigits(s: string)
  {
    forall i :: 0 <= i < |s| ==> IsDigit(s[i])
  }

  function DigitValue(c: char): int
  {
    c as int - '0' as int
  }

  function DigitChar(n: int): (c: char)
    requires 0 <= n < 10
    ensures IsDigit(c) && DigitValue(c) == n
  {
    ('0' as int + n) as char
  }

  /** `s[i]` and `s[i + 1]` are both digits. */
  predicate DigitPair(s: string, i: nat)
    requires i + 2 <= |s|
  {
    IsDigit(s[i]) && IsDigit(s[i + 1])
  }

  /** The number spelled by the two characters at `i`. */
  function TwoAt(s: string, i: nat): int
    requires i + 2 <= |s|
  {
    DigitValue(s[i]) * 10 + DigitValue(s[i + 1])
  }

  /** The number spelled by the four characters at `i`. */
  function FourAt(s: string, i: nat): int
    requires i + 4 <= |s|
  {
    TwoAt(s, i) * 100 + TwoAt(s, i + 2)
  }

  /** `%02d`: two digits, zero-padded. */
  function TwoDigits(n: int): (s: string)
    requires 0 <= n < 100
    ensures |s| == 2 && DigitPair(s, 0) && TwoAt(s, 0) == n
  {
    [DigitChar(n / 10), DigitChar(n % 10)]
  }

  /** `%04d`: four digits, zero-padded. */
  function FourDigits(n: int): (s: string)
    requires 0 <= n < 10000
    ensures |s| == 4 && DigitPair(s, 0) && DigitPair(s, 2) && FourAt(s, 0) == n
  {
    var s := TwoDigits(n / 100) + TwoDigits(n % 100);
    assert s[2] == TwoDigits(n % 100)[0] && s[3] == TwoDigits(n % 100)[1];
    s
  }

  /** Writing back the number two digits spell gives the same digits. */
  lemma TwoDigitsOfTwoAt(s: string, i: nat)
    requires i + 2 <= |s| && DigitPair(s, i)
    ensures 0 <= TwoAt(s, i) < 100
    ensures TwoDigits(TwoAt(s, i)) == s[i..i + 2]
  {
    assert s[i..i + 2] == [s[i], s[i + 1]];
  }

  /** Writing back the number four digits spell gives the same digits. */
  lemma FourDigitsOfFourAt(s: string, i: nat)
    requires i + 4 <= |s| && DigitPair(s, i) && DigitPair(s, i + 2)
    ensures 0 <= FourAt(s, i) < 10000
    ensures FourDigits(FourAt(s, i)) == s[i..i + 4]
  {
    var hi, lo := TwoAt(s, i), TwoAt(s, i + 2);
    TwoDigitsOfTwoAt(s, i);
    TwoDigitsOfTwoAt(s, i + 2);
    HundredsSplit(hi, lo);
    assert s[i..i + 4] == s[i..i + 2] + s[i + 2..i + 4];
  }

  /** A four-digit number splits into its two two-digit halves. */
  lemma HundredsSplit(hi: int, lo: int)
    requires 0 <= hi < 100 && 0 <= lo < 100
    ensures (hi * 100 + lo) / 100 == hi && (hi * 100 + lo) % 100 == lo
  {
  }

  // ----- calendar -----

  datatype Date = Date(year: int, month: int, day: int)

  predicate IsLeapYear(y: int)
  {
    y % 4 == 0 && (y % 100 != 0 || y % 400 == 0)
  }

  function DaysInMonth(year: int, month: int): int
    requires 1 <= month <= 12
  {
    if month == 2 then (if IsLeapYear(year) then 29 else 28)
    else if month == 4 || month == 6 || month == 9 || month == 11 then 30
    else 31
  }

  /** A date Python's `datetime` accepts: years 1 to 9999 and a day that
      exists in its month. */
  predicate ValidDate(d: Date)
  {
    && 1 <= d.year <= 9999
    && 1 <= d.month <= 12
    && 1 <= d.day <= DaysInMonth(d.year, d.month)
  }

  // ----- English names (the C locale) -----

  const WeekdayAbbreviations: seq<string> := ["Mon", "Tue", "Wed", "Thu", "Fri", "Sat", "Sun"]
  const MonthAbbreviations: seq<string> :=
    ["Jan", "Feb", "Mar", "Apr", "May", "Jun", "Jul", "Aug", "Sep", "Oct", "Nov", "Dec"]
  const MonthNames: seq<string> :=
    ["January", "February", "March", "April", "May", "June",
     "July", "August", "September", "October", "November", "December"]

  function Lower(c: char): char
  {
    if 'A' <= c <= 'Z' then (c as int + 32) as char else c
  }

  /** Two three-letter names that are equal ignoring ASCII case. */
  predicate SameName(a: string, b: string)
  {
    && |a| == 3 && |b| == 3
    && Lower(a[0]) == Lower(b[0]) && Lower(a[1]) == Lower(b[1]) && Lower(a[2]) == Lower(b[2])
  }

  /** The position of the first name that equals `key` ignoring ASCII case. */
  function FindName(names: seq<string>, key: string): (r: Option<nat>)
    ensures r.Some? ==> r.value < |names| && SameName(names[r.value], key)
    ensures r.Some? ==> forall j :: 0 <= j < r.value ==> !SameName(names[j], key)
    ensures r.None? ==> forall j :: 0 <= j < |names| ==> !SameName(names[j], key)
  {
    if names == [] then None
    else if SameName(names[0], key) then Some(0)
    else match FindName(names[1..], key)
      case None => None
      case Some(i) => Some(i + 1)
  }

  /** The three letters of `s` at `i`. */
  function NameAt(s: string, i: nat): (key: string)
    requires i + 3 <= |s|
    ensures |key| == 3 && key == s[i..i + 3]
  {
    [s[i], s[i + 1], s[i + 2]]
  }

  // ----- the feed date-time -----

  /** A `±HHMM` offset; `east` is true for `+`. */
  datatype Offset = Offset(east: bool, hours: int, minutes: int)

  /** What `strptime` reads from a feed date: `weekday` indexes
      WeekdayAbbreviations. */
  datatype Timestamp = Timestamp(weekday: int, date: Date, hour: int, minute: int, second: int, offset: Offset)

  /** The ranges `datetime` and `timezone` accept: seconds up to 59 and an
      offset below 24 hours. */
  predicate ValidTimestamp(t: Timestamp)
  {
    && 0 <= t.weekday < 7
    && ValidDate(t.date)
    && 0 <= t.hour < 24 && 0 <= t.minute < 60 && 0 <= t.second < 60
    && 0 <= t.offset.hours < 24 && 0 <= t.offset.minutes < 60
  }

  /** The character layout of `Www, DD Mmm YYYY hh:mm:ss +HHMM`. */
  predicate FeedDateShape(s: string)
  {
    && |s| == 31
    && s[3] == ',' && s[4] == ' ' && s[7] == ' ' && s[11] == ' ' && s[16] == ' '
    && s[19] == ':' && s[22] == ':' && s[25] == ' ' && (s[26] == '+' || s[26] == '-')
    && DigitPair(s, 5) && DigitPair(s, 12) && DigitPair(s, 14) && DigitPair(s, 17)
    && DigitPair(s, 20) && DigitPair(s, 23) && DigitPair(s, 27) && DigitPair(s, 29)
  }

  /** `datetime.strptime(s, '%a, %d %b %Y %H:%M:%S %z')`: every field is read
      from its own position, and the names from the tables. */
  function ParseFeedDate(s: string): (r: Result<Timestamp>)
    ensures r.Ok? ==> ValidTimestamp(r.value) && FeedDateShape(s)
    ensures r.Ok? ==> SameName(WeekdayAbbreviations[r.value.weekday], NameAt(s, 0))
    ensures r.Ok? ==> SameName(MonthAbbreviations[r.value.date.month - 1], NameAt(s, 8))
    ensures r.Ok? ==> r.value.date.year == FourAt(s, 12) && r.value.date.day == TwoAt(s, 5)
    ensures r.Ok? ==> r.value.hour == TwoAt(s, 17) && r.value.minute == TwoAt(s, 20) && r.value.second == TwoAt(s, 23)
    ensures r.Ok? ==> r.value.offset == Offset(s[26] == '+', TwoAt(s, 27), TwoAt(s, 29))
  {
    if !FeedDateShape(s) then Err(BadDate(s))
    else
      var weekday := FindName(WeekdayAbbreviations, NameAt(s, 0));
      var month := FindName(MonthAbbreviations, NameAt(s, 8));
      if weekday.None? || month.None? then Err(BadDate(s))
      else
        var t := Timestamp(
          weekday.value,
          Date(FourAt(s, 12), month.value + 1, TwoAt(s, 5)),
          TwoAt(s, 17), TwoAt(s, 20), TwoAt(s, 23),
          Offset(s[26] == '+', TwoAt(s, 27), TwoAt(s, 29)));
        if ValidTimestamp(t) then Ok(t) else Err(BadDate(s))
  }

  /** Every weekday and month abbreviation has three letters. */
  lemma AbbreviationLengths()
    ensures forall i :: 0 <= i < |WeekdayAbbreviations| ==> |WeekdayAbbreviations[i]| == 3
    ensures forall i :: 0 <= i < |MonthAbbreviations| ==> |MonthAbbreviations[i]| == 3
  {
  }

  /** `Www, DD Mmm `: the first twelve characters of a feed date. */
  function DayPart(w: string, day: int, m: string): (p: string)
    requires |w| == 3 && 0 <= day < 100 && |m| == 3
    ensures DayShape(p) && NameAt(p, 0) == w && TwoAt(p, 5) == day && NameAt(p, 8) == m
  {
    var dd := TwoDigits(day);
    var p := [w[0], w[1], w[2], ',', ' ', dd[0], dd[1], ' ', m[0], m[1], m[2], ' '];
    assert NameAt(p, 0) == w;
    assert NameAt(p, 8) == m;
    p
  }

  /** `YYYY hh:mm:ss `: the next fourteen characters. */
  function TimePart(year: int, hour: int, minute: int, second: int): (p: string)
    requires 0 <= year < 10000 && 0 <= hour < 100 && 0 <= minute < 100 && 0 <= second < 100
    ensures TimeShape(p) && FourAt(p, 0) == year && TwoAt(p, 5) == hour && TwoAt(p, 8) == minute && TwoAt(p, 11) == second
  {
    var yyyy, hh, mm, ss := FourDigits(year), TwoDigits(hour), TwoDigits(minute), TwoDigits(second);
    [yyyy[0], yyyy[1], yyyy[2], yyyy[3], ' ', hh[0], hh[1], ':', mm[0], mm[1], ':', ss[0], ss[1], ' ']
  }

  /** `+HHMM` or `-HHMM`: the last five characters. */
  function OffsetPart(o: Offset): (p: string)
    requires 0 <= o.hours < 100 && 0 <= o.minutes < 100
    ensures OffsetShape(p) && p[0] == (if o.east then '+' else '-') && TwoAt(p, 1) == o.hours && TwoAt(p, 3) == o.minutes
  {
    var hh, mm := TwoDigits(o.hours), TwoDigits(o.minutes);
    [if o.east then '+' else '-', hh[0], hh[1], mm[0], mm[1]]
  }

  predicate DayShape(p: string)
  {
    |p| == 12 && p[3] == ',' && p[4] == ' ' && p[7] == ' ' && p[11] == ' ' && DigitPair(p, 5)
  }

  predicate TimeShape(p: string)
  {
    && |p| == 14 && p[4] == ' ' && p[7] == ':' && p[10] == ':' && p[13] == ' '
    && DigitPair(p, 0) && DigitPair(p, 2) && DigitPair(p, 5) && DigitPair(p, 8) && DigitPair(p, 11)
  }

  predicate OffsetShape(p: string)
  {
    |p| == 5 && (p[0] == '+' || p[0] == '-') && DigitPair(p, 1) && DigitPair(p, 3)
  }

  /** A feed date is its day part, its time part and its offset, and each
      field of the whole is the field of its piece. */
  lemma Pieces(s: string, day: string, time: string, offset: string)
    requires |day| == 12 && |time| == 14 && |offset| == 5 && s == day + time + offset
    ensures FeedDateShape(s) <==> DayShape(day) && TimeShape(time) && OffsetShape(offset)
    ensures NameAt(s, 0) == NameAt(day, 0) && NameAt(s, 8) == NameAt(day, 8) && TwoAt(s, 5) == TwoAt(day, 5)
    ensures FourAt(s, 12) == FourAt(time, 0) && TwoAt(s, 17) == TwoAt(time, 5)
    ensures TwoAt(s, 20) == TwoAt(time, 8) && TwoAt(s, 23) == TwoAt(time, 11)
    ensures s[26] == offset[0] && TwoAt(s, 27) == TwoAt(offset, 1) && TwoAt(s, 29) == TwoAt(offset, 3)
  {
    assert forall i :: 0 <= i < 12 ==> s[i] == day[i];
    assert forall i :: 0 <= i < 14 ==> s[12 + i] == time[i];
    assert forall i :: 0 <= i < 5 ==> s[26 + i] == offset[i];
  }

  /** The feed spelling of a timestamp (`strftime` with the same format),
      the inverse of ParseFeedDate. */
  function FormatFeedDate(t: Timestamp): (s: string)
    requires ValidTimestamp(t)
    ensures FeedDateShape(s)
    ensures NameAt(s, 0) == WeekdayAbbreviations[t.weekday] && NameAt(s, 8) == MonthAbbreviations[t.date.month - 1]
    ensures FourAt(s, 12) == t.date.year && TwoAt(s, 5) == t.date.day
    ensures TwoAt(s, 17) == t.hour && TwoAt(s, 20) == t.minute && TwoAt(s, 23) == t.second
    ensures s[26] == (if t.offset.east then '+' else '-')
    ensures TwoAt(s, 27) == t.offset.hours && TwoAt(s, 29) == t.offset.minutes
  {
    AbbreviationLengths();
    var p1 := DayPart(WeekdayAbbreviations[t.weekday], t.date.day, MonthAbbreviations[t.date.month - 1]);
    var p2 := TimePart(t.date.year, t.hour, t.minute, t.second);
    var p3 := OffsetPart(t.offset);
    var s := p1 + p2 + p3;
    Pieces(s, p1, p2, p3);
    s
  }

  // ----- the compact date -----

  /** `strftime('%Y%m%d')`. */
  function CompactDate(d: Date): (s: string)
    requires ValidDate(d)
    ensures |s| == 8 && AllDigits(s)
    ensures FourAt(s, 0) == d.year && TwoAt(s, 4) == d.month && TwoAt(s, 6) == d.day
  {
    var yyyy := FourDigits(d.year);
    var mm := TwoDigits(d.month);
    var dd := TwoDigits(d.day);
    [yyyy[0], yyyy[1], yyyy[2], yyyy[3], mm[0], mm[1], dd[0], dd[1]]
  }

  /** `complex_to_simple_date` (src/utils.py:4-6): the year and day digits
      are copied from the feed text, and the month is the number of the
      month name found there. */
  function ComplexToSimpleDate(s: string): (r: Result<string>)
    ensures r.Err? <==> ParseFeedDate(s).Err?
    ensures r.Ok? ==> |r.value| == 8 && AllDigits(r.value)
    ensures r.Ok? ==> r.value[..4] == s[12..16] && r.value[6..] == s[5..7]
    ensures r.Ok? ==> 1 <= TwoAt(r.value, 4) <= 12
    ensures r.Ok? ==> SameName(MonthAbbreviations[TwoAt(r.value, 4) - 1], NameAt(s, 8))
  {
    match ParseFeedDate(s)
    case Err(e) => Err(e)
    case Ok(t) =>
      var c := CompactDate(t.date);
      FourDigitsOfFourAt(c, 0);
      FourDigitsOfFourAt(s, 12);
      TwoDigitsOfTwoAt(c, 6);
      TwoDigitsOfTwoAt(s, 5);
      assert c[..4] == c[0..4] && c[6..] == c[6..8];
      Ok(c)
  }

  /** `datetime.strptime(s, '%Y%m%d')` on the fixed-width spelling: the
      model accepts the eight-digit compact forms of valid dates, and gives
      back the date written. */
  function ParseCompactDate(s: string): (r: Result<Date>)
    ensures r.Ok? ==> ValidDate(r.value) && CompactDate(r.value) == s
    ensures r.Err? ==> forall d :: ValidDate(d) ==> CompactDate(d) != s
  {
    if |s| != 8 || !AllDigits(s) then Err(BadDate(s))
    else
      var d := Date(FourAt(s, 0), TwoAt(s, 4), TwoAt(s, 6));
      if ValidDate(d) then
        CompactDateOfDigits(s, d);
        Ok(d)
      else Err(BadDate(s))
  }

  /** An eight-digit text is the compact form of the date its fields spell. */
  lemma CompactDateOfDigits(s: string, d: Date)
    requires |s| == 8 && AllDigits(s) && ValidDate(d)
    requires d == Date(FourAt(s, 0), TwoAt(s, 4), TwoAt(s, 6))
    ensures CompactDate(d) == s
  {
    var c := CompactDate(d);
    FourDigitsOfFourAt(s, 0);
    FourDigitsOfFourAt(c, 0);
    TwoDigitsOfTwoAt(s, 4);
    TwoDigitsOfTwoAt(c, 4);
    TwoDigitsOfTwoAt(s, 6);
    TwoDigitsOfTwoAt(c, 6);
    assert c[0..4] == s[0..4] && c[4..6] == s[4..6] && c[6..8] == s[6..8];
    assert c == c[0..4] + c[4..6] + c[6..8];
    assert s == s[0..4] + s[4..6] + s[6..8];
  }

  /** `strftime('%Y-%B-%d')`. */
  function ReadableDate(d: Date): (s: string)
    requires ValidDate(d)
    ensures |s| >= 11
  {
    FourDigits(d.year) + "-" + MonthNames[d.month - 1] + "-" + TwoDigits(d.day)
  }

  /** The readable form reads back: the year's four digits, the English
      month name and the day's two digits, separated by dashes. */
  lemma ReadableDateParts(d: Date)
    requires ValidDate(d)
    ensures var s := ReadableDate(d);
      && s[4] == '-' && s[|s| - 3] == '-'
      && DigitPair(s, 0) && DigitPair(s, 2) && FourAt(s, 0) == d.year
      && s[5..|s| - 3] == MonthNames[d.month - 1]
      && DigitPair(s, |s| - 2) && TwoAt(s, |s| - 2) == d.day
  {
    var s := ReadableDate(d);
    var y, m, dd := FourDigits(d.year), MonthNames[d.month - 1], TwoDigits(d.day);
    assert s == y + "-" + m + "-" + dd;
    assert s[..4] == y && s[5..|s| - 3] == m && s[|s| - 2..] == dd;
  }

  /** `simple_to_readable_date` (src/utils.py:9-11): the year and day digits
      are copied, and the month number becomes its English name. */
  function SimpleToReadableDate(s: string): (r: Result<string>)
    ensures r.Err? <==> ParseCompactDate(s).Err?
    ensures r.Ok? ==> 1 <= TwoAt(s, 4) <= 12
    ensures r.Ok? ==> r.value == s[..4] + "-" + MonthNames[TwoAt(s, 4) - 1] + "-" + s[6..]
  {
    match ParseCompactDate(s)
    case Err(e) => Err(e)
    case Ok(d) =>
      FourDigitsOfFourAt(s, 0);
      TwoDigitsOfTwoAt(s, 6);
      assert s[..4] == s[0..4] && s[6..] == s[6..8];
      Ok(ReadableDate(d))
  }

  // ----- properties -----

  /** No two weekday or month abbreviations are the same ignoring case. */
  lemma AbbreviationsDistinct()
    ensures forall i, j :: 0 <= j < i < |WeekdayAbbreviations| ==>
      !SameName(WeekdayAbbreviations[j], WeekdayAbbreviations[i])
    ensures forall i, j :: 0 <= j < i < |MonthAbbreviations| ==>
      !SameName(MonthAbbreviations[j], MonthAbbreviations[i])
  {
  }

  /** A key that matches a table entry finds that entry when no earlier
      entry spells the same name. */
  lemma FindMatchingName(names: seq<string>, key: string, i: nat)
    requires i < |names| && SameName(names[i], key)
    requires forall j :: 0 <= j < i ==> !SameName(names[j], names[i])
    ensures FindName(names, key) == Some(i)
  {
  }

  /** Every table name, in any letter case, is found at its own position. */
  lemma TableNamesFound(key: string, w: nat, m: nat)
    requires w < |WeekdayAbbreviations| && m < |MonthAbbreviations|
    ensures SameName(WeekdayAbbreviations[w], key) ==> FindName(WeekdayAbbreviations, key) == Some(w)
    ensures SameName(MonthAbbreviations[m], key) ==> FindName(MonthAbbreviations, key) == Some(m)
  {
    AbbreviationsDistinct();
    if SameName(WeekdayAbbreviations[w], key) {
      FindMatchingName(WeekdayAbbreviations, key, w);
    }
    if SameName(MonthAbbreviations[m], key) {
      FindMatchingName(MonthAbbreviations, key, m);
    }
  }

  /** Parsing the feed spelling of any valid timestamp gives it back: every
      weekday is accepted with every date, and the offset is kept apart
      from the calendar fields. */
  lemma FeedDateRoundTrip(t: Timestamp)
    requires ValidTimestamp(t)
    ensures ParseFeedDate(FormatFeedDate(t)) == Ok(t)
  {
    AbbreviationLengths();
    ParseFeedDateOf(FormatFeedDate(t), t);
  }

  /** Reading back a written compact date gives the date. */
  lemma CompactDateRoundTrip(d: Date)
    requires ValidDate(d)
    ensures ParseCompactDate(CompactDate(d)) == Ok(d)
  {
  }

  /** The feed date's calendar fields, and only they, decide both converted
      forms: the offset never moves the date. */
  lemma FeedDateConversions(t: Timestamp)
    requires ValidTimestamp(t)
    ensures ComplexToSimpleDate(FormatFeedDate(t)) == Ok(CompactDate(t.date))
    ensures SimpleToReadableDate(CompactDate(t.date)) == Ok(ReadableDate(t.date))
  {
    FeedDateRoundTrip(t);
    CompactDateRoundTrip(t.date);
  }

  /** Whatever `complex_to_simple_date` accepts, `simple_to_readable_date`
      accepts its output, and the two together give `YYYY-MonthName-DD` of
      the date written in the feed text. */
  lemma ComplexThenReadable(s: string)
    requires ComplexToSimpleDate(s).Ok?
    ensures SimpleToReadableDate(ComplexToSimpleDate(s).value) == Ok(ReadableDate(ParseFeedDate(s).value.date))
  {
    CompactDateRoundTrip(ParseFeedDate(s).value.date);
  }

  // ----- examples -----

  /** A feed text whose fields spell a valid timestamp parses to it. */
  lemma ParseFeedDateOf(s: string, t: Timestamp)
    requires FeedDateShape(s) && ValidTimestamp(t)
    requires SameName(WeekdayAbbreviations[t.weekday], NameAt(s, 0))
    requires SameName(MonthAbbreviations[t.date.month - 1], NameAt(s, 8))
    requires FourAt(s, 12) == t.date.year && TwoAt(s, 5) == t.date.day
    requires TwoAt(s, 17) == t.hour && TwoAt(s, 20) == t.minute && TwoAt(s, 23) == t.second
    requires t.offset == Offset(s[26] == '+', TwoAt(s, 27), TwoAt(s, 29))
    ensures ParseFeedDate(s) == Ok(t)
  {
    TableNamesFound(NameAt(s, 0), t.weekday, 0);
    TableNamesFound(NameAt(s, 8), 0, t.date.month - 1);
    var weekday := FindName(WeekdayAbbreviations, NameAt(s, 0));
    var month := FindName(MonthAbbreviations, NameAt(s, 8));
    assert weekday == Some(t.weekday) && month == Some(t.date.month - 1);
    assert Date(FourAt(s, 12), month.value + 1, TwoAt(s, 5)) == t.date;
  }

  /** A feed text assembled from pieces whose fields spell a valid
      timestamp parses to that timestamp. */
  lemma ParsePieces(day: string, time: string, offset: string, t: Timestamp)
    requires DayShape(day) && TimeShape(time) && OffsetShape(offset) && ValidTimestamp(t)
    requires SameName(WeekdayAbbreviations[t.weekday], NameAt(day, 0))
    requires SameName(MonthAbbreviations[t.date.month - 1], NameAt(day, 8))
    requires TwoAt(day, 5) == t.date.day && FourAt(time, 0) == t.date.year
    requires TwoAt(time, 5) == t.hour && TwoAt(time, 8) == t.minute && TwoAt(time, 11) == t.second
    requires t.offset == Offset(offset[0] == '+', TwoAt(offset, 1), TwoAt(offset, 3))
    ensures ParseFeedDate(day + time + offset) == Ok(t)
  {
    Pieces(day + time + offset, day, time, offset);
    ParseFeedDateOf(day + time + offset, t);
  }

  /** `complex_to_simple_date("Mon, 29 Jun 2020 22:10:00 +0300") == "20200629"`,
      with the text given as its day, time and offset pieces. */
  lemma ComplexToSimpleExample(day: string, time: string, offset: string)
    requires day == "Mon, 29 Jun " && time == "2020 22:10:00 " && offset == "+0300"
    ensures ComplexToSimpleDate(day + time + offset) == Ok("20200629")
  {
    var d := Date(2020, 6, 29);
    ParsePieces(day, time, offset, Timestamp(0, d, 22, 10, 0, Offset(true, 3, 0)));
    assert CompactDate(d) == "20200629";
  }

  /** `Wed, 02 Oct 2002 15:00:00 +0200` is 13:00 on 2 October in UTC, and
      the reader keeps 2 October as written. */
  lemma OffsetDoesNotShiftExample(day: string, time: string, offset: string)
    requires day == "Wed, 02 Oct " && time == "2002 15:00:00 " && offset == "+0200"
    ensures ComplexToSimpleDate(day + time + offset) == Ok("20021002")
  {
    var d := Date(2002, 10, 2);
    ParsePieces(day, time, offset, Timestamp(2, d, 15, 0, 0, Offset(true, 2, 0)));
    assert CompactDate(d) == "20021002";
  }

  /** The readable form of the date of that feed text. */
  lemma ReadableOffsetExample(s: string)
    requires s == "20021002"
    ensures SimpleToReadableDate(s) == Ok("2002-October-02")
  {
    var d := Date(2002, 10, 2);
    assert ReadableDate(d) == "2002-October-02" by {
      assert MonthNames[9] == "October";
    }
    assert AllDigits(s) && FourAt(s, 0) == 2002 && TwoAt(s, 4) == 10 && TwoAt(s, 6) == 2 by {
      assert AllDigits(s);
    }
    CompactReadable(s, d);
  }

  /** Eight digits spelling a valid date read as that date. */
  lemma CompactReadable(s: string, d: Date)
    requires |s| == 8 && AllDigits(s) && ValidDate(d)
    requires FourAt(s, 0) == d.year && TwoAt(s, 4) == d.month && TwoAt(s, 6) == d.day
    ensures SimpleToReadableDate(s) == Ok(ReadableDate(d))
  {
  }

  /** `simple_to_readable_date("20200629") == "2020-June-29"`. */
  lemma SimpleToReadableExample(s: string)
    requires s == "20200629"
    ensures SimpleToReadableDate(s) == Ok("2020-June-29")
  {
    var d := Date(2020, 6, 29);
    assert ReadableDate(d) == "2020-June-29" by {
      assert MonthNames[5] == "June";
    }
    assert AllDigits(s) && FourAt(s, 0) == 2020 && TwoAt(s, 4) == 6 && TwoAt(s, 6) == 29 by {
      assert AllDigits(s);
    }
    CompactReadable(s, d);
  }

  /** `simple_to_readable_date("20210101") == "2021-January-01"`. */
  lemma NewYearExample(s: string)
    requires s == "20210101"
    ensures SimpleToReadableDate(s) == Ok("2021-January-01")
  {
    var d := Date(2021, 1, 1);
    assert ReadableDate(d) == "2021-January-01" by {
      assert MonthNames[0] == "January";
    }
    assert AllDigits(s) && FourAt(s, 0) == 2021 && TwoAt(s, 4) == 1 && TwoAt(s, 6) == 1 by {
      assert AllDigits(s);
    }
    CompactReadable(s, d);
  }

  /** Month 13 is refused. */
  lemma MonthThirteenExample(s: string)
    requires s == "20201301"
    ensures SimpleToReadableDate(s).Err?
  {
    assert TwoAt(s, 4) == 13;
  }

  /** 31 April is refused. */
  lemma AprilThirtyFirstExample(s: string)
    requires s == "20200431"
    ensures SimpleToReadableDate(s).Err?
  {
    assert TwoAt(s, 4) == 4 && TwoAt(s, 6) == 31;
  }

  /** 29 February does not exist in 2021. */
  lemma CommonYearExample(s: string)
    requires s == "20210229"
    ensures SimpleToReadableDate(s).Err?
  {
    assert FourAt(s, 0) == 2021 && TwoAt(s, 4) == 2 && TwoAt(s, 6) == 29;
  }

  /** 29 February 2020 exists. */
  lemma LeapDayExample(s: string)
    requires s == "20200229"
    ensures SimpleToReadableDate(s) == Ok("2020-February-29")
  {
    var d := Date(2020, 2, 29);
    assert ValidDate(d) by {
      assert IsLeapYear(2020);
    }
    assert ReadableDate(d) == "2020-February-29" by {
      assert MonthNames[1] == "February";
    }
    assert AllDigits(s) && FourAt(s, 0) == 2020 && TwoAt(s, 4) == 2 && TwoAt(s, 6) == 29 by {
      assert AllDigits(s);
    }
    CompactReadable(s, d);
  }
}
