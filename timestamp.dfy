/**
 * formatTimestamp (include/Serialization.h): epoch milliseconds rendered as an
 * RFC 3339 `date-time` in UTC, `YYYY-MM-DDTHH:MM:SS.mmmZ`.
 *
 * The calendar step the source delegates to gmtime is written out with integer
 * day arithmetic and proved against the definition of "Seconds Since the Epoch"
 * in section 4.16 of the POSIX.1-2017 Base Definitions (no leap seconds).
 * Only non-negative timestamps are modelled.
 */
module Timestamp {
  import opened Wrappers

  const SecondsPerDay := 86400

  predicate IsLeapYear(y: int) {
    y % 4 == 0 && (y % 100 != 0 || y % 400 == 0)
  }

  function DaysInYear(y: int): int {
    if IsLeapYear(y) then 366 else 365
  }

  function DaysInMonth(y: int, m: int): int
    requires 1 <= m <= 12
  {
    if m == 2 then (if IsLeapYear(y) then 29 else 28)
    else if m == 4 || m == 6 || m == 9 || m == 11 then 30
    else 31
  }

  /** Days in the months before month m (1-based) of year y; m == 13 gives the whole year. */
  function DaysBeforeMonth(y: int, m: int): (d: int)
    requires 1 <= m <= 13
    ensures m == 13 ==> d == DaysInYear(y)
  {
    var cumulative := [0, 31, 59, 90, 120, 151, 181, 212, 243, 273, 304, 334, 365];
    cumulative[m - 1] + (if m > 2 && IsLeapYear(y) then 1 else 0)
  }

  /** The cumulative table agrees with the month lengths. */
  lemma DaysBeforeMonthStep(y: int, m: int)
    requires 1 <= m <= 12
    ensures DaysBeforeMonth(y, m + 1) == DaysBeforeMonth(y, m) + DaysInMonth(y, m)
  {
  }

  /** Days from 1970-01-01 to January 1st of year y, in the closed form of
      POSIX section 4.16 (tm_year = y - 1900). */
  function DaysBeforeYear(y: int): int {
    365 * (y - 1970) + (y - 1969) / 4 - (y - 1901) / 100 + (y - 1601) / 400
  }

  // One more year adds one to floor((y - 1969) / 4) exactly when y is a multiple
  // of 4, and likewise for the century and 400-year terms.

  lemma QuadStep(y: int)
    ensures (y - 1968) / 4 == (y - 1969) / 4 + (if y % 4 == 0 then 1 else 0)
  {
  }

  lemma CenturyStep(y: int)
    ensures (y - 1900) / 100 == (y - 1901) / 100 + (if y % 100 == 0 then 1 else 0)
  {
  }

  lemma QuadCenturyStep(y: int)
    ensures (y - 1600) / 400 == (y - 1601) / 400 + (if y % 400 == 0 then 1 else 0)
  {
  }

  /** The closed form counts one year's days per year: its partner is DaysInYear. */
  lemma DaysBeforeYearStep(y: int)
    ensures DaysBeforeYear(y + 1) == DaysBeforeYear(y) + DaysInYear(y)
  {
    QuadStep(y);
    CenturyStep(y);
    QuadCenturyStep(y);
    Divisibility(y);
    var leap := (if y % 4 == 0 then 1 else 0) - (if y % 100 == 0 then 1 else 0) + (if y % 400 == 0 then 1 else 0);
    assert DaysBeforeYear(y + 1) == DaysBeforeYear(y) + 365 + leap;
    assert DaysInYear(y) == 365 + leap;
  }

  lemma Divisibility(y: int)
    ensures y % 400 == 0 ==> y % 100 == 0
    ensures y % 100 == 0 ==> y % 4 == 0
  {
    if y % 400 == 0 {
      MultipleMod(y / 400 * 4, 100);
    }
    if y % 100 == 0 {
      MultipleMod(y / 100 * 25, 4);
    }
  }

  lemma MultipleMod(k: int, m: int)
    requires m == 4 || m == 100
    ensures (k * m) % m == 0
  {
  }

  /** Splits a count of days counted from January 1st of year y into a year and a
      day of that year, walking forward year by year. */
  function YearOf(days: nat, y: int): (r: (int, nat))
    ensures r.0 >= y && r.1 < DaysInYear(r.0)
    ensures DaysBeforeYear(r.0) + r.1 == DaysBeforeYear(y) + days
    decreases days
  {
    if days < DaysInYear(y) then (y, days)
    else
      DaysBeforeYearStep(y);
      YearOf(days - DaysInYear(y), y + 1)
  }

  /** Splits a day of year y, counted from the first day of month m, into a month
      (1-based) and a day of that month (1-based). */
  function MonthOf(y: int, d: nat, m: int): (r: (int, int))
    requires 1 <= m <= 12
    requires d < DaysInYear(y) - DaysBeforeMonth(y, m)
    ensures m <= r.0 <= 12 && 1 <= r.1 <= DaysInMonth(y, r.0)
    ensures DaysBeforeMonth(y, r.0) + r.1 - 1 == DaysBeforeMonth(y, m) + d
    decreases 12 - m
  {
    DaysBeforeMonthStep(y, m);
    if d < DaysInMonth(y, m) then (m, d + 1)
    else MonthOf(y, d - DaysInMonth(y, m), m + 1)
  }

  /** The fields of a C `struct tm` that gmtime fills and the format reads,
      with the C conventions: mon 0..11, year counted from 1900, yday 0..365. */
  datatype Tm = Tm(sec: int, min: int, hour: int, mday: int, mon: int, year: int, yday: int)

  /** Every field lies in its range, and yday agrees with mon and mday. */
  predicate ValidTm(tm: Tm) {
    && tm.year >= 70
    && 0 <= tm.sec < 60 && 0 <= tm.min < 60 && 0 <= tm.hour < 24
    && 0 <= tm.mon < 12
    && 1 <= tm.mday <= DaysInMonth(tm.year + 1900, tm.mon + 1)
    && tm.yday == DaysBeforeMonth(tm.year + 1900, tm.mon + 1) + tm.mday - 1
  }

  /** Seconds since the epoch of a broken-down UTC time, as POSIX section 4.16
      defines it (the divisions there are on non-negative operands). */
  function PosixSeconds(tm: Tm): int {
    tm.sec + tm.min * 60 + tm.hour * 3600 + tm.yday * 86400
    + (tm.year - 70) * 31536000 + ((tm.year - 69) / 4) * 86400
    - ((tm.year - 1) / 100) * 86400 + ((tm.year + 299) / 400) * 86400
  }

  lemma PosixSecondsByDays(tm: Tm)
    ensures PosixSeconds(tm) == tm.sec + tm.min * 60 + tm.hour * 3600
                                + (tm.yday + DaysBeforeYear(tm.year + 1900)) * 86400
  {
  }

  /** gmtime: the broken-down UTC time of a non-negative count of seconds; every
      field is in range, the date counts the whole days and the clock the rest. */
  function Gmtime(seconds: nat): (tm: Tm)
    ensures ValidTm(tm)
    ensures tm.yday + DaysBeforeYear(tm.year + 1900) == seconds / SecondsPerDay
    ensures tm.hour * 3600 + tm.min * 60 + tm.sec == seconds % SecondsPerDay
  {
    var days, rem := seconds / SecondsPerDay, seconds % SecondsPerDay;
    var ys := YearOf(days, 1970);
    var md := MonthOf(ys.0, ys.1, 1);
    SplitDay(rem);
    Tm(rem % 3600 % 60, rem % 3600 / 60, rem / 3600, md.1, md.0 - 1, ys.0 - 1900, ys.1)
  }

  /** gmtime inverts the POSIX definition of seconds since the epoch. */
  lemma GmtimeInverse(seconds: nat)
    ensures PosixSeconds(Gmtime(seconds)) == seconds
  {
    SecondsOfParts(Gmtime(seconds), seconds);
  }

  /** A broken-down time whose date counts the whole days of `seconds` and whose
      clock counts the rest names `seconds`. */
  lemma SecondsOfParts(tm: Tm, seconds: nat)
    requires tm.yday + DaysBeforeYear(tm.year + 1900) == seconds / SecondsPerDay
    requires tm.hour * 3600 + tm.min * 60 + tm.sec == seconds % SecondsPerDay
    ensures PosixSeconds(tm) == seconds
  {
    PosixSecondsByDays(tm);
    SplitSeconds(seconds);
  }

  /** Hours, minutes and seconds of a second of the day, as gmtime computes them. */
  lemma SplitDay(rem: nat)
    requires rem < 86400
    ensures rem / 3600 < 24 && rem % 3600 / 60 < 60 && rem % 3600 % 60 < 60
    ensures rem == rem / 3600 * 3600 + rem % 3600 / 60 * 60 + rem % 3600 % 60
  {
    var r := rem % 3600;
    assert rem == rem / 3600 * 3600 + r;
    assert r == r / 60 * 60 + r % 60;
  }

  lemma SplitSeconds(seconds: nat)
    ensures seconds == seconds / 86400 * 86400 + seconds % 86400
  {
  }

  // ---- decimal digits -------------------------------------------------------

  predicate IsDigit(c: char) {
    '0' <= c <= '9'
  }

  function Digit(n: nat): (c: char)
    requires n < 10
    ensures IsDigit(c)
  {
    ('0' as int + n) as char
  }

  function DigitValue(c: char): nat
    requires IsDigit(c)
  {
    c as int - '0' as int
  }

  /** The shortest decimal rendering of n, as `%Y` prints a year. */
  function Decimal(n: nat): (s: string)
    ensures 1 <= |s|
    decreases n
  {
    if n < 10 then [Digit(n)] else Decimal(n / 10) + [Digit(n % 10)]
  }

  /** The value of a string of decimal digits; None when some character is not a digit. */
  function ParseDecimal(s: string): Option<nat>
    decreases |s|
  {
    if s == [] then Some(0)
    else if !IsDigit(s[|s| - 1]) then None
    else match ParseDecimal(s[..|s| - 1])
      case None => None
      case Some(v) => Some(v * 10 + DigitValue(s[|s| - 1]))
  }

  lemma {:induction false} DecimalRoundTrip(n: nat)
    ensures ParseDecimal(Decimal(n)) == Some(n)
    decreases n
  {
    var s := Decimal(n);
    if n < 10 {
      assert s[..|s| - 1] == [];
    } else {
      DecimalRoundTrip(n / 10);
      assert s[..|s| - 1] == Decimal(n / 10);
    }
  }

  /** A value below 100 zero-padded to width 2 (`%m`, `%d`, `%H`, `%M`, `%S`). */
  function Pad2(n: nat): (s: string)
    requires n < 100
  {
    [Digit(n / 10), Digit(n % 10)]
  }

  /** A value below 1000 zero-padded to width 3 (`setfill('0') << setw(3)`). */
  function Pad3(n: nat): (s: string)
    requires n < 1000
  {
    [Digit(n / 100), Digit(n / 10 % 10), Digit(n % 10)]
  }

  function Value2(a: char, b: char): nat
    requires IsDigit(a) && IsDigit(b)
  {
    DigitValue(a) * 10 + DigitValue(b)
  }

  function Value3(a: char, b: char, c: char): nat
    requires IsDigit(a) && IsDigit(b) && IsDigit(c)
  {
    DigitValue(a) * 100 + DigitValue(b) * 10 + DigitValue(c)
  }

  // ---- the format -----------------------------------------------------------

  /** `%Y-%m-%dT%H:%M:%S` of a broken-down time. */
  function DateTimeText(tm: Tm): string
    requires ValidTm(tm)
  {
    Decimal(tm.year + 1900)
    + "-" + Pad2(tm.mon + 1) + "-" + Pad2(tm.mday)
    + "T" + Pad2(tm.hour) + ":" + Pad2(tm.min) + ":" + Pad2(tm.sec)
  }

  /** formatTimestamp for a non-negative timestamp in milliseconds: the UTC
      calendar time of its seconds, then the milliseconds to three digits. */
  function FormatTimestamp(timestampMs: nat): (r: string)
    ensures |r| >= 24
    ensures r[|r| - 5] == '.' && r[|r| - 1] == 'Z'
    ensures IsDigit(r[|r| - 4]) && IsDigit(r[|r| - 3]) && IsDigit(r[|r| - 2])
    ensures Value3(r[|r| - 4], r[|r| - 3], r[|r| - 2]) == timestampMs % 1000
  {
    FormatTm(Gmtime(timestampMs / 1000), timestampMs % 1000)
  }

  /** A broken-down time and a millisecond count as `%Y-%m-%dT%H:%M:%S.mmmZ`. */
  function FormatTm(tm: Tm, ms: nat): (r: string)
    requires ValidTm(tm) && ms < 1000
    ensures |r| >= 24
    ensures r[|r| - 5] == '.' && r[|r| - 1] == 'Z'
    ensures IsDigit(r[|r| - 4]) && IsDigit(r[|r| - 3]) && IsDigit(r[|r| - 2])
    ensures Value3(r[|r| - 4], r[|r| - 3], r[|r| - 2]) == ms
  {
    DecimalLength(tm.year + 1900);
    Pad3Value(ms);
    DateTimeText(tm) + "." + Pad3(ms) + "Z"
  }

  lemma DecimalLength(n: nat)
    requires n >= 1000
    ensures |Decimal(n)| >= 4
  {
    assert |Decimal(n / 1000)| >= 1;
    assert Decimal(n / 100) == Decimal(n / 100 / 10) + [Digit(n / 100 % 10)];
  }

  lemma Pad3Value(n: nat)
    requires n < 1000
    ensures IsDigit(Pad3(n)[0]) && IsDigit(Pad3(n)[1]) && IsDigit(Pad3(n)[2]) && Value3(Pad3(n)[0], Pad3(n)[1], Pad3(n)[2]) == n
  {
    var a, b, c := n / 100, n / 10 % 10, n % 10;
    assert n / 10 == a * 10 + b;
    assert n == (n / 10) * 10 + c;
  }

  /** The fixed-width fields after the year: month, day, hour, minute, second, millisecond. */
  datatype TailFields = TailFields(mon: nat, mday: nat, hour: nat, min: nat, sec: nat, ms: nat)

  /** `-MM-DDTHH:MM:SS.mmmZ` of given field values. */
  function TailText(f: TailFields): string
    requires f.mon < 100 && f.mday < 100 && f.hour < 100 && f.min < 100 && f.sec < 100 && f.ms < 1000
  {
    "-" + Pad2(f.mon) + "-" + Pad2(f.mday) + "T" + Pad2(f.hour) + ":" + Pad2(f.min) + ":" + Pad2(f.sec)
    + "." + Pad3(f.ms) + "Z"
  }

  /** Reads the 20 characters that follow the year. */
  function ParseTail(t: string): Option<TailFields>
    requires |t| == 20
  {
    if t[0] != '-' || t[3] != '-' || t[6] != 'T' || t[9] != ':' || t[12] != ':'
       || t[15] != '.' || t[19] != 'Z'
       || !IsDigit(t[1]) || !IsDigit(t[2]) || !IsDigit(t[4]) || !IsDigit(t[5])
       || !IsDigit(t[7]) || !IsDigit(t[8]) || !IsDigit(t[10]) || !IsDigit(t[11])
       || !IsDigit(t[13]) || !IsDigit(t[14]) || !IsDigit(t[16]) || !IsDigit(t[17]) || !IsDigit(t[18])
    then None
    else
      Some(TailFields(Value2(t[1], t[2]), Value2(t[4], t[5]), Value2(t[7], t[8]),
                      Value2(t[10], t[11]), Value2(t[13], t[14]), Value3(t[16], t[17], t[18])))
  }

  /** Reads back a `YYYY-MM-DDTHH:MM:SS.mmmZ` text (the year may have any number
      of digits) as epoch milliseconds. */
  function ParseTimestamp(s: string): Option<int> {
    if |s| < 21 then None
    else
      match ParseDecimal(s[..|s| - 20])
      case None => None
      case Some(y) =>
        match ParseTail(s[|s| - 20..])
        case None => None
        case Some(f) =>
          if !(1 <= f.mon <= 12) then None else Some(MillisOf(y, f))
  }

  /** Milliseconds since the epoch named by a calendar year and the fields after it. */
  function MillisOf(y: int, f: TailFields): int
    requires 1 <= f.mon <= 12
  {
    PosixSeconds(TmOf(y, f)) * 1000 + f.ms
  }

  /** The broken-down time named by a calendar year and the fields that follow it. */
  function TmOf(y: int, f: TailFields): Tm
    requires 1 <= f.mon <= 12
  {
    Tm(f.sec, f.min, f.hour, f.mday, f.mon - 1, y - 1900, DaysBeforeMonth(y, f.mon) + f.mday - 1)
  }

  lemma Pad2Value(n: nat)
    requires n < 100
    ensures IsDigit(Pad2(n)[0]) && IsDigit(Pad2(n)[1]) && Value2(Pad2(n)[0], Pad2(n)[1]) == n
  {
  }

  lemma {:induction false} ParseTailText(f: TailFields)
    requires f.mon < 100 && f.mday < 100 && f.hour < 100 && f.min < 100 && f.sec < 100 && f.ms < 1000
    ensures |TailText(f)| == 20 && ParseTail(TailText(f)) == Some(f)
  {
    var t := TailText(f);
    Pad2Value(f.mon);
    Pad2Value(f.mday);
    Pad2Value(f.hour);
    Pad2Value(f.min);
    Pad2Value(f.sec);
    Pad3Value(f.ms);
    assert t[1] == Pad2(f.mon)[0] && t[2] == Pad2(f.mon)[1];
    assert t[4] == Pad2(f.mday)[0] && t[5] == Pad2(f.mday)[1];
    assert t[7] == Pad2(f.hour)[0] && t[8] == Pad2(f.hour)[1];
    assert t[10] == Pad2(f.min)[0] && t[11] == Pad2(f.min)[1];
    assert t[13] == Pad2(f.sec)[0] && t[14] == Pad2(f.sec)[1];
    assert t[16] == Pad3(f.ms)[0] && t[17] == Pad3(f.ms)[1] && t[18] == Pad3(f.ms)[2];
  }

  lemma FormatShape(tm: Tm, ms: nat)
    requires ValidTm(tm) && ms < 1000
    ensures FormatTm(tm, ms) == Decimal(tm.year + 1900) + TailText(TailFields(tm.mon + 1, tm.mday, tm.hour, tm.min, tm.sec, ms))
  {
  }

  /** Parsing a year followed by a well-formed tail. */
  lemma {:induction false} ParseShape(year: nat, f: TailFields, s: string)
    requires 1 <= f.mon <= 12 && f.mday < 100 && f.hour < 100 && f.min < 100 && f.sec < 100 && f.ms < 1000
    requires s == Decimal(year) + TailText(f)
    ensures ParseTimestamp(s) == Some(MillisOf(year, f))
  {
    ParseTailText(f);
    assert s[..|s| - 20] == Decimal(year);
    assert s[|s| - 20..] == TailText(f);
    DecimalRoundTrip(year);
  }

  /** Formatting loses nothing: the text reads back as the same timestamp. */
  lemma FormatParseRoundTrip(timestampMs: nat)
    ensures ParseTimestamp(FormatTimestamp(timestampMs)) == Some(timestampMs)
  {
    GmtimeInverse(timestampMs / 1000);
    ParseFormatSeconds(timestampMs, Gmtime(timestampMs / 1000), FormatTimestamp(timestampMs));
  }

  lemma ParseFormatSeconds(timestampMs: nat, tm: Tm, s: string)
    requires ValidTm(tm) && PosixSeconds(tm) == timestampMs / 1000
    requires s == FormatTm(tm, timestampMs % 1000)
    ensures ParseTimestamp(s) == Some(timestampMs)
  {
    var ms := timestampMs % 1000;
    ParseFormatTm(tm, ms, s);
    MillisSplit(timestampMs);
    SameValue(s, PosixSeconds(tm) * 1000 + ms, timestampMs);
  }

  /** The text of any valid broken-down time reads back as its POSIX value. */
  lemma ParseFormatTm(tm: Tm, ms: nat, s: string)
    requires ValidTm(tm) && ms < 1000 && s == FormatTm(tm, ms)
    ensures ParseTimestamp(s) == Some(PosixSeconds(tm) * 1000 + ms)
  {
    FormatShape(tm, ms);
    ParseText(tm, ms, s);
  }

  lemma ParseText(tm: Tm, ms: nat, s: string)
    requires ValidTm(tm) && ms < 1000
    requires s == Decimal(tm.year + 1900) + TailText(TailFields(tm.mon + 1, tm.mday, tm.hour, tm.min, tm.sec, ms))
    ensures ParseTimestamp(s) == Some(PosixSeconds(tm) * 1000 + ms)
  {
    var f := TailFields(tm.mon + 1, tm.mday, tm.hour, tm.min, tm.sec, ms);
    ParseShape(tm.year + 1900, f, s);
    FieldsDetermineTm(tm, ms);
    SameValue(s, MillisOf(tm.year + 1900, f), PosixSeconds(tm) * 1000 + ms);
  }

  lemma MillisSplit(t: nat)
    ensures t / 1000 * 1000 + t % 1000 == t
  {
  }

  lemma SameValue(s: string, a: int, b: int)
    requires ParseTimestamp(s) == Some(a) && a == b
    ensures ParseTimestamp(s) == Some(b)
  {
  }

  /** The fields the format prints determine the whole broken-down time. */
  lemma FieldsDetermineTm(tm: Tm, ms: nat)
    requires ValidTm(tm) && ms < 1000
    ensures MillisOf(tm.year + 1900, TailFields(tm.mon + 1, tm.mday, tm.hour, tm.min, tm.sec, ms)) == PosixSeconds(tm) * 1000 + ms
  {
    assert TmOf(tm.year + 1900, TailFields(tm.mon + 1, tm.mday, tm.hour, tm.min, tm.sec, ms)) == tm;
  }

  /** Timestamps in the same second share everything before the milliseconds. */
  lemma SameSecondSamePrefix(t1: nat, t2: nat)
    requires t1 / 1000 == t2 / 1000
    ensures |FormatTimestamp(t1)| == |FormatTimestamp(t2)|
    ensures FormatTimestamp(t1)[..|FormatTimestamp(t1)| - 4] == FormatTimestamp(t2)[..|FormatTimestamp(t2)| - 4]
  {
    FormatTimestampSplit(t1, t1 / 1000, t1 % 1000);
    FormatTimestampSplit(t2, t1 / 1000, t2 % 1000);
    TmPrefix(Gmtime(t1 / 1000), t1 % 1000, t2 % 1000, FormatTimestamp(t1), FormatTimestamp(t2));
  }

  lemma TmPrefix(tm: Tm, ms1: nat, ms2: nat, s1: string, s2: string)
    requires ValidTm(tm) && ms1 < 1000 && ms2 < 1000
    requires s1 == FormatTm(tm, ms1) && s2 == FormatTm(tm, ms2)
    ensures |s1| == |s2| && s1[..|s1| - 4] == s2[..|s2| - 4]
  {
    assert s1[..|s1| - 4] == DateTimeText(tm) + ".";
    assert s2[..|s2| - 4] == DateTimeText(tm) + ".";
  }

  /** The first second after the epoch. */
  lemma FormatFirstSecond(t: nat)
    requires t < 1000
    ensures FormatTimestamp(t) == "1970-01-01T00:00:00." + Pad3(t) + "Z"
  {
    FormatTimestampSplit(t, t / 1000, t);
    EpochTm(t / 1000);
    EpochText(Gmtime(t / 1000), t);
  }

  /** The epoch itself. */
  lemma FormatEpoch(t: nat)
    requires t == 0
    ensures FormatTimestamp(t) == "1970-01-01T00:00:00." + "000" + "Z"
  {
    FormatFirstSecond(t);
    ZeroPadded(t);
  }

  lemma ZeroPadded(n: nat)
    requires n == 0
    ensures Pad3(n) == "000"
  {
  }

  lemma FormatTimestampSplit(timestampMs: nat, seconds: nat, ms: nat)
    requires seconds == timestampMs / 1000 && ms == timestampMs % 1000
    ensures FormatTimestamp(timestampMs) == FormatTm(Gmtime(seconds), ms)
  {
  }

  lemma EpochTm(seconds: nat)
    requires seconds == 0
    ensures Gmtime(seconds) == Tm(0, 0, 0, 1, 0, 70, 0)
  {
    assert YearOf(0, 1970) == (1970, 0);
    assert MonthOf(1970, 0, 1) == (1, 1);
  }

  lemma EpochText(tm: Tm, ms: nat)
    requires tm == Tm(0, 0, 0, 1, 0, 70, 0) && ms < 1000
    ensures FormatTm(tm, ms) == "1970-01-01T00:00:00." + Pad3(ms) + "Z"
  {
    assert Decimal(1970) == "1970" by {
      assert Decimal(1) == "1";
      assert Decimal(19) == Decimal(1) + [Digit(9)];
      assert Decimal(197) == Decimal(19) + [Digit(7)];
    }
  }
}
