/** What an ISO 8601 time stamp says, read character by character: the date and time it was made from. */
module TimestampReading {
  import opened Arithmetic
  import opened Timestamps

  // ----------------------------------------------------------- reading the 24 characters

  predicate AllDigits(s: string) {
    forall i :: 0 <= i < |s| ==> '0' <= s[i] <= '9'
  }

  function Decimal(s: string): int {
    if s == "" then 0 else 10 * Decimal(s[..|s| - 1]) + (s[|s| - 1] as int - '0' as int)
  }

  /** The literal characters of "YYYY-MM-DDTHH:MM:SS.mmmZ", and digits elsewhere. */
  predicate LooksLikeIso8601(s: string) {
    && |s| == 24
    && s[4] == '-' && s[7] == '-' && s[10] == 'T' && s[13] == ':' && s[16] == ':' && s[19] == '.' && s[23] == 'Z'
    && AllDigits(s[..4]) && AllDigits(s[5..7]) && AllDigits(s[8..10]) && AllDigits(s[11..13])
    && AllDigits(s[14..16]) && AllDigits(s[17..19]) && AllDigits(s[20..23])
  }

  const MONTH_LENGTHS: seq<int> := [31, 28, 31, 30, 31, 30, 31, 31, 30, 31, 30, 31]
  const MONTH_STARTS: seq<int> := [0, 31, 59, 90, 120, 151, 181, 212, 243, 273, 304, 334]

  predicate Bissextile(y: int) {
    y % 400 == 0 || (y % 4 == 0 && y % 100 != 0)
  }

  /** A date of the Gregorian calendar. */
  predicate IsDate(y: int, m: int, d: int) {
    1 <= m <= 12 && 1 <= d <= MONTH_LENGTHS[m - 1] + if m == 2 && Bissextile(y) then 1 else 0
  }

  /** Days from 1 January 1970 to a date, January being month 1. */
  function DaysTo(y: int, m: int, d: int): int
    requires IsDate(y, m, d)
  {
    (y - 1970) * 365 + (y - 1969) / 4 - (y - 1901) / 100 + (y - 1601) / 400
    + MONTH_STARTS[m - 1] + (if m > 2 && Bissextile(y) then 1 else 0) + d - 1
  }

  // ---------------------------------------------------------------------- its pieces

  lemma {:induction false} PaddedReads(n: nat, w: nat)
    requires w >= 1 && n < Pow10(w)
    ensures |Padded(n, w)| == w && AllDigits(Padded(n, w)) && Decimal(Padded(n, w)) == n
    decreases w
  {
    if w > 1 {
      PaddedReads(n / 10, w - 1);
      assert Padded(n, w) == Padded(n / 10, w - 1) + [Digit(n % 10)];
      assert Padded(n, w)[..w - 1] == Padded(n / 10, w - 1);
    } else {
      assert Padded(n, w)[..0] == "";
    }
  }

  /** What is printed from field i on. */
  function RestFrom(f: seq<int>, i: nat): string
    requires |f| == 7 && i <= 7
  {
    Render(f[i..], WIDTHS[i..], SEPARATORS[i..])
  }

  lemma RestStep(f: seq<int>, i: nat)
    requires |f| == 7 && i < 7
    ensures RestFrom(f, i) == FormatInt(f[i], WIDTHS[i]) + [SEPARATORS[i]] + RestFrom(f, i + 1)
  {
    assert f[i..][1..] == f[i + 1..] && WIDTHS[i..][1..] == WIDTHS[i + 1..];
    assert SEPARATORS[i..][1..] == SEPARATORS[i + 1..];
  }

  /** The w characters from position `at` are digits that read x, and c follows them. */
  ghost predicate FieldReads(s: string, at: nat, w: nat, x: int, c: char) {
    at + w < |s| && AllDigits(s[at..at + w]) && Decimal(s[at..at + w]) == x && s[at + w] == c
  }

  lemma FieldAt(f: seq<int>, i: nat, at: nat, s: string)
    requires |f| == 7 && i < 7 && 0 <= f[i] < Pow10(WIDTHS[i]) && at <= |s| && s[at..] == RestFrom(f, i)
    ensures var w := WIDTHS[i];
            FieldReads(s, at, w, f[i], SEPARATORS[i]) && s[at + w + 1..] == RestFrom(f, i + 1)
  {
    hide RestFrom, AllDigits, Decimal;
    var w := WIDTHS[i];
    PaddedReads(f[i], w);
    RestStep(f, i);
    Pieces(s, at, Padded(f[i], w), SEPARATORS[i], RestFrom(f, i + 1));
  }

  lemma Pieces(s: string, at: nat, p: string, c: char, rest: string)
    requires at <= |s| && s[at..] == p + [c] + rest
    ensures at + |p| < |s| && s[at..at + |p|] == p && s[at + |p|] == c && s[at + |p| + 1..] == rest
  {
    assert s[at..at + |p|] == s[at..][..|p|];
    assert s[at + |p|] == s[at..][|p|];
    assert s[at + |p| + 1..] == s[at..][|p| + 1..];
  }

  /** All fields but the milliseconds fit their widths. */
  ghost predicate DateFits(f: seq<int>) {
    |f| == 7 && 0 <= f[0] < 10000 && forall i :: 1 <= i < 6 ==> 0 <= f[i] < 100
  }

  lemma Layout()
    ensures |WIDTHS| == |SEPARATORS| == 7
    ensures WIDTHS[0] == 4 && WIDTHS[1] == 2 && WIDTHS[2] == 2
    ensures WIDTHS[3] == 2 && WIDTHS[4] == 2 && WIDTHS[5] == 2 && WIDTHS[6] == 3
    ensures SEPARATORS[0] == '-' && SEPARATORS[1] == '-' && SEPARATORS[2] == 'T'
    ensures SEPARATORS[3] == ':' && SEPARATORS[4] == ':' && SEPARATORS[5] == '.' && SEPARATORS[6] == 'Z'
    ensures Pow10(2) == 100 && Pow10(3) == 1000 && Pow10(4) == 10000
  {
  }

  lemma DateFields(f: seq<int>, s: string)
    requires DateFits(f) && s == RestFrom(f, 0)
    ensures FieldReads(s, 0, 4, f[0], '-') && FieldReads(s, 5, 2, f[1], '-') && FieldReads(s, 8, 2, f[2], 'T')
    ensures |s| >= 11 && s[11..] == RestFrom(f, 3)
  {
    assert s[0..] == s;
    Layout();
    hide RestFrom, FieldReads, WIDTHS, SEPARATORS, Pow10;
    FieldAt(f, 0, 0, s);
    FieldAt(f, 1, 5, s);
    FieldAt(f, 2, 8, s);
  }

  lemma TimeFields(f: seq<int>, s: string)
    requires DateFits(f) && |s| >= 11 && s[11..] == RestFrom(f, 3)
    ensures FieldReads(s, 11, 2, f[3], ':') && FieldReads(s, 14, 2, f[4], ':') && FieldReads(s, 17, 2, f[5], '.')
    ensures |s| >= 20 && s[20..] == FormatInt(f[6], 3) + "Z"
  {
    NothingLeft(f);
    Layout();
    hide RestFrom, FieldReads, WIDTHS, SEPARATORS, Pow10, FormatInt;
    FieldAt(f, 3, 11, s);
    FieldAt(f, 4, 14, s);
    FieldAt(f, 5, 17, s);
    RestStep(f, 6);
  }

  lemma NothingLeft(f: seq<int>)
    requires |f| == 7
    ensures RestFrom(f, 7) == ""
  {
  }

  lemma SameLeapYears(y: int)
    ensures Leap(y) <==> Bissextile(y)
  {
  }

  lemma {:induction false} MonthTables(y: int, m: int)
    requires 1 <= m <= 12
    ensures DaysInMonth(y, m) == MONTH_LENGTHS[m - 1] + if m == 2 && Bissextile(y) then 1 else 0
    ensures DaysBeforeMonth(y, m) == MONTH_STARTS[m - 1] + if m > 2 && Bissextile(y) then 1 else 0
  {
    hide Leap, Bissextile;
    SameLeapYears(y);
    if m > 1 {
      MonthTables(y, m - 1);
    }
  }

  /** The calendar here and the POSIX formula agree. */
  lemma CalendarAgrees(c: Civil, ms: int)
    requires c.Valid()
    ensures IsDate(c.year, c.month, c.day)
    ensures (((DaysTo(c.year, c.month, c.day) * 24 + c.hour) * 60 + c.minute) * 60 + c.second) * 1000 + ms
            == Millis(c, ms)
  {
    hide DaysBeforeMonth, DaysInMonth, Bissextile;
    MonthTables(c.year, c.month);
  }

  /** The six fields of date and time, read off the first twenty characters. */
  ghost predicate ReadsAs(s: string, f: seq<int>)
    requires |f| == 7
  {
    && |s| > 20
    && s[4] == '-' && s[7] == '-' && s[10] == 'T' && s[13] == ':' && s[16] == ':' && s[19] == '.'
    && AllDigits(s[..4]) && AllDigits(s[5..7]) && AllDigits(s[8..10]) && AllDigits(s[11..13])
    && AllDigits(s[14..16]) && AllDigits(s[17..19])
    && Decimal(s[..4]) == f[0] && Decimal(s[5..7]) == f[1] && Decimal(s[8..10]) == f[2]
    && Decimal(s[11..13]) == f[3] && Decimal(s[14..16]) == f[4] && Decimal(s[17..19]) == f[5]
  }

  lemma FieldsAreRead(f: seq<int>, s: string)
    requires DateFits(f) && s == RestFrom(f, 0)
    ensures ReadsAs(s, f) && s[20..] == FormatInt(f[6], 3) + "Z"
  {
    hide RestFrom, Decimal, AllDigits, FormatInt;
    DateFields(f, s);
    TimeFields(f, s);
    assert s[0..4] == s[..4];
  }

  lemma MillisAreRead(f: seq<int>, s: string)
    requires DateFits(f) && ReadsAs(s, f) && 0 <= f[6] < 1000 && s[20..] == FormatInt(f[6], 3) + "Z"
    ensures LooksLikeIso8601(s) && Decimal(s[20..23]) == f[6]
  {
    assert Pow10(3) == 1000;
    hide Decimal, AllDigits, Padded, Pow10;
    PaddedReads(f[6], 3);
    Pieces(s, 20, Padded(f[6], 3), 'Z', "");
  }

  lemma WholeText(tp: int)
    ensures |PrintedFields(tp)| == 7 && Iso8601(tp) == RestFrom(PrintedFields(tp), 0)
  {
    hide Gmtime, Render;
    var f := PrintedFields(tp);
    assert f[0..] == f && WIDTHS[0..] == WIDTHS && SEPARATORS[0..] == SEPARATORS;
  }

  /** From 1970 to the end of 9999 the string, read by the calendar, is the instant: 24 characters in the ISO 8601
      layout whose digits form a date and a time of day, and these are the given number of milliseconds after
      1 January 1970. */
  lemma TimestampSaysTheInstant(tp: int)
    requires 0 <= tp < 253_402_300_800_000_000_000
    ensures LooksLikeIso8601(Iso8601(tp))
    ensures var s := Iso8601(tp);
            var y, m, d := Decimal(s[..4]), Decimal(s[5..7]), Decimal(s[8..10]);
            var hour, minute, second := Decimal(s[11..13]), Decimal(s[14..16]), Decimal(s[17..19]);
            && IsDate(y, m, d) && hour < 24 && minute < 60 && second < 60
            && (((DaysTo(y, m, d) * 24 + hour) * 60 + minute) * 60 + second) * 1000 + Decimal(s[20..23])
               == tp / 1_000_000
  {
    PrintedFieldsDenote(tp);
    WholeText(tp);
    var c := Gmtime(TruncDiv(tp, NS_PER_S));
    CalendarAgrees(c, TruncMod(MillisOf(tp), 1000));
    assert DateFits(PrintedFields(tp)) by {
      Layout();
    }
    hide Gmtime, Iso8601, Decimal, LooksLikeIso8601, IsDate, DaysTo, RestFrom, Fit, Millis, DateFits;
    FieldsAreRead(PrintedFields(tp), Iso8601(tp));
    MillisAreRead(PrintedFields(tp), Iso8601(tp));
  }

  // ------------------------------------------------------------------ before the epoch

  lemma {:induction false} PaddedReadsAny(n: nat, w: nat)
    ensures AllDigits(Padded(n, w)) && Decimal(Padded(n, w)) == n
    ensures |Padded(n, w)| >= 1
    decreases n + w
  {
    if n >= 10 || w > 1 {
      PaddedReadsAny(n / 10, if w == 0 then 0 else w - 1);
      assert Padded(n, w) == Padded(n / 10, if w == 0 then 0 else w - 1) + [Digit(n % 10)];
    } else {
      assert Padded(n, w)[..0] == "";
    }
  }

  lemma YearFitsBefore(t: int)
    requires -62_167_219_200 <= t < 0
    ensures 0 <= Gmtime(t).year < 1970
  {
    YearFromCorrect(1970, t / 86400);
    var (year, yday) := YearFrom(1970, t / 86400);
    assert PosixDays(0, 0) == -719528;
    assert PosixDays(1970, 0) == 0;
    PosixDaysShift(year, yday);
    if year >= 1970 {
      PosixYearMonotone(1970, year);
    } else if year < 0 {
      PosixYearMonotone(year, 0);
    }
  }

  lemma DateFitsBefore(tp: int)
    requires -62_167_219_200_000_000_000 <= tp < 0
    ensures var c := Gmtime(TruncDiv(tp, NS_PER_S));
            c.Valid() && DateFits(PrintedFields(tp)) && PosixSeconds(c) == TruncDiv(tp, NS_PER_S)
  {
    var t := TruncDiv(tp, NS_PER_S);
    GmtimeIsPosixInverse(t);
    if t < 0 {
      YearFitsBefore(t);
    } else {
      YearFits(t);
    }
    assert DaysInMonth(Gmtime(t).year, Gmtime(t).month) <= 31;
  }

  /** The first twenty characters are a date and a time of day, t seconds after the epoch. */
  ghost predicate SaysSecond(s: string, t: int) {
    exists f ::
      && |f| == 7 && ReadsAs(s, f)
      && IsDate(f[0], f[1], f[2]) && 0 <= f[3] < 24 && 0 <= f[4] < 60 && 0 <= f[5] < 60
      && ((DaysTo(f[0], f[1], f[2]) * 24 + f[3]) * 60 + f[4]) * 60 + f[5] == t
  }

  lemma ReadsSecond(s: string, f: seq<int>, c: Civil, t: int)
    requires c.Valid() && |f| == 7 && ReadsAs(s, f) && PosixSeconds(c) == t
    requires f[0] == c.year && f[1] == c.month && f[2] == c.day
    requires f[3] == c.hour && f[4] == c.minute && f[5] == c.second
    ensures SaysSecond(s, t)
  {
    hide ReadsAs, DaysTo, IsDate, PosixSeconds;
    CalendarSeconds(c);
  }

  /** Whole seconds from a moment before the epoch to the epoch, and the milliseconds that are left. */
  function SecondsMissing(tp: int): (s: int)
    requires tp < 0
    ensures s >= 0
  {
    -tp / 1_000_000_000
  }

  function MillisMissing(tp: int): (ms: int)
    requires tp < 0
    ensures ms >= 0
  {
    -tp / 1_000_000 % 1000
  }

  /** From the year 0 to the epoch the first part of the string says the second nearer to the epoch. */
  lemma SecondBeforeTheEpoch(tp: int)
    requires -62_167_219_200_000_000_000 <= tp < 0
    ensures SaysSecond(Iso8601(tp), -SecondsMissing(tp))
  {
    var c := Gmtime(TruncDiv(tp, NS_PER_S));
    hide *;
    WholeText(tp);
    DateFitsBefore(tp);
    MissingMillis(tp);
    SixFields(tp);
    FieldsAreRead(PrintedFields(tp), Iso8601(tp));
    ReadsSecond(Iso8601(tp), PrintedFields(tp), c, -SecondsMissing(tp));
  }

  /** The rest of it says the missing milliseconds, with a minus sign if there are any: they are to be subtracted,
      not added. */
  lemma MillisBeforeTheEpoch(tp: int)
    requires -62_167_219_200_000_000_000 <= tp < 0
    ensures var s, ms := Iso8601(tp), MillisMissing(tp);
            && |s| > 20 && (ms == 0 ==> s[20..] == "000Z")
            && (ms > 0 ==> s[20..] == "-" + Padded(ms, 2) + "Z" && Decimal(Padded(ms, 2)) == ms)
  {
    hide *;
    WholeText(tp);
    DateFitsBefore(tp);
    MissingMillis(tp);
    PaddedReadsAny(MillisMissing(tp), 2);
    TextOfMissing(PrintedFields(tp), Iso8601(tp), MillisMissing(tp));
  }

  lemma TextOfMissing(f: seq<int>, s: string, ms: nat)
    requires DateFits(f) && s == RestFrom(f, 0) && f[6] == 0 - ms
    ensures |s| > 20 && (ms == 0 ==> s[20..] == "000Z") && (ms > 0 ==> s[20..] == "-" + Padded(ms, 2) + "Z")
  {
    FieldsAreRead(f, s);
    assert |s| > 20;
    hide ReadsAs, DateFits, RestFrom, FormatInt, Padded;
    ZeroMillisText();
    MillisText(f[6]);
  }

  lemma MillisText(ms: int)
    requires ms <= 0
    ensures FormatInt(ms, 3) + "Z" == if ms < 0 then "-" + Padded(-ms, 2) + "Z" else FormatInt(0, 3) + "Z"
  {
    hide Padded;
  }

  lemma SixFields(tp: int)
    ensures var c, f := Gmtime(TruncDiv(tp, NS_PER_S)), PrintedFields(tp);
            && |f| == 7 && f[0] == c.year && f[1] == c.month && f[2] == c.day
            && f[3] == c.hour && f[4] == c.minute && f[5] == c.second
  {
    hide Gmtime;
  }

  lemma MissingMillis(tp: int)
    requires tp < 0
    ensures |PrintedFields(tp)| == 7 && PrintedFields(tp)[6] == -MillisMissing(tp)
    ensures TruncDiv(tp, NS_PER_S) == -SecondsMissing(tp)
  {
    hide Gmtime;
  }

  lemma CalendarSeconds(c: Civil)
    requires c.Valid()
    ensures IsDate(c.year, c.month, c.day) && 0 <= c.hour < 24 && 0 <= c.minute < 60 && 0 <= c.second < 60
    ensures ((DaysTo(c.year, c.month, c.day) * 24 + c.hour) * 60 + c.minute) * 60 + c.second == PosixSeconds(c)
  {
    hide DaysTo, PosixSeconds;
    CalendarAgrees(c, 0);
  }

  lemma ZeroMillisText()
    ensures FormatInt(0, 3) == "000"
  {
    assert Padded(0, 1) == "0";
    assert Padded(0, 2) == "00";
  }
}
