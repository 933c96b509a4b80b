/** iso8601_utc: calendar arithmetic, formatting, and why string order is time order. */
module Timestamps {
  import opened Arithmetic

  const NS_PER_MS := 1_000_000
  const NS_PER_S := 1_000_000_000

  // ------------------------------------------------------------------- the calendar

  predicate Leap(y: int) {
    y % 4 == 0 && (y % 100 != 0 || y % 400 == 0)
  }

  function DaysInYear(y: int): int {
    if Leap(y) then 366 else 365
  }

  function DaysInMonth(y: int, m: int): int {
    if m == 2 then (if Leap(y) then 29 else 28)
    else if m == 4 || m == 6 || m == 9 || m == 11 then 30
    else 31
  }

  /** Days from the start of year y to the start of its month m. */
  function DaysBeforeMonth(y: int, m: int): int
    decreases m
  {
    if m <= 1 then 0 else DaysBeforeMonth(y, m - 1) + DaysInMonth(y, m - 1)
  }

  /** The date tm_yday days after the start of month m of year y. */
  function MonthFrom(y: int, m: int, yday: int): (int, int)
    decreases 12 - m
  {
    if m >= 12 || yday < DaysInMonth(y, m) then (m, yday + 1)
    else MonthFrom(y, m + 1, yday - DaysInMonth(y, m))
  }

  /** The year and day of year that lie `days` after the start of year y. */
  function YearFrom(y: int, days: int): (int, int)
    decreases days < 0, if days < 0 then -days else days
  {
    if days < 0 then YearFrom(y - 1, days + DaysInYear(y - 1))
    else if days < DaysInYear(y) then (y, days)
    else YearFrom(y + 1, days - DaysInYear(y))
  }

  /** Broken-down time, month and day counted from 1. */
  datatype Civil = Civil(year: int, month: int, day: int, hour: int, minute: int, second: int) {
    ghost predicate Valid() {
      && 1 <= month <= 12 && 1 <= day <= DaysInMonth(year, month)
      && 0 <= hour < 24 && 0 <= minute < 60 && 0 <= second < 60
    }
  }

  function Gmtime(t: int): Civil {
    var (year, yday) := YearFrom(1970, t / 86400);
    var (month, day) := MonthFrom(year, 1, yday);
    var s := t % 86400;
    Civil(year, month, day, s / 3600, s / 60 % 60, s % 60)
  }

  // -------------------------------------- reference: POSIX "Seconds Since the Epoch"

  /** Section 4.16 of the POSIX.1-2017 Base Definitions, in days, for tm_year = y - 1900. */
  function PosixDays(y: int, yday: int): int {
    var tmYear := y - 1900;
    yday + (tmYear - 70) * 365 + (tmYear - 69) / 4 - (tmYear - 1) / 100 + (tmYear + 299) / 400
  }

  function PosixSeconds(c: Civil): int {
    c.second + 60 * c.minute + 3600 * c.hour
    + 86400 * PosixDays(c.year, DaysBeforeMonth(c.year, c.month) + c.day - 1)
  }

  lemma NextMultiple(n: int, d: int)
    requires d > 0
    ensures (n + 1) / d - n / d == if (n + 1) % d == 0 then 1 else 0
  {
    if (n + 1) % d == 0 {
      DivModUnique(n, d, (n + 1) / d - 1, d - 1);
    } else {
      DivModUnique(n, d, (n + 1) / d, (n + 1) % d - 1);
    }
  }

  lemma ModShift(y: int, d: int, m: int)
    requires d > 0
    ensures (y - m * d) % d == y % d
  {
    DivModUnique(y - m * d, d, y / d - m, y % d);
  }

  lemma PosixYearStep(y: int)
    ensures PosixDays(y + 1, 0) == PosixDays(y, 0) + DaysInYear(y)
  {
    NextMultiple(y - 1969, 4);
    NextMultiple(y - 1901, 100);
    NextMultiple(y - 1601, 400);
    ModShift(y, 4, 492);
    ModShift(y, 100, 19);
    ModShift(y, 400, 4);
  }

  lemma {:induction false} YearFromCorrect(y: int, days: int)
    ensures var (y', yday) := YearFrom(y, days);
            0 <= yday < DaysInYear(y') && PosixDays(y', yday) == PosixDays(y, 0) + days
    decreases days < 0, if days < 0 then -days else days
  {
    if days < 0 {
      PosixYearStep(y - 1);
      YearFromCorrect(y - 1, days + DaysInYear(y - 1));
    } else if days >= DaysInYear(y) {
      PosixYearStep(y);
      YearFromCorrect(y + 1, days - DaysInYear(y));
    }
  }

  lemma NextMonth(y: int, m: int)
    requires 1 <= m
    ensures DaysBeforeMonth(y, m + 1) == DaysBeforeMonth(y, m) + DaysInMonth(y, m)
  {
  }

  lemma December(y: int)
    ensures DaysInMonth(y, 12) == 31
  {
  }

  lemma {:induction false} MonthFromCorrect(y: int, m: int, yday: int)
    requires 1 <= m <= 12 && 0 <= yday < DaysBeforeMonth(y, 12) + 31 - DaysBeforeMonth(y, m)
    ensures var (m', d) := MonthFrom(y, m, yday);
            && 1 <= m' <= 12 && 1 <= d <= DaysInMonth(y, m')
            && DaysBeforeMonth(y, m') + d - 1 == DaysBeforeMonth(y, m) + yday
    decreases 12 - m
  {
    hide DaysInMonth, DaysBeforeMonth;
    if m == 12 {
      December(y);
    } else if yday >= DaysInMonth(y, m) {
      NextMonth(y, m);
      MonthFromCorrect(y, m + 1, yday - DaysInMonth(y, m));
    }
  }

  lemma YearLength(y: int)
    ensures DaysBeforeMonth(y, 12) + 31 == DaysInYear(y)
  {
    assert DaysBeforeMonth(y, 5) == DaysInMonth(y, 2) + 92;
    assert DaysBeforeMonth(y, 9) == DaysInMonth(y, 2) + 215;
  }

  lemma ClockOfSeconds(s: int)
    requires 0 <= s < 86400
    ensures s % 60 + 60 * (s / 60 % 60) + 3600 * (s / 3600) == s && s / 3600 < 24
  {
    assert s / 60 / 60 == s / 3600;
  }

  /** Gmtime is the inverse of the POSIX formula. */
  lemma GmtimeIsPosixInverse(t: int)
    ensures Gmtime(t).Valid() && PosixSeconds(Gmtime(t)) == t
  {
    hide YearFrom, MonthFrom, PosixDays, DaysBeforeMonth, DaysInMonth, DaysInYear;
    var days, s := t / 86400, t % 86400;
    YearFromCorrect(1970, days);
    var (year, yday) := YearFrom(1970, days);
    YearLength(year);
    assert DaysBeforeMonth(year, 1) == 0 && PosixDays(1970, 0) == 0 by {
      EpochIsZero(year);
    }
    MonthFromCorrect(year, 1, yday);
    PosixDaysShift(year, yday);
    ClockOfSeconds(s);
  }

  lemma EpochIsZero(y: int)
    ensures DaysBeforeMonth(y, 1) == 0 && PosixDays(1970, 0) == 0
  {
  }

  lemma PosixDaysShift(y: int, yday: int)
    ensures PosixDays(y, yday) == PosixDays(y, 0) + yday
  {
  }

  // ------------------------------------------------------- date order is time order

  lemma {:induction false} PosixYearMonotone(y: int, y': int)
    requires y <= y'
    ensures PosixDays(y, 0) + (if y < y' then DaysInYear(y) else 0) <= PosixDays(y', 0)
    decreases y' - y
  {
    if y < y' {
      PosixYearStep(y);
      PosixYearMonotone(y + 1, y');
    }
  }

  lemma {:induction false} MonthMonotone(y: int, m: int, m': int)
    requires 1 <= m <= m'
    ensures DaysBeforeMonth(y, m) + (if m < m' then DaysInMonth(y, m) else 0) <= DaysBeforeMonth(y, m')
    decreases m'
  {
    if m < m' {
      MonthMonotone(y, m, m' - 1);
    }
  }

  /** The seven printed fields. */
  function Fields(c: Civil, ms: int): seq<int> {
    [c.year, c.month, c.day, c.hour, c.minute, c.second, ms]
  }

  predicate LexLess(f: seq<int>, g: seq<int>)
    requires |f| == |g|
  {
    f != [] && (f[0] < g[0] || (f[0] == g[0] && LexLess(f[1..], g[1..])))
  }

  lemma {:induction false} LexTotal(f: seq<int>, g: seq<int>)
    requires |f| == |g| && f != g
    ensures LexLess(f, g) || LexLess(g, f)
  {
    if f[0] == g[0] {
      assert f == [f[0]] + f[1..] && g == [g[0]] + g[1..];
      LexTotal(f[1..], g[1..]);
    }
  }

  lemma DateOrder(c: Civil, c': Civil)
    requires c.Valid() && c'.Valid()
    requires c.year < c'.year || (c.year == c'.year && c.month < c'.month)
    ensures PosixDays(c.year, DaysBeforeMonth(c.year, c.month) + c.day - 1)
            < PosixDays(c'.year, DaysBeforeMonth(c'.year, c'.month) + c'.day - 1)
  {
    MonthMonotone(c'.year, 1, c'.month);
    if c.year < c'.year {
      MonthMonotone(c.year, c.month, 12);
      YearLength(c.year);
      PosixYearMonotone(c.year, c'.year);
    } else {
      MonthMonotone(c.year, c.month, c'.month);
    }
  }

  lemma FirstDifference(f: seq<int>, g: seq<int>) returns (k: nat)
    requires |f| == |g| && LexLess(f, g)
    ensures k < |f| && f[..k] == g[..k] && f[k] < g[k]
  {
    if f[0] < g[0] {
      k := 0;
    } else {
      var j := FirstDifference(f[1..], g[1..]);
      k := j + 1;
      assert f[..k] == [f[0]] + f[1..][..j] && g[..k] == [g[0]] + g[1..][..j];
    }
  }

  function Millis(c: Civil, ms: int): int {
    PosixSeconds(c) * 1000 + ms
  }

  function Day(c: Civil): int {
    PosixDays(c.year, DaysBeforeMonth(c.year, c.month) + c.day - 1)
  }

  /** The first printed field that differs decides which day, or which time of the same day, is earlier. */
  lemma FirstDifferenceDecides(c: Civil, ms: int, c': Civil, ms': int, k: nat)
    requires c.Valid() && c'.Valid() && k < 7
    requires forall i :: 0 <= i < k ==> Fields(c, ms)[i] == Fields(c', ms')[i]
    requires Fields(c, ms)[k] < Fields(c', ms')[k]
    ensures k <= 2 ==> Day(c) < Day(c')
    ensures k > 2 ==> c.year == c'.year && c.month == c'.month && c.day == c'.day
    ensures k > 3 ==> c.hour == c'.hour
    ensures k > 4 ==> c.minute == c'.minute
    ensures k > 5 ==> c.second == c'.second
  {
    hide PosixDays, DaysBeforeMonth, DaysInMonth;
    var f, g := Fields(c, ms), Fields(c', ms');
    assert k > 0 ==> f[0] == g[0];
    assert k > 1 ==> f[1] == g[1];
    assert k > 2 ==> f[2] == g[2];
    assert k > 3 ==> f[3] == g[3];
    assert k > 4 ==> f[4] == g[4];
    assert k > 5 ==> f[5] == g[5];
    if k <= 1 {
      DateOrder(c, c');
    } else if k == 2 {
      PosixDaysShift(c.year, DaysBeforeMonth(c.year, c.month) + c.day - 1);
      PosixDaysShift(c.year, DaysBeforeMonth(c.year, c.month) + c'.day - 1);
    }
  }

  /** Valid printed fields in lexicographic order denote instants in time order. */
  lemma FieldOrderIsTimeOrder(c: Civil, ms: int, c': Civil, ms': int)
    requires c.Valid() && c'.Valid() && 0 <= ms < 1000 && 0 <= ms' < 1000
    requires LexLess(Fields(c, ms), Fields(c', ms'))
    ensures Millis(c, ms) < Millis(c', ms')
  {
    hide LexLess, PosixDays, DaysBeforeMonth, DaysInMonth;
    var f, g := Fields(c, ms), Fields(c', ms');
    var k := FirstDifference(f, g);
    assert forall i :: 0 <= i < k ==> f[i] == f[..k][i] && g[i] == g[..k][i];
    FirstDifferenceDecides(c, ms, c', ms', k);
    assert k > 2 ==> Day(c) == Day(c');
  }

  // ------------------------------------------------------------------- the formatting

  function Digit(d: int): char
    requires 0 <= d < 10
  {
    ('0' as int + d) as char
  }

  /** printf's %0<w>d for a non-negative number. */
  function Padded(n: nat, w: nat): string
    decreases n + w
  {
    if n < 10 && w <= 1 then [Digit(n)]
    else Padded(n / 10, if w == 0 then 0 else w - 1) + [Digit(n % 10)]
  }

  /** printf's %0<w>d: the sign takes one column. */
  function FormatInt(n: int, w: nat): string {
    if n >= 0 then Padded(n, w) else "-" + Padded(-n, if w == 0 then 0 else w - 1)
  }

  /** The format "%04d-%02d-%02dT%02d:%02d:%02d.%03dZ": the width of each field and what follows it. */
  const WIDTHS: seq<nat> := [4, 2, 2, 2, 2, 2, 3]
  const SEPARATORS: string := "--T::.Z"

  /** snprintf with a format made of zero-padded integers, each followed by one literal character. */
  function Render(f: seq<int>, widths: seq<nat>, seps: string): string
    requires |f| == |widths| == |seps|
  {
    if f == [] then "" else FormatInt(f[0], widths[0]) + [seps[0]] + Render(f[1..], widths[1..], seps[1..])
  }

  function MillisOf(tp: int): int {
    TruncDiv(tp, NS_PER_MS)
  }

  function PrintedFields(tp: int): seq<int> {
    Fields(Gmtime(TruncDiv(tp, NS_PER_S)), TruncMod(MillisOf(tp), 1000))
  }

  /** The formatted string for an instant given in nanoseconds since the epoch. */
  function Iso8601(tp: int): string {
    Render(PrintedFields(tp), WIDTHS, SEPARATORS)
  }

  // -------------------------------------------------------------------- string order

  /** Byte-wise order of strings, the order of a string sort key. */
  predicate Less(a: string, b: string) {
    b != "" && (a == "" || a[0] < b[0] || (a[0] == b[0] && Less(a[1..], b[1..])))
  }

  lemma {:induction false} LessIsStrict(a: string, b: string)
    ensures !(Less(a, b) && Less(b, a)) && !Less(a, a)
  {
    if a != "" {
      LessIsStrict(a[1..], if b == "" then "" else b[1..]);
    }
  }

  lemma {:induction false} LessAppend(a: string, b: string, x: string, y: string)
    requires |a| == |b| && Less(a, b)
    ensures Less(a + x, b + y)
  {
    assert (a + x)[1..] == a[1..] + x && (b + y)[1..] == b[1..] + y;
    if a[0] == b[0] {
      LessAppend(a[1..], b[1..], x, y);
    }
  }

  lemma {:induction false} LessPrefix(p: string, x: string, y: string)
    requires Less(x, y)
    ensures Less(p + x, p + y)
  {
    if p == "" {
      assert p + x == x && p + y == y;
    } else {
      assert (p + x)[1..] == p[1..] + x && (p + y)[1..] == p[1..] + y;
      LessPrefix(p[1..], x, y);
    }
  }

  function Pow10(w: nat): nat {
    if w == 0 then 1 else 10 * Pow10(w - 1)
  }

  lemma {:induction false} PaddedLength(n: nat, w: nat)
    requires w >= 1 && n < Pow10(w)
    ensures |Padded(n, w)| == w
    decreases w
  {
    if w > 1 {
      PaddedLength(n / 10, w - 1);
    }
  }

  lemma {:induction false} PaddedOrder(a: nat, b: nat, w: nat)
    requires w >= 1 && a < b < Pow10(w)
    ensures Less(Padded(a, w), Padded(b, w))
    decreases w
  {
    if w > 1 {
      if a / 10 < b / 10 {
        PaddedOrder(a / 10, b / 10, w - 1);
        PaddedLength(a / 10, w - 1);
        PaddedLength(b / 10, w - 1);
        LessAppend(Padded(a / 10, w - 1), Padded(b / 10, w - 1), [Digit(a % 10)], [Digit(b % 10)]);
      } else {
        LessPrefix(Padded(a / 10, w - 1), [Digit(a % 10)], [Digit(b % 10)]);
      }
    }
  }

  // --------------------------------------------------------- fixed-width field lists

  ghost predicate Fit(f: seq<int>, widths: seq<nat>) {
    |f| == |widths| && forall i :: 0 <= i < |f| ==> widths[i] >= 1 && 0 <= f[i] < Pow10(widths[i])
  }

  lemma {:induction false} RenderOrder(f: seq<int>, g: seq<int>, widths: seq<nat>, seps: string)
    requires Fit(f, widths) && Fit(g, widths) && |seps| == |widths| && LexLess(f, g)
    ensures Less(Render(f, widths, seps), Render(g, widths, seps))
  {
    var w := widths[0];
    var x, y := Render(f[1..], widths[1..], seps[1..]), Render(g[1..], widths[1..], seps[1..]);
    PaddedLength(f[0], w);
    PaddedLength(g[0], w);
    if f[0] < g[0] {
      PaddedOrder(f[0], g[0], w);
      LessAppend(Padded(f[0], w), Padded(g[0], w), [seps[0]] + x, [seps[0]] + y);
      assert Render(f, widths, seps) == Padded(f[0], w) + ([seps[0]] + x);
      assert Render(g, widths, seps) == Padded(g[0], w) + ([seps[0]] + y);
    } else {
      RenderOrder(f[1..], g[1..], widths[1..], seps[1..]);
      LessPrefix(Padded(f[0], w) + [seps[0]], x, y);
    }
  }

  /** Instants of the years 1970 to 9999, in milliseconds since the epoch. */
  const END_OF_9999 := 253402300800000

  ghost predicate InRange(tp: int) {
    0 <= tp && MillisOf(tp) < END_OF_9999
  }

  lemma YearFits(t: int)
    requires 0 <= t < 253402300800
    ensures 1970 <= Gmtime(t).year < 10000
  {
    YearFromCorrect(1970, t / 86400);
    var (year, yday) := YearFrom(1970, t / 86400);
    assert PosixDays(10000, 0) == 2932897;
    assert PosixDays(1970, 0) == 0;
    PosixDaysShift(year, yday);
    if year >= 10000 {
      PosixYearMonotone(10000, year);
    } else if year < 1970 {
      PosixYearMonotone(year, 1970);
    }
  }

  /** The printed fields of an instant are in range, denote that instant, and fit their widths. */
  lemma PrintedFieldsDenote(tp: int)
    requires InRange(tp)
    ensures var tm := Gmtime(TruncDiv(tp, NS_PER_S));
            var ms := TruncMod(MillisOf(tp), 1000);
            tm.Valid() && 0 <= ms < 1000 && Millis(tm, ms) == MillisOf(tp)
    ensures Fit(PrintedFields(tp), WIDTHS)
  {
    var t := TruncDiv(tp, NS_PER_S);
    assert t == MillisOf(tp) / 1000;
    GmtimeIsPosixInverse(t);
    YearFits(t);
    assert Pow10(4) == 10000 && Pow10(2) == 100 && Pow10(3) == 1000;
    assert DaysInMonth(Gmtime(t).year, Gmtime(t).month) <= 31;
  }

  lemma EarlierIsLess(tp: int, tp': int)
    requires InRange(tp) && InRange(tp') && MillisOf(tp) < MillisOf(tp')
    ensures Less(Iso8601(tp), Iso8601(tp'))
  {
    hide Gmtime, Render, LexLess, Fit, Millis, MillisOf, TruncMod, InRange, Less;
    PrintedFieldsDenote(tp);
    PrintedFieldsDenote(tp');
    var f, f' := PrintedFields(tp), PrintedFields(tp');
    var c, c' := Gmtime(TruncDiv(tp, NS_PER_S)), Gmtime(TruncDiv(tp', NS_PER_S));
    var ms, ms' := TruncMod(MillisOf(tp), 1000), TruncMod(MillisOf(tp'), 1000);
    if !LexLess(f, f') {
      if f != f' {
        LexTotal(f, f');
        FieldOrderIsTimeOrder(c', ms', c, ms);
      } else {
        SameFields(c, ms, c', ms');
      }
      assert false;
    }
    FitWidths(f, f');
    RenderOrder(f, f', WIDTHS, SEPARATORS);
  }

  lemma SameFields(c: Civil, ms: int, c': Civil, ms': int)
    requires Fields(c, ms) == Fields(c', ms')
    ensures c == c' && ms == ms'
  {
    var f, g := Fields(c, ms), Fields(c', ms');
    assert f[0] == g[0] && f[1] == g[1] && f[2] == g[2] && f[3] == g[3];
    assert f[4] == g[4] && f[5] == g[5] && f[6] == g[6];
  }

  lemma FitWidths(f: seq<int>, g: seq<int>)
    requires Fit(f, WIDTHS) && Fit(g, WIDTHS)
    ensures |f| == |g| == |WIDTHS| == |SEPARATORS|
  {
  }

  /** From 1970 to the end of 9999 string order is time order at millisecond resolution, and the format is
      injective. */
  lemma StringOrderIsTimeOrder(tp: int, tp': int)
    requires InRange(tp) && InRange(tp')
    ensures Less(Iso8601(tp), Iso8601(tp')) <==> MillisOf(tp) < MillisOf(tp')
    ensures Iso8601(tp) == Iso8601(tp') <==> MillisOf(tp) == MillisOf(tp')
  {
    hide Iso8601, Less;
    LessIsStrict(Iso8601(tp), Iso8601(tp'));
    if MillisOf(tp) < MillisOf(tp') {
      EarlierIsLess(tp, tp');
    } else if MillisOf(tp') < MillisOf(tp) {
      EarlierIsLess(tp', tp);
    } else {
      SameMillisSameString(tp, tp');
    }
  }

  /** The string depends on the millisecond only, at any instant. */
  lemma SameMillisSameString(tp: int, tp': int)
    requires MillisOf(tp) == MillisOf(tp')
    ensures Iso8601(tp) == Iso8601(tp')
  {
    hide Gmtime, Render, Fields;
    SecondsOfMillis(tp);
    SecondsOfMillis(tp');
  }

  lemma SecondsOfMillis(tp: int)
    ensures TruncDiv(tp, NS_PER_S) == TruncDiv(MillisOf(tp), 1000)
  {
  }

  // ------------------------------------------------------------- before the epoch

  lemma {:induction false} RenderLastField(f: seq<int>, g: seq<int>, widths: seq<nat>, seps: string)
    requires |f| == |g| == |widths| == |seps| > 0
    requires f[..|f| - 1] == g[..|f| - 1]
    requires var n := |f| - 1;
             Less(FormatInt(f[n], widths[n]) + [seps[n]], FormatInt(g[n], widths[n]) + [seps[n]])
    ensures Less(Render(f, widths, seps), Render(g, widths, seps))
  {
    var n := |f| - 1;
    if n == 0 {
      assert Render(f, widths, seps) == FormatInt(f[0], widths[0]) + [seps[0]];
      assert Render(g, widths, seps) == FormatInt(g[0], widths[0]) + [seps[0]];
    } else {
      assert f[0] == f[..n][0] == g[0];
      assert f[1..][..n - 1] == f[..n][1..] && g[1..][..n - 1] == g[..n][1..];
      RenderLastField(f[1..], g[1..], widths[1..], seps[1..]);
      LessPrefix(FormatInt(f[0], widths[0]) + [seps[0]], Render(f[1..], widths[1..], seps[1..]),
                 Render(g[1..], widths[1..], seps[1..]));
    }
  }

  /** One and two milliseconds before the epoch: the last field is printed with a sign, so the later instant
      has the lesser string. */
  lemma BeforeTheEpochOrderFails()
    ensures MillisOf(-2_000_000) < MillisOf(-1_000_000)
    ensures Less(Iso8601(-1_000_000), Iso8601(-2_000_000))
  {
    var f, g := PrintedFields(-1_000_000), PrintedFields(-2_000_000);
    SignedMillis();
    RenderLastField(f, g, WIDTHS, SEPARATORS);
  }

  lemma SignedMillis()
    ensures var f, g := PrintedFields(-1_000_000), PrintedFields(-2_000_000); f[..6] == g[..6]
    ensures PrintedFields(-1_000_000)[6] == -1 && PrintedFields(-2_000_000)[6] == -2
    ensures Less(FormatInt(-1, 3) + "Z", FormatInt(-2, 3) + "Z")
  {
    assert Padded(0, 1) == "0";
    assert FormatInt(-1, 3) == "-" + ("0" + "1") == "-01";
    assert FormatInt(-2, 3) == "-" + ("0" + "2") == "-02";
    assert Less("1Z", "2Z");
    LessPrefix("-0", "1Z", "2Z");
    assert "-0" + "1Z" == "-01" + "Z" && "-0" + "2Z" == "-02" + "Z";
  }

  // ------------------------------------------------------------------- after 9999

  lemma YearIs(t: int, y: int)
    requires PosixDays(y, 0) <= t / 86400 < PosixDays(y, 0) + DaysInYear(y)
    ensures Gmtime(t).year == y
  {
    var (year, yday) := YearFrom(1970, t / 86400);
    YearFromCorrect(1970, t / 86400);
    PosixDaysShift(year, yday);
    assert PosixDays(1970, 0) == 0;
    if year < y {
      PosixYearMonotone(year, y);
    } else if year > y {
      PosixYearMonotone(y, year);
    }
  }

  lemma FirstCharOfYear()
    ensures |FormatInt(10000, 4)| > 0 && FormatInt(10000, 4)[0] == '1'
    ensures |FormatInt(9999, 4)| > 0 && FormatInt(9999, 4)[0] == '9'
  {
    assert Padded(10, 1) == Padded(1, 0) + "0";
    assert Padded(1, 0) == "1";
    assert Padded(100, 2) == Padded(10, 1) + "0";
    assert Padded(1000, 3) == Padded(100, 2) + "0";
    assert Padded(10000, 4) == Padded(1000, 3) + "0";
    assert Padded(9, 1) == "9";
    assert Padded(99, 2) == Padded(9, 1) + "9";
    assert Padded(999, 3) == Padded(99, 2) + "9";
    assert Padded(9999, 4) == Padded(999, 3) + "9";
  }

  lemma LeadingChar(tp: int)
    ensures var year := FormatInt(Gmtime(TruncDiv(tp, NS_PER_S)).year, 4);
            |year| > 0 ==> Iso8601(tp) != "" && Iso8601(tp)[0] == year[0]
  {
    hide Gmtime, FormatInt;
  }

  /** The first instant of the year 10000 has a lesser string than the last millisecond of 9999. */
  lemma AfterTheYear9999OrderFails()
    ensures MillisOf((END_OF_9999 - 1) * NS_PER_MS) == END_OF_9999 - 1
    ensures MillisOf(END_OF_9999 * NS_PER_MS) == END_OF_9999
    ensures Less(Iso8601(END_OF_9999 * NS_PER_MS), Iso8601((END_OF_9999 - 1) * NS_PER_MS))
  {
    hide Gmtime, Iso8601, FormatInt;
    var early, late := (END_OF_9999 - 1) * NS_PER_MS, END_OF_9999 * NS_PER_MS;
    YearIs(TruncDiv(early, NS_PER_S), 9999);
    YearIs(TruncDiv(late, NS_PER_S), 10000);
    FirstCharOfYear();
    LeadingChar(early);
    LeadingChar(late);
  }

  // -------------------------------------------------------------- exactly how far it holds

  lemma {:induction false} LessTransitive(a: string, b: string, c: string)
    requires Less(a, b) && Less(b, c)
    ensures Less(a, c)
  {
    if a != "" && a[0] == b[0] == c[0] {
      LessTransitive(a[1..], b[1..], c[1..]);
    }
  }

  lemma MinusOneIsLessThanZero()
    ensures Less(Iso8601(-1_000_000), Iso8601(0))
  {
    hide Gmtime, FormatInt, Less;
    var f, g := PrintedFields(-1_000_000), PrintedFields(0);
    assert f[..6] == g[..6] && f[6] == -1 && g[6] == 0;
    MinusSortsBelowZero();
    RenderLastField(f, g, WIDTHS, SEPARATORS);
  }

  lemma MinusSortsBelowZero()
    ensures Less(FormatInt(-1, 3) + "Z", FormatInt(0, 3) + "Z")
  {
    assert Padded(0, 1) == "0";
    assert FormatInt(-1, 3) == "-" + ("0" + "1") == "-01";
    assert Padded(0, 2) == "00";
    assert FormatInt(0, 3) == "000";
  }

  /** String order is time order between all instants of a range of milliseconds. */
  ghost predicate OrderHoldsOn(lo: int, hi: int) {
    forall tp, tp' :: lo <= MillisOf(tp) <= hi && lo <= MillisOf(tp') <= hi
      ==> (Less(Iso8601(tp), Iso8601(tp')) <==> MillisOf(tp) < MillisOf(tp'))
  }

  /** One millisecond before the epoch still sorts before everything up to the end of 9999. */
  lemma MinusOneIsFirst(tp: int)
    requires 0 <= MillisOf(tp) < END_OF_9999
    ensures Less(Iso8601(-1_000_000), Iso8601(tp)) && !Less(Iso8601(tp), Iso8601(-1_000_000))
  {
    hide Iso8601, Less;
    var canonical := MillisOf(tp) * NS_PER_MS;
    SameMillisSameString(tp, canonical);
    MinusOneIsLessThanZero();
    if MillisOf(tp) == 0 {
      SameMillisSameString(tp, 0);
    } else {
      StringOrderIsTimeOrder(0, canonical);
      LessTransitive(Iso8601(-1_000_000), Iso8601(0), Iso8601(canonical));
    }
    LessIsStrict(Iso8601(-1_000_000), Iso8601(tp));
  }

  lemma OrderBetween(tp: int, tp': int)
    requires -1 <= MillisOf(tp) < END_OF_9999 && -1 <= MillisOf(tp') < END_OF_9999
    ensures Less(Iso8601(tp), Iso8601(tp')) <==> MillisOf(tp) < MillisOf(tp')
  {
    hide Iso8601, Less;
    LessIsStrict(Iso8601(tp), Iso8601(tp));
    if MillisOf(tp) == -1 {
      SameMillisSameString(tp, -1_000_000);
    }
    if MillisOf(tp') == -1 {
      SameMillisSameString(tp', -1_000_000);
    }
    if MillisOf(tp) == -1 < MillisOf(tp') {
      MinusOneIsFirst(tp');
    } else if MillisOf(tp') == -1 < MillisOf(tp) {
      MinusOneIsFirst(tp);
    } else if MillisOf(tp) >= 0 {
      var c, c' := MillisOf(tp) * NS_PER_MS, MillisOf(tp') * NS_PER_MS;
      SameMillisSameString(tp, c);
      SameMillisSameString(tp', c');
      StringOrderIsTimeOrder(c, c');
    }
  }

  /** Over a range of milliseconds around the epoch string order is time order if and only if the range begins
      no earlier than one millisecond before the epoch and ends before the year 10000. */
  lemma StringOrderHoldsOnIff(lo: int, hi: int)
    requires lo <= 0 <= hi
    ensures OrderHoldsOn(lo, hi) <==> lo >= -1 && hi < END_OF_9999
  {
    hide Iso8601, Less;
    if lo >= -1 && hi < END_OF_9999 {
      forall tp, tp' | lo <= MillisOf(tp) <= hi && lo <= MillisOf(tp') <= hi
        ensures Less(Iso8601(tp), Iso8601(tp')) <==> MillisOf(tp) < MillisOf(tp')
      {
        OrderBetween(tp, tp');
      }
    } else if lo < -1 {
      BeforeTheEpochOrderFails();
      assert MillisOf(-1_000_000) == -1 && MillisOf(-2_000_000) == -2;
    } else {
      AfterTheYear9999OrderFails();
      assert MillisOf((END_OF_9999 - 1) * NS_PER_MS) <= hi;
    }
  }
}
