/** The day-number to calendar-date conversion shared by the OCI and Akamai DNS
    adapters, proved equal to walking the Gregorian calendar one day at a time. */
module CivilDate {
  import opened Text

  datatype Date = Date(year: int, month: int, day: int)

  // ---- the reference: the Gregorian calendar, a day at a time ----

  predicate IsLeap(y: int) {
    y % 4 == 0 && (y % 100 != 0 || y % 400 == 0)
  }

  function DaysInMonth(y: int, m: int): int {
    if m == 2 then (if IsLeap(y) then 29 else 28)
    else if m == 4 || m == 6 || m == 9 || m == 11 then 30
    else 31
  }

  predicate ValidDate(c: Date) {
    1 <= c.month <= 12 && 1 <= c.day <= DaysInMonth(c.year, c.month)
  }

  function NextDay(c: Date): Date {
    if c.day < DaysInMonth(c.year, c.month) then Date(c.year, c.month, c.day + 1)
    else if c.month < 12 then Date(c.year, c.month + 1, 1)
    else Date(c.year + 1, 1, 1)
  }

  function PreviousDay(c: Date): Date {
    if c.day > 1 then Date(c.year, c.month, c.day - 1)
    else if c.month > 1 then Date(c.year, c.month - 1, DaysInMonth(c.year, c.month - 1))
    else Date(c.year - 1, 12, 31)
  }

  const EPOCH := Date(1970, 1, 1)

  /** The date `z` days after (before, when negative) 1970-01-01, by counting. */
  function CountedDate(z: int): Date
    decreases if z < 0 then -z else z
  {
    if z == 0 then EPOCH
    else if z > 0 then NextDay(CountedDate(z - 1))
    else PreviousDay(CountedDate(z + 1))
  }

  // ---- the closed form ----

  /** Integer division truncating toward zero, as the source language divides. */
  function TruncatedDiv(a: int, b: int): int
    requires b > 0
  {
    if a >= 0 then a / b else -((-a) / b)
  }

  function Era(z: int): int {
    TruncatedDiv(if z >= 0 then z else z - 146096, 146097)
  }

  function YearOfEra(doe: int): int {
    (doe - doe / 1460 + doe / 36524 - doe / 146096) / 365
  }

  /** Days from the start of an era (1 March of year 0) to 1 March of its year `y`. */
  function YearStart(y: int): int {
    365 * y + y / 4 - y / 100
  }

  function MonthDay(doy: int): (int, int) {
    var mp := (5 * doy + 2) / 153;
    (if mp < 10 then mp + 3 else mp - 9, doy - (153 * mp + 2) / 5 + 1)
  }

  /** The date of day `k` of the year that starts on 1 March of year `y`. */
  function MarchDate(y: int, k: int): Date {
    var (m, d) := MonthDay(k);
    Date(if m <= 2 then y + 1 else y, m, d)
  }

  function DateInEra(era: int, doe: int): Date {
    var yoe := YearOfEra(doe);
    MarchDate(yoe + era * 400, doe - YearStart(yoe))
  }

  function CivilFromDays(days: int): Date {
    var z := days + 719468;
    var era := Era(z);
    DateInEra(era, z - era * 146097)
  }

  /** `days` read in mixed radix: eras of 400 years, centuries, four-year cycles,
      years and days, every year starting on 1 March so that a leap day comes last. */
  ghost predicate Splits(days: int, era: int, c: int, q: int, t: int, k: int) {
    && days + 719468 == 146097 * era + 36524 * c + 1461 * q + 365 * t + k
    && 0 <= c <= 3 && 0 <= q <= 24 && 0 <= t <= 3 && 0 <= k <= 365
    && (k == 365 ==> t == 3 && (q == 24 ==> c == 3))
  }

  lemma SplitExists(days: int) returns (era: int, c: int, q: int, t: int, k: int)
    ensures Splits(days, era, c, q, t, k)
  {
    var z := days + 719468;
    era := z / 146097;
    var doe := z % 146097;
    c := if doe / 36524 < 3 then doe / 36524 else 3;
    var r := doe - 36524 * c;
    q := if r / 1461 < 24 then r / 1461 else 24;
    var s := r - 1461 * q;
    t := if s / 365 < 3 then s / 365 else 3;
    k := s - 365 * t;
  }

  lemma YearOfEraOfSplit(doe: int, c: int, q: int, t: int, k: int)
    requires Splits(doe - 719468, 0, c, q, t, k)
    ensures 0 <= doe < 146097
    ensures YearOfEra(doe) == 100 * c + 4 * q + t
    ensures YearStart(100 * c + 4 * q + t) == doe - k
  {
    var s := 365 * t + k;
    assert doe == 1460 * (25 * c + q) + (24 * c + q + s);
    var x := if 24 * c + q + s >= 1460 then 1 else 0;
    assert doe / 1460 == 25 * c + q + x;
    var w := if doe == 146096 then 1 else 0;
    assert doe / 36524 == c + w;
    assert doe / 146096 == w;
    var e := doe - doe / 1460 + doe / 36524 - doe / 146096;
    assert e == 365 * (100 * c + 4 * q + t) + (k - x);
    var y := 100 * c + 4 * q + t;
    assert y / 4 == 25 * c + q;
    assert y / 100 == c;
  }

  lemma DateInEraOfSplit(era: int, doe: int, c: int, q: int, t: int, k: int)
    requires Splits(doe - 719468, 0, c, q, t, k)
    ensures 0 <= doe < 146097
    ensures DateInEra(era, doe) == MarchDate(400 * era + 100 * c + 4 * q + t, k)
  {
    YearOfEraOfSplit(doe, c, q, t, k);
  }

  lemma EraIsFloor(z: int, era: int)
    requires 146097 * era <= z < 146097 * era + 146097
    ensures Era(z) == era
  {
  }

  lemma InEra(days: int, era: int)
    requires 146097 * era <= days + 719468 < 146097 * era + 146097
    ensures CivilFromDays(days) == DateInEra(era, days + 719468 - 146097 * era)
  {
    EraIsFloor(days + 719468, era);
  }

  lemma ClosedFormOfSplit(days: int, era: int, c: int, q: int, t: int, k: int)
    requires Splits(days, era, c, q, t, k)
    ensures CivilFromDays(days) == MarchDate(400 * era + 100 * c + 4 * q + t, k)
  {
    DateInEraOfSplit(era, days + 719468 - 146097 * era, c, q, t, k);
    InEra(days, era);
  }

  lemma LeapOfSplit(era: int, c: int, q: int, t: int)
    requires 0 <= c <= 3 && 0 <= q <= 24 && 0 <= t <= 3
    ensures IsLeap(400 * era + 100 * c + 4 * q + t + 1) <==> t == 3 && (q == 24 ==> c == 3)
  {
    var y := 400 * era + 100 * c + 4 * q + t + 1;
    assert y == 4 * (100 * era + 25 * c + q) + t + 1;
    if t == 3 {
      assert y == 100 * (4 * era + c) + 4 * (q + 1);
      if q == 24 {
        assert y == 400 * era + 100 * (c + 1);
      }
    }
  }

  lemma MarchSuccessor(y: int, k: int)
    requires 0 <= k <= 365 && (k == 365 ==> IsLeap(y + 1))
    ensures ValidDate(MarchDate(y, k))
    ensures NextDay(MarchDate(y, k)) ==
            if k == 365 || (k == 364 && !IsLeap(y + 1)) then MarchDate(y + 1, 0) else MarchDate(y, k + 1)
  {
    MonthDayIsListed(k);
    MonthDayIsListed(if k < 365 then k + 1 else 0);
    MonthDayIsListed(0);
  }

  /** The months of a year that starts on 1 March. */
  lemma MonthDayIsListed(k: int)
    requires 0 <= k <= 365
    ensures MonthDay(k) ==
            if k < 31 then (3, k + 1) else if k < 61 then (4, k - 30) else if k < 92 then (5, k - 60)
            else if k < 122 then (6, k - 91) else if k < 153 then (7, k - 121) else if k < 184 then (8, k - 152)
            else if k < 214 then (9, k - 183) else if k < 245 then (10, k - 213) else if k < 275 then (11, k - 244)
            else if k < 306 then (12, k - 274) else if k < 337 then (1, k - 305) else (2, k - 336)
  {
    var mp := (5 * k + 2) / 153;
    assert 0 <= mp <= 11;
  }

  lemma NextSplit(days: int, era: int, c: int, q: int, t: int, k: int)
    returns (era': int, c': int, q': int, t': int, k': int)
    requires Splits(days, era, c, q, t, k)
    ensures Splits(days + 1, era', c', q', t', k')
    ensures var lastDay := k == 365 || (k == 364 && !(t == 3 && (q == 24 ==> c == 3)));
            var y, y' := 400 * era + 100 * c + 4 * q + t, 400 * era' + 100 * c' + 4 * q' + t';
            if lastDay then y' == y + 1 && k' == 0 else y' == y && k' == k + 1
  {
    era', c', q', t', k' := era, c, q, t, k + 1;
    if k == 365 || (k == 364 && !(t == 3 && (q == 24 ==> c == 3))) {
      k' := 0;
      if t < 3 {
        t' := t + 1;
      } else if q < 24 {
        t', q' := 0, q + 1;
      } else if c < 3 {
        t', q', c' := 0, 0, c + 1;
      } else {
        t', q', c', era' := 0, 0, 0, era + 1;
      }
    }
  }

  /** Where a day and the day after it fall in their March years. */
  lemma MarchPositions(days: int) returns (y: int, k: int, y': int, k': int)
    ensures CivilFromDays(days) == MarchDate(y, k) && CivilFromDays(days + 1) == MarchDate(y', k')
    ensures 0 <= k <= 365 && (k == 365 ==> IsLeap(y + 1))
    ensures if k == 365 || (k == 364 && !IsLeap(y + 1)) then y' == y + 1 && k' == 0 else y' == y && k' == k + 1
  {
    var era, c, q, t;
    era, c, q, t, k := SplitExists(days);
    var era', c', q', t';
    era', c', q', t', k' := NextSplit(days, era, c, q, t, k);
    ClosedFormOfSplit(days, era, c, q, t, k);
    ClosedFormOfSplit(days + 1, era', c', q', t', k');
    LeapOfSplit(era, c, q, t);
    y, y' := 400 * era + 100 * c + 4 * q + t, 400 * era' + 100 * c' + 4 * q' + t';
  }

  lemma MarchNeighbours(a: Date, b: Date, y: int, k: int, y': int, k': int)
    requires a == MarchDate(y, k) && b == MarchDate(y', k')
    requires 0 <= k <= 365 && (k == 365 ==> IsLeap(y + 1))
    requires if k == 365 || (k == 364 && !IsLeap(y + 1)) then y' == y + 1 && k' == 0 else y' == y && k' == k + 1
    ensures ValidDate(a) && b == NextDay(a)
  {
    MarchSuccessor(y, k);
  }

  lemma DayAfter(days: int)
    ensures ValidDate(CivilFromDays(days))
    ensures CivilFromDays(days + 1) == NextDay(CivilFromDays(days))
  {
    var y, k, y', k' := MarchPositions(days);
    MarchNeighbours(CivilFromDays(days), CivilFromDays(days + 1), y, k, y', k');
  }

  lemma DayBefore(c: Date)
    requires ValidDate(c)
    ensures PreviousDay(NextDay(c)) == c
  {
  }

  ghost predicate StepsFrom(f: int -> Date, days: int) {
    ValidDate(f(days)) && f(days + 1) == NextDay(f(days))
  }

  /** `f` starts at 1970-01-01 and moves to the next calendar day with every step. */
  ghost predicate WalksCalendar(f: int -> Date) {
    f(0) == EPOCH && forall days :: StepsFrom(f, days)
  }

  /** Only counting days walks the calendar. */
  lemma {:induction false} OnlyOneWalk(f: int -> Date, days: int)
    requires WalksCalendar(f)
    ensures f(days) == CountedDate(days)
    decreases if days < 0 then -days else days
  {
    if days > 0 {
      OnlyOneWalk(f, days - 1);
      assert StepsFrom(f, days - 1);
    } else if days < 0 {
      OnlyOneWalk(f, days + 1);
      assert StepsFrom(f, days);
      DayBefore(f(days));
    }
  }

  lemma ClosedFormWalks()
    ensures WalksCalendar(CivilFromDays)
  {
    StartsAtEpoch();
    forall days ensures StepsFrom(CivilFromDays, days) { ClosedFormSteps(days); }
  }

  lemma StartsAtEpoch()
    ensures CivilFromDays(0) == EPOCH
  {
    assert Era(719468) == 4 && YearOfEra(135080) == 369 && YearStart(369) == 134774;
    MonthDayIsListed(306);
  }

  lemma ClosedFormSteps(days: int)
    ensures StepsFrom(CivilFromDays, days)
  {
    DayAfter(days);
  }

  /** The closed form is the calendar: for every day number it gives the date that
      counting days from 1970-01-01 gives. */
  lemma ClosedFormCountsDays(days: int)
    ensures CivilFromDays(days) == CountedDate(days)
  {
    ClosedFormWalks();
    OnlyOneWalk(CivilFromDays, days);
  }

  lemma CountedDateSteps(days: int)
    ensures ValidDate(CountedDate(days))
    ensures CountedDate(days + 1) == NextDay(CountedDate(days))
  {
    ClosedFormCountsDays(days);
    ClosedFormCountsDays(days + 1);
    DayAfter(days);
  }

  predicate Earlier(a: Date, b: Date) {
    a.year < b.year || (a.year == b.year && (a.month < b.month || (a.month == b.month && a.day < b.day)))
  }

  /** Later days have later dates, so no two days share a date. */
  lemma {:induction false} LaterDayLaterDate(a: int, b: int)
    requires a < b
    ensures Earlier(CountedDate(a), CountedDate(b))
    decreases b - a
  {
    CountedDateSteps(b - 1);
    if a < b - 1 {
      LaterDayLaterDate(a, b - 1);
    }
  }

  /** Every date of the calendar is the date of some day. */
  lemma EveryDateIsReached(c: Date) returns (days: int)
    requires ValidDate(c)
    ensures CivilFromDays(days) == c
  {
    var y := if c.month <= 2 then c.year - 1 else c.year;
    var mp := if c.month <= 2 then c.month + 9 else c.month - 3;
    var k := (153 * mp + 2) / 5 + c.day - 1;
    var era, n := y / 400, y % 400;
    var cent, q, t := n / 100, n % 100 / 4, n % 4;
    assert n == 100 * cent + 4 * q + t;
    LeapOfSplit(era, cent, q, t);
    DayOfMarchYear(c, y, k);
    days := 146097 * era + 36524 * cent + 1461 * q + 365 * t + k - 719468;
    ClosedFormOfSplit(days, era, cent, q, t, k);
  }

  lemma DayOfMarchYear(c: Date, y: int, k: int)
    requires ValidDate(c) && y == if c.month <= 2 then c.year - 1 else c.year
    requires k == (153 * (if c.month <= 2 then c.month + 9 else c.month - 3) + 2) / 5 + c.day - 1
    ensures 0 <= k <= 365 && (k == 365 ==> IsLeap(y + 1))
    ensures MarchDate(y, k) == c
  {
  }

  // ---- the IMF-fixdate of section 7.1.1.1 of RFC 7231 ----

  const WEEKDAYS := ["Sun", "Mon", "Tue", "Wed", "Thu", "Fri", "Sat"]
  const MONTHS := ["Jan", "Feb", "Mar", "Apr", "May", "Jun", "Jul", "Aug", "Sep", "Oct", "Nov", "Dec"]

  function Layout(w: string, d: string, m: string, y: string, hh: string, mm: string, ss: string): string {
    w + ", " + d + " " + m + " " + y + " " + hh + ":" + mm + ":" + ss + " GMT"
  }

  /** `{:02}` of a number below a hundred. */
  function TwoDigits(n: nat): string
    requires n < 100
  {
    [Digit(n / 10), Digit(n % 10)]
  }

  function YearText(y: nat): string { PaddedAtLeast(y, 4) }

  function FormatImf(weekday: int, c: Date, secs: nat): string
    requires 0 <= weekday < 7 && ValidDate(c) && c.year >= 0 && secs < 86400
  {
    Layout(WEEKDAYS[weekday], TwoDigits(c.day), MONTHS[c.month - 1], YearText(c.year),
           TwoDigits(secs / 3600), TwoDigits(secs % 3600 / 60), TwoDigits(secs % 60))
  }

  function ImfFixdate(unixSecs: nat): string {
    var days, secs := unixSecs / 86400, unixSecs % 86400;
    DatesFromEpoch(days);
    FormatImf((days + 4) % 7, CivilFromDays(days), secs)
  }

  lemma DatesFromEpoch(days: nat)
    ensures ValidDate(CivilFromDays(days)) && CivilFromDays(days).year >= 1970
  {
    ClosedFormCountsDays(days);
    CountedDateSteps(days);
    if days > 0 { LaterDayLaterDate(0, days); }
  }

  /** The day of the week by counting from Thursday 1970-01-01 (Sunday is 0). */
  function CountedWeekday(days: nat): (w: int)
    ensures 0 <= w < 7
  {
    if days == 0 then 4 else (CountedWeekday(days - 1) + 1) % 7
  }

  lemma NextRemainder(n: nat)
    ensures (n + 1) % 7 == (n % 7 + 1) % 7
  {
    var q, r := n / 7, n % 7;
    assert n + 1 == 7 * q + (r + 1);
    assert r == 6 ==> n + 1 == 7 * (q + 1);
  }

  lemma {:induction false} WeekdayCounts(days: nat)
    ensures (days + 4) % 7 == CountedWeekday(days)
  {
    if days > 0 {
      WeekdayCounts(days - 1);
      NextRemainder(days + 3);
    }
  }

  /** The header shows the counted date, the counted weekday and the second of the day. */
  lemma ImfFixdateShowsCountedDate(unixSecs: nat)
    ensures ValidDate(CountedDate(unixSecs / 86400)) && CountedDate(unixSecs / 86400).year >= 1970
    ensures ImfFixdate(unixSecs) ==
            FormatImf(CountedWeekday(unixSecs / 86400), CountedDate(unixSecs / 86400), unixSecs % 86400)
  {
    var days := unixSecs / 86400;
    DatesFromEpoch(days);
    ClosedFormCountsDays(days);
    WeekdayCounts(days);
  }

  // ---- reading the header ----

  datatype Header = Header(weekday: int, day: int, month: int, year: int, hour: int, minute: int, second: int)

  function WeekdayNumber(s: string): Option<int> {
    if s == "Sun" then Some(0) else if s == "Mon" then Some(1) else if s == "Tue" then Some(2) else if s == "Wed" then Some(3)
    else if s == "Thu" then Some(4) else if s == "Fri" then Some(5) else if s == "Sat" then Some(6) else None
  }

  function MonthNumber(s: string): Option<int> {
    if s == "Jan" then Some(1) else if s == "Feb" then Some(2) else if s == "Mar" then Some(3) else if s == "Apr" then Some(4)
    else if s == "May" then Some(5) else if s == "Jun" then Some(6) else if s == "Jul" then Some(7)
    else if s == "Aug" then Some(8) else if s == "Sep" then Some(9) else if s == "Oct" then Some(10)
    else if s == "Nov" then Some(11) else if s == "Dec" then Some(12) else None
  }

  predicate Digits(s: string) { s != "" && forall i :: 0 <= i < |s| ==> IsDigit(s[i]) }

  /** The fields stand where the format puts them, with its punctuation between them. */
  predicate Punctuated(s: string) {
    var n := |s|;
    n >= 29 && s[3..5] == ", " && s[7] == ' ' && s[11] == ' ' && s[n - 13] == ' ' && s[n - 10] == ':' && s[n - 7] == ':'
    && s[n - 4..] == " GMT"
  }

  /** A reader of the fixed-length date of section 7.1.1.1 of RFC 7231. */
  function ReadImf(s: string): Option<Header> {
    var n := |s|;
    if !Punctuated(s) then None
    else
      var weekday, month := WeekdayNumber(s[..3]), MonthNumber(s[8..11]);
      var day, year, hour, minute, second := s[5..7], s[12..n - 13], s[n - 12..n - 10], s[n - 9..n - 7], s[n - 6..n - 4];
      if weekday.None? || month.None? || !Digits(day) || !Digits(year)
         || !Digits(hour) || !Digits(minute) || !Digits(second) then None
      else Some(Header(weekday.value, Value(day), month.value, Value(year), Value(hour), Value(minute), Value(second)))
  }

  lemma NamesRead(w: int, m: int)
    requires 0 <= w < 7 && 1 <= m <= 12
    ensures WeekdayNumber(WEEKDAYS[w]) == Some(w) && |WEEKDAYS[w]| == 3
    ensures MonthNumber(MONTHS[m - 1]) == Some(m) && |MONTHS[m - 1]| == 3
  {
    WeekdayReads(w);
    MonthReads(m);
  }

  lemma WeekdayReads(w: int)
    requires 0 <= w < 7
    ensures WeekdayNumber(WEEKDAYS[w]) == Some(w) && |WEEKDAYS[w]| == 3
  {
    var s := WEEKDAYS[w];
    assert s[0] == "SMTWTFS"[w] && s[1] == "uouehra"[w] && s[2] == "nneduit"[w];
  }

  lemma MonthReads(m: int)
    requires 1 <= m <= 12
    ensures MonthNumber(MONTHS[m - 1]) == Some(m) && |MONTHS[m - 1]| == 3
  {
    var s := MONTHS[m - 1];
    assert s[0] == "JFMAMJJASOND"[m - 1] && s[1] == "aeapauuuecoe"[m - 1] && s[2] == "nbrrynlgptvc"[m - 1];
  }

  lemma TwoDigitsRead(n: nat)
    requires n < 100
    ensures Digits(TwoDigits(n)) && Value(TwoDigits(n)) == n
  {
    var s := TwoDigits(n);
    assert s[..1] == [Digit(n / 10)] && s[..1][..0] == "";
    assert Value(s[..1]) == n / 10;
  }

  lemma YearReads(y: nat)
    ensures Digits(YearText(y)) && Value(YearText(y)) == y && |YearText(y)| >= 4
  {
    PaddedAtLeastReadsBack(y, 4);
    if y < Pow10(4) { PaddedReadsBack(y, 4); } else { DecimalReadsBack(y); LongDecimal(y); }
  }

  lemma LongDecimal(y: nat)
    requires y >= Pow10(4)
    ensures |Decimal(y)| >= 4
  {
    assert Pow10(4) == 10000;
    assert |Decimal(y / 1000)| >= 1 by { DecimalReadsBack(y / 1000); }
    assert y / 10 / 10 / 10 == y / 1000;
    assert |Decimal(y / 100)| == |Decimal(y / 100 / 10)| + 1 && |Decimal(y / 10)| == |Decimal(y / 10 / 10)| + 1;
  }

  lemma Slice(a: string, b: string, c: string, s: string)
    requires s == a + b + c
    ensures |s| == |a| + |b| + |c| && s[|a|..|a| + |b|] == b
  {}

  /** What stands before and after the year. */
  lemma LayoutEnds(w: string, d: string, m: string, y: string, hh: string, mm: string, ss: string)
    requires |w| == |m| == 3 && |d| == |hh| == |mm| == |ss| == 2
    ensures var s, n := Layout(w, d, m, y, hh, mm, ss), |y|;
            && |s| == 25 + n && s[12..12 + n] == y
            && s[..12] == w + ", " + d + " " + m + " " && s[12 + n..] == " " + hh + ":" + mm + ":" + ss + " GMT"
  {
    var s, head, tail := Layout(w, d, m, y, hh, mm, ss), w + ", " + d + " " + m + " ", " " + hh + ":" + mm + ":" + ss + " GMT";
    assert s == head + y + tail;
    Slice(head, y, tail, s);
  }

  lemma HeadFields(s: string, w: string, d: string, m: string)
    requires |w| == |m| == 3 && |d| == 2 && |s| >= 12 && s[..12] == w + ", " + d + " " + m + " "
    ensures s[..3] == w && s[3..5] == ", " && s[5..7] == d && s[7] == ' ' && s[8..11] == m && s[11] == ' '
  {
    var h := s[..12];
    assert h[..3] == w && h[3..5] == ", " && h[5..7] == d && h[7] == ' ' && h[8..11] == m && h[11] == ' ';
    assert s[..3] == h[..3] && s[3..5] == h[3..5] && s[5..7] == h[5..7] && s[8..11] == h[8..11];
  }

  lemma TailFields(s: string, hh: string, mm: string, ss: string)
    requires |hh| == |mm| == |ss| == 2 && |s| >= 13 && s[|s| - 13..] == " " + hh + ":" + mm + ":" + ss + " GMT"
    ensures var n := |s|;
            && s[n - 13] == ' ' && s[n - 12..n - 10] == hh && s[n - 10] == ':' && s[n - 9..n - 7] == mm
            && s[n - 7] == ':' && s[n - 6..n - 4] == ss && s[n - 4..] == " GMT"
  {
    var n, t := |s|, s[|s| - 13..];
    assert t[0] == ' ' && t[1..3] == hh && t[3] == ':' && t[4..6] == mm && t[6] == ':' && t[7..9] == ss && t[9..] == " GMT";
    assert s[n - 12..n - 10] == t[1..3] && s[n - 9..n - 7] == t[4..6] && s[n - 6..n - 4] == t[7..9] && s[n - 4..] == t[9..];
  }

  lemma LayoutFields(w: string, d: string, m: string, y: string, hh: string, mm: string, ss: string)
    requires |w| == |m| == 3 && |d| == |hh| == |mm| == |ss| == 2 && |y| >= 4
    ensures var s := Layout(w, d, m, y, hh, mm, ss);
            var n := |s|;
            && Punctuated(s) && s[..3] == w && s[5..7] == d && s[8..11] == m && s[12..n - 13] == y
            && s[n - 12..n - 10] == hh && s[n - 9..n - 7] == mm && s[n - 6..n - 4] == ss
  {
    var s := Layout(w, d, m, y, hh, mm, ss);
    LayoutEnds(w, d, m, y, hh, mm, ss);
    HeadFields(s, w, d, m);
    TailFields(s, hh, mm, ss);
  }

  lemma LayoutReads(w: string, d: string, m: string, y: string, hh: string, mm: string, ss: string)
    requires |w| == |m| == 3 && |d| == |hh| == |mm| == |ss| == 2 && |y| >= 4
    requires WeekdayNumber(w).Some? && MonthNumber(m).Some?
    requires Digits(d) && Digits(y) && Digits(hh) && Digits(mm) && Digits(ss)
    ensures ReadImf(Layout(w, d, m, y, hh, mm, ss)) ==
            Some(Header(WeekdayNumber(w).value, Value(d), MonthNumber(m).value, Value(y), Value(hh), Value(mm), Value(ss)))
  {
    LayoutFields(w, d, m, y, hh, mm, ss);
  }

  /** What is written is read: the day by number, the month and weekday by name, the year, hour,
      minute and second. */
  lemma FormatReads(w: int, c: Date, secs: nat)
    requires 0 <= w < 7 && ValidDate(c) && c.year >= 0 && secs < 86400
    ensures ReadImf(FormatImf(w, c, secs)) ==
            Some(Header(w, c.day, c.month, c.year, secs / 3600, secs % 3600 / 60, secs % 60))
  {
    var hh, mm, ss := secs / 3600, secs % 3600 / 60, secs % 60;
    NamesRead(w, c.month);
    TwoDigitsRead(c.day);
    TwoDigitsRead(hh);
    TwoDigitsRead(mm);
    TwoDigitsRead(ss);
    YearReads(c.year);
    LayoutReads(WEEKDAYS[w], TwoDigits(c.day), MONTHS[c.month - 1], YearText(c.year),
                TwoDigits(hh), TwoDigits(mm), TwoDigits(ss));
  }

  /** The header of a second reads as the counted date and weekday of its day and its time of day. */
  lemma ImfFixdateReads(unixSecs: nat) returns (h: Header)
    ensures ReadImf(ImfFixdate(unixSecs)) == Some(h)
    ensures 0 <= h.hour < 24 && 0 <= h.minute < 60 && 0 <= h.second < 60
    ensures var days := unixSecs / 86400;
            && Date(h.year, h.month, h.day) == CountedDate(days) && h.weekday == CountedWeekday(days)
            && unixSecs == 86400 * days + 3600 * h.hour + 60 * h.minute + h.second
  {
    var days, secs := unixSecs / 86400, unixSecs % 86400;
    ImfFixdateShowsCountedDate(unixSecs);
    FormatReads(CountedWeekday(days), CountedDate(days), secs);
    h := ReadImf(ImfFixdate(unixSecs)).value;
    TimeAddsUp(secs);
  }

  lemma TimeAddsUp(secs: nat)
    ensures secs == 3600 * (secs / 3600) + 60 * (secs % 3600 / 60) + secs % 60
  {
    assert secs % 3600 % 60 == secs % 60;
  }

  /** Two different seconds never print the same header. */
  lemma ImfFixdateInjective(a: nat, b: nat)
    requires ImfFixdate(a) == ImfFixdate(b)
    ensures a == b
  {
    var h := ImfFixdateReads(a);
    var h' := ImfFixdateReads(b);
    SameDateSameDay(a / 86400, b / 86400);
  }

  lemma SameDateSameDay(x: int, y: int)
    requires CountedDate(x) == CountedDate(y)
    ensures x == y
  {
    if x < y { LaterDayLaterDate(x, y); } else if y < x { LaterDayLaterDate(y, x); }
  }
}
