/**
 * Calendar dates as Python's `datetime` sees them: `strptime` with the
 * formats `%m/%d/%Y` and `%Y%m%d`, `strftime('%Y%m%d')`, day ordinals, and
 * the two date validators of frbny_parser.py.
 *
 * `strptime` compiles each format to a regular expression whose directives
 * are alternations tried in order (`%m` is `1[0-2]|0[1-9]|[1-9]`, `%d` is
 * `3[01]|[12]\d|0[1-9]|[1-9]| [1-9]`, `%Y` is four digits), matches it at
 * the start of the string, and then fails when characters remain or when the
 * fields do not form a real date. The functions below follow that order.
 */
module Dates {
  import opened Maybe
  import opened Text

  datatype Date = Date(year: int, month: int, day: int)

  // ---------------------------------------------------------------------------
  // The proleptic Gregorian calendar

  predicate IsLeap(y: int) {
    y % 4 == 0 && (y % 100 != 0 || y % 400 == 0)
  }

  function DaysInMonth(y: int, m: int): int {
    if m == 2 then (if IsLeap(y) then 29 else 28)
    else if m == 4 || m == 6 || m == 9 || m == 11 then 30
    else 31
  }

  function DaysInYear(y: int): int {
    if IsLeap(y) then 366 else 365
  }

  /** A date `datetime` can represent (years 1 to 9999). */
  predicate ValidDate(d: Date) {
    1 <= d.year <= 9999 && 1 <= d.month <= 12 && 1 <= d.day <= DaysInMonth(d.year, d.month)
  }

  /** Comparison of `datetime` values at midnight: lexicographic on (year, month, day). */
  predicate Before(a: Date, b: Date) {
    a.year < b.year
    || (a.year == b.year && a.month < b.month)
    || (a.year == b.year && a.month == b.month && a.day < b.day)
  }

  predicate NotAfter(a: Date, b: Date) {
    Before(a, b) || a == b
  }

  /** Days in the years before `y`, as Python's `_days_before_year`. */
  function DaysBeforeYear(y: int): int
    requires y >= 1
  {
    var n := y - 1;
    n * 365 + n / 4 - n / 100 + n / 400
  }

  /** Days in the months of year `y` before month `m`. */
  function DaysBeforeMonth(y: int, m: int): int
    requires 1 <= m <= 13
  {
    if m == 1 then 0 else DaysBeforeMonth(y, m - 1) + DaysInMonth(y, m - 1)
  }

  /** `date.toordinal()`: 1 January of year 1 is day 1. */
  function Ordinal(d: Date): int
    requires ValidDate(d)
  {
    DaysBeforeYear(d.year) + DaysBeforeMonth(d.year, d.month) + d.day
  }

  /** `(b - a).days` */
  function DaysBetween(a: Date, b: Date): int
    requires ValidDate(a) && ValidDate(b)
  {
    Ordinal(b) - Ordinal(a)
  }

  // ---------------------------------------------------------------------------
  // strptime

  /** Alternative `k` of `%m` at position `p`: the month and the end of the match. */
  function MonthAlt(s: string, p: nat, k: nat): Option<(int, nat)> {
    if k == 0 then
      (if p + 2 <= |s| && s[p] == '1' && '0' <= s[p + 1] <= '2' then Some((10 + DigitValue(s[p + 1]), p + 2)) else None)
    else if k == 1 then
      (if p + 2 <= |s| && s[p] == '0' && '1' <= s[p + 1] <= '9' then Some((DigitValue(s[p + 1]), p + 2)) else None)
    else if k == 2 then
      (if p + 1 <= |s| && '1' <= s[p] <= '9' then Some((DigitValue(s[p]), p + 1)) else None)
    else None
  }

  /** Alternative `k` of `%d` at position `p`: the day and the end of the match. */
  function DayAlt(s: string, p: nat, k: nat): Option<(int, nat)> {
    if k == 0 then
      (if p + 2 <= |s| && s[p] == '3' && '0' <= s[p + 1] <= '1' then Some((30 + DigitValue(s[p + 1]), p + 2)) else None)
    else if k == 1 then
      (if p + 2 <= |s| && '1' <= s[p] <= '2' && IsDigit(s[p + 1])
       then Some((10 * DigitValue(s[p]) + DigitValue(s[p + 1]), p + 2)) else None)
    else if k == 2 then
      (if p + 2 <= |s| && s[p] == '0' && '1' <= s[p + 1] <= '9' then Some((DigitValue(s[p + 1]), p + 2)) else None)
    else if k == 3 then
      (if p + 1 <= |s| && '1' <= s[p] <= '9' then Some((DigitValue(s[p]), p + 1)) else None)
    else if k == 4 then
      (if p + 2 <= |s| && s[p] == ' ' && '1' <= s[p + 1] <= '9' then Some((DigitValue(s[p + 1]), p + 2)) else None)
    else None
  }

  /** `%Y` at position `p`: exactly four digits. */
  function YearAt(s: string, p: nat): Option<(int, nat)> {
    if p + 4 <= |s| && AllDigits(s[p..p + 4]) then Some((DigitsValue(s[p..p + 4]), p + 4)) else None
  }

  /** The fields a format's regular expression captured and where its match ends. */
  datatype Fields = Fields(year: int, month: int, day: int, end: nat)

  /** The regular expression of `%m/%d/%Y`, trying month alternatives from `k` on. */
  function SlashMonth(s: string, k: nat): Option<Fields>
    decreases 3 - k
  {
    if k >= 3 then None
    else
      var r := match MonthAlt(s, 0, k)
        case None => None
        case Some(me) => if me.1 < |s| && s[me.1] == '/' then SlashDay(s, me.1 + 1, me.0, 0) else None;
      if r.Some? then r else SlashMonth(s, k + 1)
  }

  /** The rest of `%m/%d/%Y` after the month, trying day alternatives from `k` on. */
  function SlashDay(s: string, p: nat, month: int, k: nat): Option<Fields>
    decreases 5 - k
  {
    if k >= 5 then None
    else
      var r := match DayAlt(s, p, k)
        case None => None
        case Some(de) =>
          if de.1 < |s| && s[de.1] == '/' then
            match YearAt(s, de.1 + 1)
            case None => None
            case Some(ye) => Some(Fields(ye.0, month, de.0, ye.1))
          else None;
      if r.Some? then r else SlashDay(s, p, month, k + 1)
  }

  /** The regular expression of `%Y%m%d`, trying month alternatives from `k` on. */
  function CompactMonth(s: string, year: int, k: nat): Option<Fields>
    decreases 3 - k
  {
    if k >= 3 then None
    else
      var r := match MonthAlt(s, 4, k)
        case None => None
        case Some(me) => CompactDay(s, me.1, year, me.0, 0);
      if r.Some? then r else CompactMonth(s, year, k + 1)
  }

  /** The day of `%Y%m%d`: the first day alternative that matches. */
  function CompactDay(s: string, p: nat, year: int, month: int, k: nat): Option<Fields>
    decreases 5 - k
  {
    if k >= 5 then None
    else match DayAlt(s, p, k)
      case Some(de) => Some(Fields(year, month, de.0, de.1))
      case None => CompactDay(s, p, year, month, k + 1)
  }

  /** What `strptime` returns once the regular expression has matched. */
  function Finish(s: string, f: Option<Fields>): (r: Option<Date>)
    ensures r.Some? ==> ValidDate(r.value)
  {
    match f
    case None => None
    case Some(x) =>
      var d := Date(x.year, x.month, x.day);
      if x.end == |s| && ValidDate(d) then Some(d) else None
  }

  /** `datetime.strptime(s, '%m/%d/%Y')`; `None` where it raises `ValueError`. */
  function ParseSlashDate(s: string): (r: Option<Date>)
    ensures r.Some? ==> ValidDate(r.value)
  {
    Finish(s, SlashMonth(s, 0))
  }

  /** `datetime.strptime(s, '%Y%m%d')`; `None` where it raises `ValueError`. */
  function ParseCompactDate(s: string): (r: Option<Date>)
    ensures r.Some? ==> ValidDate(r.value)
  {
    match YearAt(s, 0)
    case None => None
    case Some(ye) => Finish(s, CompactMonth(s, ye.0, 0))
  }

  // ---------------------------------------------------------------------------
  // strftime

  /** `d.strftime('%Y%m%d')` */
  function Compact(d: Date): (r: string)
    requires ValidDate(d)
    ensures |r| == 8 && AllDigits(r)
  {
    Padded(d.year, 4) + Padded(d.month, 2) + Padded(d.day, 2)
  }

  /** `d.strftime('%m/%d/%Y')`: the zero-padded form of a slash date. */
  function SlashPadded(d: Date): string
    requires ValidDate(d)
  {
    Padded(d.month, 2) + "/" + Padded(d.day, 2) + "/" + Padded(d.year, 4)
  }

  /** `str(int(d.strftime('%Y%m%d')))`: the release-date string. */
  function ReleaseString(d: Date): (r: string)
    requires ValidDate(d)
    ensures |r| >= 1 && AllDigits(r)
  {
    DecimalString(DigitsValue(Compact(d)))
  }

  // ---------------------------------------------------------------------------
  // The validators of frbny_parser.py

  /** `_validate_and_convert_date_pair`: both strings parse as `%m/%d/%Y`,
      neither year is before `currentYear`, the end is not before the start
      and the range spans 1 to 365 days. */
  predicate DatePairAccepted(start: string, end: string, currentYear: int) {
    match (ParseSlashDate(start), ParseSlashDate(end))
    case (Some(a), Some(b)) =>
      a.year >= currentYear && b.year >= currentYear
      && NotAfter(a, b) && 1 <= DaysBetween(a, b) <= 365
    case _ => false
  }

  /** `_is_reasonable_release_date`: the string parses as `%Y%m%d` and lies
      between 1 January of last year and 31 December two years ahead; building
      either bound outside years 1 to 9999 raises, which rejects. */
  predicate ReasonableReleaseDate(s: string, today: Date) {
    match ParseCompactDate(s)
    case None => false
    case Some(d) =>
      1 <= today.year - 1 && today.year + 2 <= 9999
      && NotAfter(Date(today.year - 1, 1, 1), d) && NotAfter(d, Date(today.year + 2, 12, 31))
  }

  // ---------------------------------------------------------------------------
  // Lemmas: ordinals agree with the calendar order

  lemma DivStep(n: int, k: int)
    requires n >= 1 && k >= 1
    ensures n / k - (n - 1) / k == (if n % k == 0 then 1 else 0)
  {
    var q := (n - 1) / k;
    var r := (n - 1) % k;
    ModUnique(n - 1, k, q, r);
    if r == k - 1 {
      ModUnique(n, k, q + 1, 0);
    } else {
      ModUnique(n, k, q, r + 1);
    }
  }

  lemma DaysBeforeYearStep(y: int)
    requires y >= 1
    ensures DaysBeforeYear(y + 1) == DaysBeforeYear(y) + DaysInYear(y)
  {
    DivStep(y, 4);
    DivStep(y, 100);
    DivStep(y, 400);
    if y % 400 == 0 {
      MultipleOfFactor(y, 100, 4);
      MultipleOfFactor(y, 4, 100);
    } else if y % 100 == 0 {
      MultipleOfFactor(y, 4, 25);
    }
  }

  /** A multiple of `k * m` is a multiple of `k`. */
  lemma MultipleOfFactor(y: int, k: int, m: int)
    requires k > 0 && m > 0 && y % (k * m) == 0
    ensures y % k == 0
  {
    var q := y / (k * m);
    assert y == (k * m) * q;
    assert y == k * (m * q);
    ModUnique(y, k, m * q, 0);
  }

  lemma {:induction false} DaysBeforeYearMonotone(a: int, b: int)
    requires 1 <= a <= b
    ensures DaysBeforeYear(a) + 365 * (b - a) <= DaysBeforeYear(b)
    decreases b - a
  {
    if a < b {
      DaysBeforeYearStep(a);
      DaysBeforeYearMonotone(a + 1, b);
    }
  }

  lemma DaysBeforeMonthMonotone(y: int, m: int, n: int)
    requires 1 <= m <= n <= 13
    ensures DaysBeforeMonth(y, m) + (n - m) * 28 <= DaysBeforeMonth(y, n)
    decreases n - m
  {
    if m < n {
      DaysBeforeMonthMonotone(y, m, n - 1);
    }
  }

  lemma DaysBeforeMonthWholeYear(y: int)
    ensures DaysBeforeMonth(y, 13) == DaysInYear(y)
  {
    var feb := DaysInMonth(y, 2);
    assert DaysBeforeMonth(y, 2) == 31;
    assert DaysBeforeMonth(y, 3) == 31 + feb;
    assert DaysBeforeMonth(y, 4) == 62 + feb;
    assert DaysBeforeMonth(y, 5) == 92 + feb;
    assert DaysBeforeMonth(y, 6) == 123 + feb;
    assert DaysBeforeMonth(y, 7) == 153 + feb;
    assert DaysBeforeMonth(y, 8) == 184 + feb;
    assert DaysBeforeMonth(y, 9) == 215 + feb;
    assert DaysBeforeMonth(y, 10) == 245 + feb;
    assert DaysBeforeMonth(y, 11) == 276 + feb;
    assert DaysBeforeMonth(y, 12) == 306 + feb;
  }

  /** Later dates have larger ordinals. */
  lemma OrdinalMonotone(a: Date, b: Date)
    requires ValidDate(a) && ValidDate(b)
    requires Before(a, b)
    ensures Ordinal(a) < Ordinal(b)
  {
    if a.year < b.year {
      DaysBeforeMonthMonotone(a.year, a.month + 1, 13);
      DaysBeforeMonthMonotone(b.year, 1, b.month);
      DaysBeforeMonthWholeYear(a.year);
      DaysBeforeYearStep(a.year);
      DaysBeforeYearMonotone(a.year + 1, b.year);
      assert DaysBeforeMonth(a.year, a.month + 1) == DaysBeforeMonth(a.year, a.month) + DaysInMonth(a.year, a.month);
    } else if a.month < b.month {
      DaysBeforeMonthMonotone(a.year, a.month + 1, b.month);
    }
  }

  /** The calendar order and the ordinal order are the same order. */
  lemma OrdinalOrder(a: Date, b: Date)
    requires ValidDate(a) && ValidDate(b)
    ensures Before(a, b) <==> Ordinal(a) < Ordinal(b)
    ensures a == b <==> Ordinal(a) == Ordinal(b)
  {
    if Before(a, b) {
      OrdinalMonotone(a, b);
    } else if Before(b, a) {
      OrdinalMonotone(b, a);
    }
  }

  /** What `_validate_and_convert_date_pair` accepts: the ordering test is
      implied by the span test, so acceptance is exactly "both parse, both
      years are current or later, and the end is 1 to 365 days after the
      start"; an accepted range therefore ends strictly after it starts. */
  lemma DatePairAcceptedMeans(start: string, end: string, currentYear: int)
    ensures DatePairAccepted(start, end, currentYear) <==>
      (ParseSlashDate(start).Some? && ParseSlashDate(end).Some?
       && ParseSlashDate(start).value.year >= currentYear
       && ParseSlashDate(end).value.year >= currentYear
       && 1 <= DaysBetween(ParseSlashDate(start).value, ParseSlashDate(end).value) <= 365)
    ensures DatePairAccepted(start, end, currentYear) ==>
      Before(ParseSlashDate(start).value, ParseSlashDate(end).value)
  {
    if ParseSlashDate(start).Some? && ParseSlashDate(end).Some? {
      OrdinalOrder(ParseSlashDate(start).value, ParseSlashDate(end).value);
    }
  }

  /** What `_is_reasonable_release_date` accepts: a parseable date whose year
      is last year, this year, or one of the next two. */
  lemma ReasonableMeansYearWindow(s: string, today: Date)
    requires ValidDate(today) && 2 <= today.year <= 9997
    ensures ReasonableReleaseDate(s, today) <==>
      (ParseCompactDate(s).Some? && today.year - 1 <= ParseCompactDate(s).value.year <= today.year + 2)
  {
  }

  // ---------------------------------------------------------------------------
  // Lemmas: rendering and parsing back

  /** The digits of a two-digit padded field. */
  lemma PaddedTwo(n: nat)
    requires n < 100
    ensures Padded(n, 2) == [DigitChar(n / 10), DigitChar(n % 10)]
  {
    var q := n / 10;
    assert q < 10;
    assert Padded(n, 2) == Padded(q, 1) + [DigitChar(n % 10)];
    assert Padded(q, 1) == Padded(q / 10, 0) + [DigitChar(q % 10)];
    assert q % 10 == q;
  }

  /** A two-digit month field is read by its first matching `%m` alternative. */
  lemma MonthField(s: string, p: nat, mm: int)
    requires 1 <= mm <= 12 && p + 2 <= |s|
    requires s[p] == DigitChar(mm / 10) && s[p + 1] == DigitChar(mm % 10)
    ensures mm >= 10 ==> MonthAlt(s, p, 0) == Some((mm, p + 2))
    ensures mm < 10 ==> MonthAlt(s, p, 0).None? && MonthAlt(s, p, 1) == Some((mm, p + 2))
  {
  }

  /** A two-digit day field is read whole by its first matching `%d` alternative. */
  lemma DayField(s: string, p: nat, dd: int)
    requires 1 <= dd <= 31 && p + 2 <= |s|
    requires s[p] == DigitChar(dd / 10) && s[p + 1] == DigitChar(dd % 10)
    ensures dd >= 30 ==> DayAlt(s, p, 0) == Some((dd, p + 2))
    ensures 10 <= dd < 30 ==> DayAlt(s, p, 0).None? && DayAlt(s, p, 1) == Some((dd, p + 2))
    ensures dd < 10 ==> DayAlt(s, p, 0).None? && DayAlt(s, p, 1).None? && DayAlt(s, p, 2) == Some((dd, p + 2))
  {
  }

  lemma CompactDayField(s: string, p: nat, year: int, month: int, dd: int)
    requires 1 <= dd <= 31 && p + 2 <= |s|
    requires s[p] == DigitChar(dd / 10) && s[p + 1] == DigitChar(dd % 10)
    ensures CompactDay(s, p, year, month, 0) == Some(Fields(year, month, dd, p + 2))
  {
    DayField(s, p, dd);
  }

  lemma SlashDayField(s: string, p: nat, year: int, month: int, dd: int)
    requires 1 <= dd <= 31 && p + 2 < |s| && s[p + 2] == '/'
    requires s[p] == DigitChar(dd / 10) && s[p + 1] == DigitChar(dd % 10)
    requires YearAt(s, p + 3) == Some((year, p + 7))
    ensures SlashDay(s, p, month, 0) == Some(Fields(year, month, dd, p + 7))
  {
    DayField(s, p, dd);
  }

  /** Four padded digits read back as the year. */
  lemma YearField(s: string, p: nat, y: int)
    requires 1 <= y <= 9999 && p + 4 <= |s| && s[p..p + 4] == Padded(y, 4)
    ensures YearAt(s, p) == Some((y, p + 4))
  {
    PaddedValue(y, 4);
    assert Power10(4) == 10000;
    assert y % 10000 == y;
    assert AllDigits(s[p..p + 4]);
  }

  /** Every valid date survives `strftime('%Y%m%d')` followed by `strptime`. */
  lemma CompactRoundTrip(d: Date)
    requires ValidDate(d)
    ensures ParseCompactDate(Compact(d)) == Some(d)
  {
    var s := Compact(d);
    assert s[0..4] == Padded(d.year, 4);
    YearField(s, 0, d.year);
    PaddedTwo(d.month);
    PaddedTwo(d.day);
    assert s[4] == DigitChar(d.month / 10) && s[5] == DigitChar(d.month % 10);
    assert s[6] == DigitChar(d.day / 10) && s[7] == DigitChar(d.day % 10);
    CompactDayField(s, 6, d.year, d.month, d.day);
    MonthField(s, 4, d.month);
    assert CompactMonth(s, d.year, 0) == Some(Fields(d.year, d.month, d.day, 8));
  }

  /** Every valid date survives `strftime('%m/%d/%Y')` followed by `strptime`. */
  lemma SlashRoundTrip(d: Date)
    requires ValidDate(d)
    ensures ParseSlashDate(SlashPadded(d)) == Some(d)
  {
    var s := SlashPadded(d);
    PaddedTwo(d.month);
    PaddedTwo(d.day);
    assert s[0] == DigitChar(d.month / 10) && s[1] == DigitChar(d.month % 10) && s[2] == '/';
    assert s[3] == DigitChar(d.day / 10) && s[4] == DigitChar(d.day % 10) && s[5] == '/';
    assert s[6..10] == Padded(d.year, 4);
    YearField(s, 6, d.year);
    SlashDayField(s, 3, d.year, d.month, d.day);
    MonthField(s, 0, d.month);
    assert SlashMonth(s, 0) == Some(Fields(d.year, d.month, d.day, 10));
  }

  /** For years 1000 to 9999, dropping leading zeros with `int()` changes
      nothing: the release string is the eight-digit `strftime` form. */
  lemma ReleaseStringIsCompact(d: Date)
    requires ValidDate(d) && d.year >= 1000
    ensures ReleaseString(d) == Compact(d)
  {
    var s := Compact(d);
    var ys := Padded(d.year, 4);
    PaddedValue(d.year, 4);
    assert s[0] == ys[0];
    if ys[0] == '0' {
      LeadingZeroBound(ys);
      assert false;
    }
    CanonicalDigits(s);
  }

  /** A field wide enough for its number reads back as that number. */
  lemma PaddedExact(n: nat, w: nat)
    requires n < Power10(w)
    ensures DigitsValue(Padded(n, w)) == n
  {
    PaddedValue(n, w);
  }

  /** `int(d.strftime('%Y%m%d'))` is the number yyyymmdd, and so is the
      integer the release string is turned back into. */
  lemma ReleaseStringValue(d: Date)
    requires ValidDate(d)
    ensures DigitsValue(Compact(d)) == d.year * 10000 + d.month * 100 + d.day
    ensures DigitsValue(ReleaseString(d)) == d.year * 10000 + d.month * 100 + d.day
  {
    var y := Padded(d.year, 4);
    var m := Padded(d.month, 2);
    var dd := Padded(d.day, 2);
    assert Power10(2) == 100 && Power10(4) == 10000;
    PaddedExact(d.year, 4);
    PaddedExact(d.month, 2);
    PaddedExact(d.day, 2);
    DigitsValueAppend(y, m);
    DigitsValueAppend(y + m, dd);
    var v := DigitsValue(Compact(d));
    assert v == (d.year * 100 + d.month) * 100 + d.day;
    DecimalRoundTrip(v);
  }

  /** A release string parses back to its date under `%Y%m%d`. */
  lemma ReleaseStringParses(d: Date)
    requires ValidDate(d) && d.year >= 1000
    ensures ParseCompactDate(ReleaseString(d)) == Some(d)
  {
    ReleaseStringIsCompact(d);
    CompactRoundTrip(d);
  }
}
