/**
 Epochs and dates. Day addition follows the Gregorian calendar from day to day; day
 differences use the closed formula for ordinals. The two meet in OrdinalOfAddDays.
 */
module Calendar {
  import opened FeatureErrors
  import opened Decimal
  import opened TextOrder

  datatype Date = Date(year: nat, month: nat, day: nat)

  const MAX_YEAR: nat := 9999

  predicate IsLeap(y: nat) {
    y % 4 == 0 && (y % 100 != 0 || y % 400 == 0)
  }

  function DaysInMonth(y: nat, m: nat): nat {
    if m == 2 then (if IsLeap(y) then 29 else 28)
    else if m == 4 || m == 6 || m == 9 || m == 11 then 30
    else 31
  }

  predicate IsDate(d: Date) {
    1 <= d.year <= MAX_YEAR && 1 <= d.month <= 12 && 1 <= d.day <= DaysInMonth(d.year, d.month)
  }

  /** The following day, if the year still has four digits. */
  function NextDay(d: Date): Option<Date> {
    if d.day < DaysInMonth(d.year, d.month) then Some(d.(day := d.day + 1))
    else if d.month < 12 then Some(Date(d.year, d.month + 1, 1))
    else if d.year < MAX_YEAR then Some(Date(d.year + 1, 1, 1))
    else None
  }

  function AddDays(d: Date, n: nat): Option<Date> {
    if n == 0 then Some(d)
    else
      match AddDays(d, n - 1)
      case None => None
      case Some(e) => NextDay(e)
  }

  function DaysBeforeYear(y: nat): int
    requires y >= 1
  {
    (y - 1) * 365 + (y - 1) / 4 - (y - 1) / 100 + (y - 1) / 400
  }

  function DaysBeforeMonth(y: nat, m: nat): nat
    requires m >= 1
  {
    if m == 1 then 0 else DaysBeforeMonth(y, m - 1) + DaysInMonth(y, m - 1)
  }

  /** Day 1 is January 1st of year 1. */
  function Ordinal(d: Date): int
    requires IsDate(d)
  {
    DaysBeforeYear(d.year) + DaysBeforeMonth(d.year, d.month) + d.day
  }

  // ---- the two functions of the pipeline ----

  const EPOCH_DATE := Date(2020, 4, 1)

  function FormatDate(d: Date): string {
    Padded(d.year, 4) + Padded(d.month, 2) + Padded(d.day, 2)
  }

  /** An ISO 8601 calendar date in basic format. */
  function ParseDate(s: string): Option<Date> {
    if |s| == 8 && AllDigits(s) then
      var d := Date(ParseNat(s[..4]), ParseNat(s[4..6]), ParseNat(s[6..]));
      if IsDate(d) then Some(d) else None
    else None
  }

  function SnapshotDate(epoch: int): Option<string> {
    if epoch < 1 then None
    else
      match AddDays(EPOCH_DATE, epoch - 1)
      case None => None
      case Some(d) => Some(FormatDate(d))
  }

  function GardenlinuxEpoch(text: string): Option<int> {
    match ParseDate(text)
    case None => None
    case Some(d) =>
      var epoch := Ordinal(d) - Ordinal(EPOCH_DATE) + 1;
      if epoch < 1 then None else Some(epoch)
  }

  // ---- the shell script's arithmetic, in UTC ----

  const START_DATE := Date(2020, 3, 31)

  /** What `--date` prints for a major version. */
  function VersionDate(major: nat): Option<string> {
    match AddDays(START_DATE, major)
    case None => None
    case Some(d) => Some(FormatDate(d))
  }

  /** Digits only, without a dot: a version if below ten million, and a date otherwise. */
  function VersionMajor(input: string): Option<int>
    requires AllDigits(input)
  {
    if ParseNat(input) < 10000000 then Some(ParseNat(input))
    else
      match ParseDate(input)
      case None => None
      case Some(d) => Some(Ordinal(d) - Ordinal(START_DATE))
  }

  // ---- the calendar ----

  lemma YearLength(y: nat)
    requires y >= 1
    ensures DaysBeforeYear(y + 1) == DaysBeforeYear(y) + if IsLeap(y) then 366 else 365
  {
    assert y / 4 == (y - 1) / 4 + if y % 4 == 0 then 1 else 0;
    assert y / 100 == (y - 1) / 100 + if y % 100 == 0 then 1 else 0;
    assert y / 400 == (y - 1) / 400 + if y % 400 == 0 then 1 else 0;
    assert y % 100 == 0 ==> y % 4 == 0 by {
      MultipleOf4(y, 25 * (y / 100));
    }
    assert y % 400 == 0 ==> y % 100 == 0 by {
      MultipleOf100(y, 4 * (y / 400));
    }
  }

  lemma MultipleOf4(y: nat, m: nat)
    ensures y == 4 * m ==> y % 4 == 0
  {
  }

  lemma MultipleOf100(y: nat, m: nat)
    ensures y == 100 * m ==> y % 100 == 0
  {
  }

  lemma MonthsOfYear(y: nat)
    ensures DaysBeforeMonth(y, 1) == 0 && DaysBeforeMonth(y, 2) == 31
    ensures var l := if IsLeap(y) then 1 else 0;
            && DaysBeforeMonth(y, 3) == 59 + l && DaysBeforeMonth(y, 4) == 90 + l
            && DaysBeforeMonth(y, 5) == 120 + l && DaysBeforeMonth(y, 6) == 151 + l
            && DaysBeforeMonth(y, 7) == 181 + l && DaysBeforeMonth(y, 8) == 212 + l
            && DaysBeforeMonth(y, 9) == 243 + l && DaysBeforeMonth(y, 10) == 273 + l
            && DaysBeforeMonth(y, 11) == 304 + l && DaysBeforeMonth(y, 12) == 334 + l
  {
    assert DaysBeforeMonth(y, 3) == DaysBeforeMonth(y, 2) + DaysInMonth(y, 2);
    assert DaysBeforeMonth(y, 5) == DaysBeforeMonth(y, 4) + DaysInMonth(y, 4);
    assert DaysBeforeMonth(y, 7) == DaysBeforeMonth(y, 6) + DaysInMonth(y, 6);
    assert DaysBeforeMonth(y, 9) == DaysBeforeMonth(y, 8) + DaysInMonth(y, 8);
    assert DaysBeforeMonth(y, 11) == DaysBeforeMonth(y, 10) + DaysInMonth(y, 10);
  }

  lemma OrdinalOfNextDay(d: Date)
    requires IsDate(d) && NextDay(d).Some?
    ensures IsDate(NextDay(d).value) && Ordinal(NextDay(d).value) == Ordinal(d) + 1
  {
    if d.day == DaysInMonth(d.year, d.month) && d.month == 12 {
      YearLength(d.year);
      MonthsOfYear(d.year);
    }
  }

  /** The closed formula counts the days that walking the calendar takes. */
  lemma {:induction false} OrdinalOfAddDays(d: Date, n: nat)
    requires IsDate(d) && AddDays(d, n).Some?
    ensures IsDate(AddDays(d, n).value) && Ordinal(AddDays(d, n).value) == Ordinal(d) + n
  {
    if n > 0 {
      OrdinalOfAddDays(d, n - 1);
      OrdinalOfNextDay(AddDays(d, n - 1).value);
    }
  }

  /** Calendar order. */
  predicate Earlier(a: Date, b: Date) {
    a.year < b.year || (a.year == b.year && (a.month < b.month || (a.month == b.month && a.day < b.day)))
  }

  lemma {:induction false} YearsGrow(a: nat, b: nat)
    requires 1 <= a < b
    ensures DaysBeforeYear(a + 1) <= DaysBeforeYear(b)
  {
    if a + 1 < b {
      YearsGrow(a, b - 1);
      YearLength(b - 1);
    }
  }

  lemma {:induction false} MonthsGrow(y: nat, a: nat, b: nat)
    requires 1 <= a < b
    ensures DaysBeforeMonth(y, a) + DaysInMonth(y, a) <= DaysBeforeMonth(y, b)
  {
    if a + 1 < b {
      MonthsGrow(y, a, b - 1);
    }
  }

  lemma WithinYear(d: Date)
    requires IsDate(d)
    ensures DaysBeforeYear(d.year) < Ordinal(d) <= DaysBeforeYear(d.year + 1)
  {
    YearLength(d.year);
    MonthsOfYear(d.year);
  }

  lemma OrdinalsOrdered(a: Date, b: Date)
    requires IsDate(a) && IsDate(b) && Earlier(a, b)
    ensures Ordinal(a) < Ordinal(b)
  {
    if a.year < b.year {
      YearsGrow(a.year, b.year);
      WithinYear(a);
      WithinYear(b);
    } else if a.month < b.month {
      MonthsGrow(a.year, a.month, b.month);
    }
  }

  // ---- the text of a date ----

  lemma Powers()
    ensures Pow10(2) == 100 && Pow10(4) == 10000
  {
    assert Pow10(1) == 10 * Pow10(0) && Pow10(2) == 10 * Pow10(1);
    assert Pow10(3) == 10 * Pow10(2) && Pow10(4) == 10 * Pow10(3);
  }

  lemma FieldsOf(y: string, m: string, d: string)
    requires |y| == 4 && |m| == 2 && |d| == 2
    ensures var s := y + m + d; |s| == 8 && s[..4] == y && s[4..6] == m && s[6..] == d
    ensures AllDigits(y) && AllDigits(m) && AllDigits(d) ==> AllDigits(y + m + d)
  {
  }

  lemma ParseFormat(d: Date)
    requires IsDate(d)
    ensures |FormatDate(d)| == 8 && AllDigits(FormatDate(d)) && ParseDate(FormatDate(d)) == Some(d)
  {
    Powers();
    ParsePadded(d.year, 4);
    ParsePadded(d.month, 2);
    ParsePadded(d.day, 2);
    FieldsOf(Padded(d.year, 4), Padded(d.month, 2), Padded(d.day, 2));
  }

  lemma Refielded(s: string)
    requires |s| == 8
    ensures s[..4] + s[4..6] + s[6..] == s
  {
  }

  lemma FormatParse(s: string)
    requires ParseDate(s).Some?
    ensures FormatDate(ParseDate(s).value) == s
  {
    PaddedParse(s[..4]);
    PaddedParse(s[4..6]);
    PaddedParse(s[6..]);
    Refielded(s);
  }

  lemma {:induction false} LeConcat(a: string, b: string, s: string, t: string)
    requires |a| == |b|
    ensures Le(a + s, b + t) <==> if a == b then Le(s, t) else Le(a, b)
  {
    if a == [] {
      assert a + s == s && b + t == t;
    } else {
      LeConcat(a[1..], b[1..], s, t);
      assert (a + s)[1..] == a[1..] + s && (b + t)[1..] == b[1..] + t;
      assert a == [a[0]] + a[1..] && b == [b[0]] + b[1..];
    }
  }

  /** Numerals of one width compare as their numbers do. */
  lemma {:induction false} LePadded(m: nat, n: nat, w: nat)
    requires m < Pow10(w) && n < Pow10(w)
    ensures Le(Padded(m, w), Padded(n, w)) <==> m <= n
  {
    if w > 0 {
      LePadded(m / 10, n / 10, w - 1);
      LeConcat(Padded(m / 10, w - 1), Padded(n / 10, w - 1), [Digit(m % 10)], [Digit(n % 10)]);
      ParsePadded(m / 10, w - 1);
      ParsePadded(n / 10, w - 1);
      LeDigits(m % 10, n % 10);
      LeByTens(m, n);
    }
  }

  lemma LeDigits(x: nat, y: nat)
    requires x < 10 && y < 10
    ensures Le([Digit(x)], [Digit(y)]) <==> x <= y
  {
  }

  lemma LeByTens(m: nat, n: nat)
    ensures m <= n <==> m / 10 < n / 10 || (m / 10 == n / 10 && m % 10 <= n % 10)
  {
  }

  lemma LeTwo(m: nat, n: nat, s: string, t: string, w: nat)
    requires m < Pow10(w) && n < Pow10(w)
    ensures Le(Padded(m, w) + s, Padded(n, w) + t) <==> m < n || (m == n && Le(s, t))
  {
    LePadded(m, n, w);
    LeConcat(Padded(m, w), Padded(n, w), s, t);
    ParsePadded(m, w);
    ParsePadded(n, w);
  }

  lemma LeFormat(a: Date, b: Date)
    requires IsDate(a) && IsDate(b)
    ensures Le(FormatDate(a), FormatDate(b)) <==> !Earlier(b, a)
  {
    Powers();
    var a1, b1 := Padded(a.month, 2) + Padded(a.day, 2), Padded(b.month, 2) + Padded(b.day, 2);
    LeTwo(a.year, b.year, a1, b1, 4);
    LeTwo(a.month, b.month, Padded(a.day, 2), Padded(b.day, 2), 2);
    LePadded(a.day, b.day, 2);
    assert FormatDate(a) == Padded(a.year, 4) + a1 && FormatDate(b) == Padded(b.year, 4) + b1;
  }

  // ---- the theorems ----

  const LAST_DATE := Date(9999, 12, 31)
  const LAST_EPOCH := 2914544

  lemma LastEpoch(last: Date, first: Date)
    requires IsDate(last) && last.year == 9999 && last.month == 12 && last.day == 31
    requires IsDate(first) && first.year == 2020 && first.month == 4 && first.day == 1
    ensures Ordinal(last) - Ordinal(first) + 1 == LAST_EPOCH
  {
    MonthsOfYear(last.year);
    MonthsOfYear(first.year);
  }

  lemma NoNextDay(d: Date)
    requires IsDate(d)
    ensures NextDay(d).None? <==> d == LAST_DATE
  {
  }

  lemma {:induction false} AddDaysReaches(d: Date, n: nat)
    requires IsDate(d) && Ordinal(d) + n <= Ordinal(LAST_DATE)
    ensures AddDays(d, n).Some?
  {
    if n > 0 {
      AddDaysReaches(d, n - 1);
      OrdinalOfAddDays(d, n - 1);
      NoNextDay(AddDays(d, n - 1).value);
    }
  }

  /** A snapshot date exists for exactly the epochs from 1 up to the last day of year 9999. */
  lemma SnapshotDefinedExactly(epoch: int)
    ensures SnapshotDate(epoch).Some? <==> 1 <= epoch <= LAST_EPOCH
  {
    LastEpoch(LAST_DATE, EPOCH_DATE);
    if 1 <= epoch <= Ordinal(LAST_DATE) - Ordinal(EPOCH_DATE) + 1 {
      AddDaysReaches(EPOCH_DATE, epoch - 1);
    } else if epoch >= 1 && AddDays(EPOCH_DATE, epoch - 1).Some? {
      OrdinalOfAddDays(EPOCH_DATE, epoch - 1);
      var d := AddDays(EPOCH_DATE, epoch - 1).value;
      if d != LAST_DATE {
        OrdinalsOrdered(d, LAST_DATE);
      }
    }
  }

  /** The date of an epoch, and its ordinal. */
  lemma SnapshotDay(epoch: int) returns (d: Date)
    requires SnapshotDate(epoch).Some?
    ensures IsDate(d) && Ordinal(d) == Ordinal(EPOCH_DATE) + epoch - 1
    ensures SnapshotDate(epoch) == Some(FormatDate(d))
  {
    d := AddDays(EPOCH_DATE, epoch - 1).value;
    OrdinalOfAddDays(EPOCH_DATE, epoch - 1);
  }

  /** The epoch of a snapshot date is the epoch it was made from. */
  lemma EpochRoundTrip(epoch: int)
    requires SnapshotDate(epoch).Some?
    ensures GardenlinuxEpoch(SnapshotDate(epoch).value) == Some(epoch)
  {
    var d := SnapshotDay(epoch);
    ParseFormat(d);
  }

  lemma SameOrdinal(d: Date, e: Date)
    requires IsDate(d) && IsDate(e) && Ordinal(d) == Ordinal(e)
    ensures d == e
  {
    if Earlier(e, d) {
      OrdinalsOrdered(e, d);
    } else if Earlier(d, e) {
      OrdinalsOrdered(d, e);
    }
  }

  lemma BeforeLast(d: Date)
    requires IsDate(d)
    ensures Ordinal(d) <= Ordinal(LAST_DATE)
  {
    if d != LAST_DATE {
      OrdinalsOrdered(d, LAST_DATE);
    }
  }

  /** And the snapshot date of a date's epoch is the date. */
  lemma DateRoundTrip(text: string)
    requires GardenlinuxEpoch(text).Some?
    ensures SnapshotDate(GardenlinuxEpoch(text).value) == Some(text)
  {
    var d, epoch := ParseDate(text).value, GardenlinuxEpoch(text).value;
    BeforeLast(d);
    SnapshotDefinedExactly(epoch);
    LastEpoch(LAST_DATE, EPOCH_DATE);
    var e := SnapshotDay(epoch);
    SameOrdinal(d, e);
    FormatParse(text);
  }

  /** Snapshot dates sort as text exactly as their epochs do as numbers. */
  lemma SnapshotsSortAsEpochs(a: int, b: int)
    requires SnapshotDate(a).Some? && SnapshotDate(b).Some?
    ensures Le(SnapshotDate(a).value, SnapshotDate(b).value) <==> a <= b
  {
    var d := SnapshotDay(a);
    var e := SnapshotDay(b);
    LeFormat(d, e);
    if Earlier(d, e) {
      OrdinalsOrdered(d, e);
    } else if Earlier(e, d) {
      OrdinalsOrdered(e, d);
    }
  }

  lemma {:induction false} AddDaysFromNext(d: Date, n: nat)
    requires NextDay(d).Some?
    ensures AddDays(d, n + 1) == AddDays(NextDay(d).value, n)
  {
    if n > 0 {
      AddDaysFromNext(d, n - 1);
    } else {
      assert AddDays(d, 1) == NextDay(AddDays(d, 0).value);
    }
  }

  /** The shell script and the pipeline give an epoch the same date, and the date the same epoch. */
  lemma ScriptAgrees(epoch: int)
    requires epoch >= 1
    ensures VersionDate(epoch) == SnapshotDate(epoch)
    ensures SnapshotDate(epoch).Some? ==>
              AllDigits(SnapshotDate(epoch).value) && VersionMajor(SnapshotDate(epoch).value) == Some(epoch)
  {
    assert NextDay(START_DATE) == Some(EPOCH_DATE);
    AddDaysFromNext(START_DATE, epoch - 1);
    if SnapshotDate(epoch).Some? {
      MajorOfSnapshot(epoch);
    }
  }

  lemma MajorOfSnapshot(epoch: int)
    requires SnapshotDate(epoch).Some?
    ensures AllDigits(SnapshotDate(epoch).value) && VersionMajor(SnapshotDate(epoch).value) == Some(epoch)
  {
    var d := SnapshotDay(epoch);
    assert NextDay(START_DATE) == Some(EPOCH_DATE);
    OrdinalOfNextDay(START_DATE);
    ParseFormat(d);
    YearAtLeast(d);
    NumeralOfDate(d);
  }

  lemma YearAtLeast(d: Date)
    requires IsDate(d) && Ordinal(d) >= Ordinal(EPOCH_DATE)
    ensures d.year >= 2020
  {
    if Earlier(d, EPOCH_DATE) {
      OrdinalsOrdered(d, EPOCH_DATE);
    }
  }

  /** A date with a four-digit year is too large a number to be taken for a version. */
  lemma NumeralOfDate(d: Date)
    requires IsDate(d) && d.year >= 1000
    ensures AllDigits(FormatDate(d)) && ParseNat(FormatDate(d)) >= 10000000
  {
    var s := FormatDate(d);
    ParseFormat(d);
    Powers();
    ParsePadded(d.year, 4);
    FieldsOf(Padded(d.year, 4), Padded(d.month, 2), Padded(d.day, 2));
    Shortened(s, 7);
    Shortened(s, 6);
    Shortened(s, 5);
    Shortened(s, 4);
    assert s[..8] == s;
  }

  lemma Shortened(s: string, k: nat)
    requires AllDigits(s) && k < |s|
    ensures ParseNat(s[..k + 1]) >= 10 * ParseNat(s[..k])
  {
    assert s[..k + 1][..k] == s[..k];
  }

  /** Below ten million, a number is a version and not a date. */
  lemma VersionsBelowLimit(n: nat)
    ensures AllDigits(Itoa(n))
    ensures n < 10000000 ==> VersionMajor(Itoa(n)) == Some(n)
    ensures n >= 10000000 && VersionMajor(Itoa(n)).Some? ==> |Itoa(n)| == 8
  {
    ItoaParse(n);
  }

  /** April 1st of 2020 is day 1 of Garden Linux, and the script counts from the day before. */
  lemma FirstDay() returns (first: string, before: string)
    ensures first == "20200401" && SnapshotDate(1) == Some(first) && GardenlinuxEpoch(first) == Some(1)
    ensures before == "20200331" && GardenlinuxEpoch(before) == None && SnapshotDate(0) == None
    ensures VersionDate(0) == Some(before) && AllDigits(before) && VersionMajor(before) == Some(0)
  {
    first, before := FormatDate(EPOCH_DATE), FormatDate(START_DATE);
    FirstTexts();
    ParseFormat(EPOCH_DATE);
    ParseFormat(START_DATE);
    NumeralOfDate(START_DATE);
    assert NextDay(START_DATE) == Some(EPOCH_DATE);
    OrdinalOfNextDay(START_DATE);
  }

  lemma FirstTexts()
    ensures FormatDate(EPOCH_DATE) == "20200401" && FormatDate(START_DATE) == "20200331"
  {
    assert Padded(2020, 4) == "2020" && Padded(4, 2) == "04" && Padded(1, 2) == "01";
    assert Padded(3, 2) == "03" && Padded(31, 2) == "31";
  }

  /** Thirty days hath September; every fourth year is a leap year, but only every fourth century. */
  lemma GregorianMonths(y: nat)
    ensures DaysInMonth(y, 1) == DaysInMonth(y, 3) == DaysInMonth(y, 5) == DaysInMonth(y, 7) == 31
    ensures DaysInMonth(y, 8) == DaysInMonth(y, 10) == DaysInMonth(y, 12) == 31
    ensures DaysInMonth(y, 4) == DaysInMonth(y, 6) == DaysInMonth(y, 9) == DaysInMonth(y, 11) == 30
    ensures DaysInMonth(y, 2) == 28 || DaysInMonth(y, 2) == 29
    ensures y % 4 != 0 ==> DaysInMonth(y, 2) == 28
    ensures y % 4 == 0 && y % 100 != 0 ==> DaysInMonth(y, 2) == 29
    ensures DaysInMonth(2000, 2) == 29 && DaysInMonth(1900, 2) == DaysInMonth(2100, 2) == 28
  {
  }

  /** Days known from elsewhere: the first of January 1970, and two around a century that has no leap day. */
  lemma KnownOrdinals(d: Date)
    requires IsDate(d)
    ensures d.year == 1 && d.month == 1 && d.day == 1 ==> Ordinal(d) == 1
    ensures d.year == 1970 && d.month == 1 && d.day == 1 ==> Ordinal(d) == 719163
    ensures d.year == 2100 && d.month == 2 && d.day == 28 ==> Ordinal(d) == 766703
    ensures d.year == 2100 && d.month == 3 && d.day == 1 ==> Ordinal(d) == 766704
  {
    MonthsOfYear(d.year);
  }
}
