/** Timestamp formatting: `src/shell/fmt.rs`.

    `DaysToYmd` is the division formula of the source.  It is proved to be the
    n-fold iterate of the Gregorian next-day rule (ISO 8601:2004, 3.2.1) from
    1970-01-01, and to be the inverse of a day count that sums year and month
    lengths. */
module Calendar {
  import opened Options

  datatype Date = Date(year: nat, month: nat, day: nat)

  // ---- The formula of the source, over unbounded naturals ----

  /** Year of a 400-year era that starts on 1 March, from the day of the era. */
  function YearOfEra(doe: nat): int {
    (doe - doe / 1460 + doe / 36524 - doe / 146096) / 365
  }

  /** Month and day from the day of a year that starts on 1 March. */
  function MonthDay(doy: nat): (md: (nat, nat))
    requires doy <= 365
    ensures 1 <= md.0 <= 12
  {
    var mp := (5 * doy + 2) / 153;
    (if mp < 10 then mp + 3 else mp - 9, doy - (153 * mp + 2) / 5 + 1)
  }

  function DaysToYmd(days: nat): Date {
    var z := days + 719468;
    var era := z / 146097;
    var doe := z % 146097;
    YearOfEraBounds(doe);
    var yoe := YearOfEra(doe);
    var y := yoe + era * 400;
    var doy := doe - (365 * yoe + yoe / 4 - yoe / 100);
    var (mo, d) := MonthDay(doy);
    Date(if mo <= 2 then y + 1 else y, mo, d)
  }

  // ---- The Gregorian calendar, stated on its own ----

  predicate Leap(y: nat) {
    y % 4 == 0 && (y % 100 == 0 ==> y % 400 == 0)
  }

  function MonthLength(y: nat, m: nat): nat {
    if m == 2 then (if Leap(y) then 29 else 28)
    else if m == 4 || m == 6 || m == 9 || m == 11 then 30
    else 31
  }

  predicate ValidDate(d: Date) {
    1 <= d.month <= 12 && 1 <= d.day <= MonthLength(d.year, d.month)
  }

  function NextDay(d: Date): Date {
    if d.day < MonthLength(d.year, d.month) then Date(d.year, d.month, d.day + 1)
    else if d.month < 12 then Date(d.year, d.month + 1, 1)
    else Date(d.year + 1, 1, 1)
  }

  const EPOCH := Date(1970, 1, 1)

  function AfterDays(n: nat): Date {
    if n == 0 then EPOCH else NextDay(AfterDays(n - 1))
  }

  /** Calendar order. */
  predicate Earlier(a: Date, b: Date) {
    a.year < b.year || (a.year == b.year &&
                        (a.month < b.month || (a.month == b.month && a.day < b.day)))
  }

  // ---- A day count that sums lengths ----

  function YearLength(y: nat): nat {
    if Leap(y) then 366 else 365
  }

  function DaysBeforeYear(y: nat): nat
    requires y >= 1970
  {
    if y == 1970 then 0 else DaysBeforeYear(y - 1) + YearLength(y - 1)
  }

  function DaysBeforeMonth(y: nat, m: nat): nat {
    if m <= 1 then 0 else DaysBeforeMonth(y, m - 1) + MonthLength(y, m - 1)
  }

  function YmdToDays(d: Date): int
    requires d.year >= 1970
  {
    DaysBeforeYear(d.year) + DaysBeforeMonth(d.year, d.month) + d.day - 1
  }

  // ---- The division formula inside one 400-year era ----

  /** First day of year `y` of an era. */
  function YearStart(y: nat): int {
    365 * y + y / 4 - y / 100
  }

  function MarchYearLength(y: nat): nat {
    if Leap(y + 1) then 366 else 365
  }

  lemma YearOfEraDigits(c: nat, q: nat, u: nat)
    requires c <= 3 && q <= 24 && u <= 1460
    requires 1461 * q + u <= 36523 || (c == 3 && 1461 * q + u == 36524)
    ensures YearOfEra(36524 * c + 1461 * q + u) == 100 * c + 4 * q + (if u == 1460 then 3 else u / 365)
  {
    var doe := 36524 * c + 1461 * q + u;
    var e := if 24 * c + q + u >= 1460 then 1 else 0;
    assert doe / 1460 == 25 * c + q + e;
    assert doe / 36524 - doe / 146096 == c;
    assert (u - e) / 365 == if u == 1460 then 3 else u / 365;
  }

  lemma YearOfEraBounds(doe: nat)
    requires doe < 146097
    ensures 0 <= YearOfEra(doe) < 400
    ensures 0 <= doe - YearStart(YearOfEra(doe)) < MarchYearLength(YearOfEra(doe))
  {
    var c := if doe == 146096 then 3 else doe / 36524;
    var r := doe - 36524 * c;
    var q, u := r / 1461, r % 1461;
    YearOfEraDigits(c, q, u);
    var k := if u == 1460 then 3 else u / 365;
    YearDigits(c, q, k);
  }

  lemma YearDigits(c: nat, q: nat, k: nat)
    requires c <= 3 && q <= 24 && k <= 3
    ensures YearStart(100 * c + 4 * q + k) == 36524 * c + 1461 * q + 365 * k
    ensures MarchYearLength(100 * c + 4 * q + k) == if k == 3 && (q == 24 ==> c == 3) then 366 else 365
  {
    var y := 100 * c + 4 * q + k;
    assert y / 4 == 25 * c + q;
    assert y / 100 == c;
    assert (y + 1) % 4 == 0 <==> k == 3;
    assert (y + 1) % 100 == 0 <==> k == 3 && q == 24;
  }

  lemma YearStartNext(y: nat)
    requires y < 399
    ensures YearStart(y + 1) == YearStart(y) + MarchYearLength(y)
  {
    var c, k := y / 100, y % 100;
    assert k == 99 || ((y + 1) / 100 == c && (y + 1) % 100 == k + 1);
  }

  lemma {:induction false} YearStartMonotone(y: nat, z: nat)
    requires y < z < 400
    ensures YearStart(y) + MarchYearLength(y) <= YearStart(z)
    decreases z - y
  {
    YearStartNext(y);
    if y + 1 < z {
      YearStartMonotone(y + 1, z);
    }
  }

  /** `YearOfEra` is the only year whose span of days holds `doe`. */
  lemma YearOfEraUnique(doe: nat, y: nat)
    requires doe < 146097 && y < 400
    requires 0 <= doe - YearStart(y) < MarchYearLength(y)
    ensures YearOfEra(doe) == y
  {
    YearOfEraBounds(doe);
    var z := YearOfEra(doe);
    if z < y {
      YearStartMonotone(z, y);
    } else if y < z {
      YearStartMonotone(y, z);
    }
  }

  /** The date of day `doy` of the year that starts on 1 March of `y`. */
  function MarchDate(y: nat, doy: nat): Date
    requires doy <= 365
  {
    var (mo, d) := MonthDay(doy);
    Date(if mo <= 2 then y + 1 else y, mo, d)
  }

  /** First day of month `mp`, counted from March. */
  function MonthStart(mp: nat): nat {
    (153 * mp + 2) / 5
  }

  lemma MonthDayAt(mp: nat, day: nat)
    requires mp <= 11 && MonthStart(mp) + day < MonthStart(mp + 1)
    requires MonthStart(mp) + day <= 365
    ensures MonthDay(MonthStart(mp) + day) == (if mp < 10 then mp + 3 else mp - 9, day + 1)
  {
    assert (5 * (MonthStart(mp) + day) + 2) / 153 == mp;
  }

  lemma MonthStartNext(y: nat, mp: nat)
    requires mp <= 11
    ensures mp < 11 ==> MonthStart(mp + 1) - MonthStart(mp) == MonthLength(y, if mp < 10 then mp + 3 else mp - 9)
    ensures MonthStart(mp) < MonthStart(mp + 1)
    ensures MonthStart(0) == 0 && MonthStart(1) == 31 && MonthStart(11) == 337 && MonthStart(12) == 367
  {
  }

  lemma MonthOfDay(doy: nat)
    requires doy <= 365
    ensures var mp := (5 * doy + 2) / 153; mp <= 11 && MonthStart(mp) <= doy < MonthStart(mp + 1)
  {
  }

  lemma MarchDateNext(y: nat, doy: nat)
    requires doy < MarchYearLength(y)
    ensures ValidDate(MarchDate(y, doy))
    ensures NextDay(MarchDate(y, doy))
            == if doy + 1 < MarchYearLength(y) then MarchDate(y, doy + 1) else MarchDate(y + 1, 0)
  {
    hide MonthDay, MonthStart;
    var mp := (5 * doy + 2) / 153;
    MonthOfDay(doy);
    var day := doy - MonthStart(mp);
    MonthStartNext(y, mp);
    MonthDayAt(mp, day);
    MonthDayAt(0, 0);
    if doy < 365 {
      if doy + 1 < MonthStart(mp + 1) {
        MonthDayAt(mp, day + 1);
      } else {
        MonthStartNext(y, mp + 1);
        MonthDayAt(mp + 1, 0);
      }
    }
  }

  /** The formula, split into era, year and day of year. */
  lemma DaysToYmdSplit(days: nat, era: nat, yoe: nat, doy: nat)
    requires yoe < 400 && doy < MarchYearLength(yoe)
    requires days + 719468 == 146097 * era + YearStart(yoe) + doy
    requires YearStart(yoe) + doy < 146097
    ensures DaysToYmd(days) == MarchDate(yoe + 400 * era, doy)
  {
    var doe := YearStart(yoe) + doy;
    var z := days + 719468;
    assert z / 146097 == era && z % 146097 == doe;
    YearOfEraUnique(doe, yoe);
  }

  lemma LeapPeriod(y: nat, era: nat)
    ensures MarchYearLength(y + 400 * era) == MarchYearLength(y)
  {
    LeapByResidue(y + 1, 0);
    LeapByResidue(y + 1, era);
  }

  lemma Mod100(q: nat, r: nat)
    requires r < 100
    ensures (100 * q + r) % 100 == r
  {
  }

  lemma Mod4(q: nat, r: nat)
    requires r < 4
    ensures (4 * q + r) % 4 == r
  {
  }

  lemma LeapByResidue(y: nat, era: nat)
    ensures Leap(y + 400 * era) == Leap(y % 400)
  {
    var q, r := y / 400 + era, y % 400;
    assert y + 400 * era == 400 * q + r;
    assert (400 * q + r) % 400 == r;
    Mod100(4 * q + r / 100, r % 100);
    Mod4(100 * q + r / 4, r % 4);
  }

  /** Every day number splits that way. */
  lemma DaysToYmdParts(days: nat) returns (era: nat, yoe: nat, doy: nat)
    ensures yoe < 400 && doy < MarchYearLength(yoe)
    ensures days + 719468 == 146097 * era + YearStart(yoe) + doy
    ensures YearStart(yoe) + doy < 146097
    ensures DaysToYmd(days) == MarchDate(yoe + 400 * era, doy)
  {
    era := (days + 719468) / 146097;
    var doe := (days + 719468) % 146097;
    YearOfEraBounds(doe);
    yoe := YearOfEra(doe);
    doy := doe - YearStart(yoe);
    DaysToYmdSplit(days, era, yoe, doy);
  }

  /** One day later, the formula gives the next Gregorian day. */
  lemma DaysToYmdNext(days: nat)
    ensures ValidDate(DaysToYmd(days))
    ensures DaysToYmd(days + 1) == NextDay(DaysToYmd(days))
  {
    hide DaysToYmd, MarchDate, NextDay, ValidDate;
    var era, yoe, doy := DaysToYmdParts(days);
    LeapPeriod(yoe, era);
    MarchDateNext(yoe + 400 * era, doy);
    SameEra(yoe, doy + 1);
    if doy + 1 < MarchYearLength(yoe) {
      DaysToYmdSplit(days + 1, era, yoe, doy + 1);
    } else if yoe < 399 {
      YearStartNext(yoe);
      SameEra(yoe + 1, 0);
      DaysToYmdSplit(days + 1, era, yoe + 1, 0);
    } else {
      assert YearStart(0) == 0 && YearStart(399) + 366 == 146097;
      assert MarchYearLength(399) == 366;
      DaysToYmdSplit(days + 1, era + 1, 0, 0);
    }
  }

  lemma SameEra(yoe: nat, doy: nat)
    requires yoe < 400
    ensures doy < MarchYearLength(yoe) ==> YearStart(yoe) + doy < 146097
  {
    if yoe < 399 {
      YearStartMonotone(yoe, 399);
    }
  }

  /** Main result: the formula is the n-fold iterate of the Gregorian next-day
      rule from 1970-01-01. */
  lemma {:induction false} DaysToYmdIsIterate(n: nat)
    ensures DaysToYmd(n) == AfterDays(n)
    ensures ValidDate(AfterDays(n)) && AfterDays(n).year >= 1970
  {
    hide DaysToYmd;
    if n == 0 {
      DaysToYmdSplit(0, 4, 369, 306);
    } else {
      DaysToYmdIsIterate(n - 1);
      DaysToYmdNext(n - 1);
    }
    DaysToYmdNext(n);
  }

  // ---- The inverse ----

  lemma NextDayCounts(d: Date)
    requires ValidDate(d) && d.year >= 1970
    ensures ValidDate(NextDay(d)) && Earlier(d, NextDay(d))
    ensures YmdToDays(NextDay(d)) == YmdToDays(d) + 1
  {
    if d.month == 12 && d.day == 31 {
      YearIsTwelveMonths(d.year);
    }
  }

  lemma YearIsTwelveMonths(y: nat)
    ensures DaysBeforeMonth(y, 12) + 31 == YearLength(y)
  {
    assert DaysBeforeMonth(y, 2) == 31;
    assert DaysBeforeMonth(y, 3) == 31 + MonthLength(y, 2);
    assert DaysBeforeMonth(y, 5) == DaysBeforeMonth(y, 3) + 61;
    assert DaysBeforeMonth(y, 7) == DaysBeforeMonth(y, 5) + 61;
    assert DaysBeforeMonth(y, 9) == DaysBeforeMonth(y, 7) + 62;
    assert DaysBeforeMonth(y, 11) == DaysBeforeMonth(y, 9) + 61;
  }

  lemma {:induction false} DaysBeforeMonthMonotone(y: nat, m: nat, k: nat)
    requires 1 <= m < k <= 12
    ensures DaysBeforeMonth(y, m) + MonthLength(y, m) <= DaysBeforeMonth(y, k)
  {
    if m + 1 < k {
      DaysBeforeMonthMonotone(y, m, k - 1);
    }
  }

  lemma {:induction false} DaysBeforeYearMonotone(y: nat, z: nat)
    requires 1970 <= y < z
    ensures DaysBeforeYear(y) + YearLength(y) <= DaysBeforeYear(z)
  {
    if y + 1 < z {
      DaysBeforeYearMonotone(y, z - 1);
    }
  }

  lemma DayOfYearBounds(d: Date)
    requires ValidDate(d) && d.year >= 1970
    ensures 0 <= YmdToDays(d) - DaysBeforeYear(d.year) < YearLength(d.year)
  {
    YearIsTwelveMonths(d.year);
    if d.month < 12 {
      DaysBeforeMonthMonotone(d.year, d.month, 12);
    }
  }

  /** The day count follows the calendar order, so no two dates share a count. */
  lemma YmdToDaysOrder(a: Date, b: Date)
    requires ValidDate(a) && ValidDate(b) && a.year >= 1970 && b.year >= 1970
    ensures Earlier(a, b) <==> YmdToDays(a) < YmdToDays(b)
    ensures a == b <==> YmdToDays(a) == YmdToDays(b)
  {
    if Earlier(a, b) {
      YmdToDaysEarlier(a, b);
    } else if a != b {
      YmdToDaysEarlier(b, a);
    }
  }

  lemma YmdToDaysEarlier(a: Date, b: Date)
    requires ValidDate(a) && ValidDate(b) && a.year >= 1970 && b.year >= 1970 && Earlier(a, b)
    ensures YmdToDays(a) < YmdToDays(b)
  {
    DayOfYearBounds(a);
    DayOfYearBounds(b);
    if a.year < b.year {
      DaysBeforeYearMonotone(a.year, b.year);
    } else if a.month < b.month {
      DaysBeforeMonthMonotone(a.year, a.month, b.month);
    }
  }

  lemma {:induction false} CountOfIterate(n: nat)
    ensures ValidDate(AfterDays(n)) && AfterDays(n).year >= 1970
    ensures YmdToDays(AfterDays(n)) == n
  {
    DaysToYmdIsIterate(n);
    if n > 0 {
      CountOfIterate(n - 1);
      NextDayCounts(AfterDays(n - 1));
    }
  }

  /** Main result: the formula and the day count are inverse on every day
      number and on every valid date from 1970 on. */
  lemma DaysToYmdInverse(n: nat, d: Date)
    requires ValidDate(d) && d.year >= 1970
    ensures DaysToYmd(n).year >= 1970 && YmdToDays(DaysToYmd(n)) == n
    ensures YmdToDays(d) >= 0 && DaysToYmd(YmdToDays(d)) == d
  {
    DaysToYmdIsIterate(n);
    CountOfIterate(n);
    DayOfYearBounds(d);
    var k := YmdToDays(d);
    DaysToYmdIsIterate(k);
    CountOfIterate(k);
    YmdToDaysOrder(d, DaysToYmd(k));
  }

  /** Later days have later dates. */
  lemma DaysToYmdMonotone(m: nat, n: nat)
    ensures m < n <==> Earlier(DaysToYmd(m), DaysToYmd(n))
  {
    DaysToYmdIsIterate(m);
    DaysToYmdIsIterate(n);
    CountOfIterate(m);
    CountOfIterate(n);
    YmdToDaysOrder(DaysToYmd(m), DaysToYmd(n));
  }

  // ---- fmt_ts ----

  datatype Stamp = Stamp(date: Date, hour: nat, minute: nat)

  /** The numbers that `fmt_ts` prints; `None` is the text "(unknown)". */
  function FmtTs(ms: nat): Option<Stamp> {
    if ms == 0 then None
    else
      var secs := ms / 1000;
      var days := secs / 86400;
      var timeSecs := secs % 86400;
      Some(Stamp(DaysToYmd(days), timeSecs / 3600, (timeSecs % 3600) / 60))
  }

  /** The printed fields are in range and name the minute of `ms`: they give
      back the minute count, so two instants print alike iff they lie in the
      same minute. */
  lemma FmtTsNamesTheMinute(ms: nat)
    requires ms != 0
    ensures var s := FmtTs(ms).value;
            && ValidDate(s.date) && s.date.year >= 1970 && s.hour < 24 && s.minute < 60
            && 1440 * YmdToDays(s.date) + 60 * s.hour + s.minute == ms / 60000
  {
    var days := ms / 1000 / 86400;
    DaysToYmdIsIterate(days);
    CountOfIterate(days);
  }

  lemma FmtTsSameMinute(a: nat, b: nat)
    ensures FmtTs(a) == FmtTs(b) <==> ((a == 0 <==> b == 0) && a / 60000 == b / 60000)
  {
    hide DaysToYmd, YmdToDays;
    if a != 0 && b != 0 {
      FmtTsNamesTheMinute(a);
      FmtTsNamesTheMinute(b);
      YmdToDaysOrder(FmtTs(a).value.date, FmtTs(b).value.date);
    }
  }
}
