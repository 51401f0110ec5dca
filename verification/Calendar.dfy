/**
 The receipt timestamp arithmetic: `civil_from_days` and the second-of-day split,
 against the proleptic Gregorian calendar (month lengths of section 5.7 of
 RFC 3339, leap rule of its Appendix C).
 */
module Calendar {

  datatype Date = Date(year: int, month: int, day: int)

  const I64_MIN: int := -0x8000_0000_0000_0000
  const I64_MAX: int := 0x7fff_ffff_ffff_ffff
  const U32_MAX: int := 0xffff_ffff
  const U64_MAX: int := 0xffff_ffff_ffff_ffff

  // ----- The calendar itself -----

  predicate IsLeap(y: int) { y % 4 == 0 && (y % 100 != 0 || y % 400 == 0) }

  function DaysInMonth(y: int, m: int): int {
    if m == 2 then (if IsLeap(y) then 29 else 28)
    else if m == 4 || m == 6 || m == 9 || m == 11 then 30
    else 31
  }

  predicate ValidDate(d: Date) {
    1 <= d.month <= 12 && 1 <= d.day <= DaysInMonth(d.year, d.month)
  }

  // The calendar's successor of a date.
  function NextDay(d: Date): Date {
    if d.day < DaysInMonth(d.year, d.month) then Date(d.year, d.month, d.day + 1)
    else if d.month < 12 then Date(d.year, d.month + 1, 1)
    else Date(d.year + 1, 1, 1)
  }

  predicate Before(a: Date, b: Date) {
    a.year < b.year
    || (a.year == b.year && (a.month < b.month || (a.month == b.month && a.day < b.day)))
  }

  // Days of year `y` that precede month `m`.
  function DaysBeforeMonth(y: int, m: int): int
    decreases m
  {
    if m <= 1 then 0 else DaysBeforeMonth(y, m - 1) + DaysInMonth(y, m - 1)
  }

  // Days from 0000-01-01 to January 1st of year `y`.
  function DaysBeforeYear(y: int): int {
    365 * y + (y + 3) / 4 - (y + 99) / 100 + (y + 399) / 400
  }

  // Days from 1970-01-01 to `d`, the reference day count.
  function DayNumber(d: Date): int {
    DaysBeforeYear(d.year) + DaysBeforeMonth(d.year, d.month) + d.day - 1 - 719_528
  }

  // ----- civil_from_days -----

  // Rust's integer division truncates toward zero.
  function TruncDiv(a: int, b: int): int
    requires b > 0
    decreases a < 0, if a < 0 then -a else a
  {
    if a < 0 then -TruncDiv(-a, b) else if a < b then 0 else 1 + TruncDiv(a - b, b)
  }

  // `u32::try_from(x).unwrap_or(0)`
  function ToU32(x: int): int { if 0 <= x <= U32_MAX then x else 0 }

  function Era(z: int): int { TruncDiv(if z >= 0 then z else z - 146_096, 146_097) }

  function YearOfEra(doe: int): int {
    TruncDiv(doe - TruncDiv(doe, 1_460) + TruncDiv(doe, 36_524) - TruncDiv(doe, 146_096), 365)
  }

  function DayOfYear(doe: int, yoe: int): int {
    doe - (365 * yoe + TruncDiv(yoe, 4) - TruncDiv(yoe, 100))
  }

  // Month and day of day `doy` of the year that starts on March 1st of `y`.
  function DateOf(y: int, doy: int): Date {
    var mp := TruncDiv(5 * doy + 2, 153);
    var d := ToU32(doy - TruncDiv(153 * mp + 2, 5) + 1);
    var m := ToU32(if mp < 10 then mp + 3 else mp - 9);
    Date(if m <= 2 then y + 1 else y, m, d)
  }

  function CivilFromDays(days: int): Date {
    var z := days + 719_468;
    var era := Era(z);
    var doe := z - era * 146_097;
    var yoe := YearOfEra(doe);
    DateOf(yoe + era * 400, DayOfYear(doe, yoe))
  }

  // ----- Proof -----

  // On non-negative dividends truncation is the floor.
  lemma {:induction false} TruncDivFloor(a: int, b: int)
    requires b > 0 && a >= 0
    ensures TruncDiv(a, b) * b <= a < TruncDiv(a, b) * b + b
    decreases a
  {
    if a >= b {
      TruncDivFloor(a - b, b);
      var t := TruncDiv(a - b, b);
      assert (1 + t) * b == b + t * b;
    }
  }

  // The divisors of the algorithm, for which this is the verifier's own division.
  lemma {:induction false} Trunc4(a: int)
    requires a >= 0
    ensures TruncDiv(a, 4) == a / 4
  {
    TruncDivFloor(a, 4);
  }

  lemma {:induction false} Trunc5(a: int)
    requires a >= 0
    ensures TruncDiv(a, 5) == a / 5
  {
    TruncDivFloor(a, 5);
  }

  lemma {:induction false} Trunc100(a: int)
    requires a >= 0
    ensures TruncDiv(a, 100) == a / 100
  {
    TruncDivFloor(a, 100);
  }

  lemma {:induction false} Trunc153(a: int)
    requires a >= 0
    ensures TruncDiv(a, 153) == a / 153
  {
    TruncDivFloor(a, 153);
  }

  lemma {:induction false} Trunc365(a: int)
    requires a >= 0
    ensures TruncDiv(a, 365) == a / 365
  {
    TruncDivFloor(a, 365);
  }

  lemma {:induction false} Trunc1460(a: int)
    requires a >= 0
    ensures TruncDiv(a, 1_460) == a / 1_460
  {
    TruncDivFloor(a, 1_460);
  }

  lemma {:induction false} Trunc36524(a: int)
    requires a >= 0
    ensures TruncDiv(a, 36_524) == a / 36_524
  {
    TruncDivFloor(a, 36_524);
  }

  lemma {:induction false} Trunc146096(a: int)
    requires a >= 0
    ensures TruncDiv(a, 146_096) == a / 146_096
  {
    TruncDivFloor(a, 146_096);
  }

  // The era is the floor of z / 146097, negative counts included.
  lemma EraIsFloor(z: int)
    ensures 0 <= z - Era(z) * 146_097 < 146_097
  {
    if z >= 0 {
      TruncDivFloor(z, 146_097);
    } else {
      TruncDivFloor(146_096 - z, 146_097);
      assert -(z - 146_096) == 146_096 - z;
    }
  }

  // Days of an era (starting March 1st) that precede its year `n`.
  function MarchYearStart(n: int): int { 365 * n + n / 4 - n / 100 }

  // Century, four-year cycle and rest of a day of the era.
  function Century(doe: int): int { if doe == 146_096 then 3 else doe / 36_524 }

  function Cycle(doe: int): int { (doe - 36_524 * Century(doe)) / 1_461 }

  function Rest(doe: int): int { doe - 36_524 * Century(doe) - 1_461 * Cycle(doe) }

  function YearOfCycle(rest: int): int { if rest == 1_460 then 3 else rest / 365 }

  lemma EraSplit(doe: int)
    requires 0 <= doe < 146_097
    ensures 0 <= Century(doe) <= 3 && 0 <= Cycle(doe) <= 24 && 0 <= Rest(doe) <= 1_460
    ensures 0 <= YearOfCycle(Rest(doe)) <= 3
    ensures Rest(doe) == 1_460 && Cycle(doe) == 24 ==> Century(doe) == 3
  {
  }

  // The closed-form estimate is the split's year: its correction terms cancel.
  lemma YearOfEraSplit(doe: int)
    requires 0 <= doe < 146_097
    ensures YearOfEra(doe) == 100 * Century(doe) + 4 * Cycle(doe) + YearOfCycle(Rest(doe))
  {
    EraSplit(doe);
    YearFromSplit(doe, Century(doe), Cycle(doe), Rest(doe));
  }

  lemma {:induction false} YearFromSplit(doe: int, c: int, q: int, r: int)
    requires 0 <= c <= 3 && 0 <= q <= 24 && 0 <= r <= 1_460
    requires doe == 36_524 * c + 1_461 * q + r && 0 <= doe < 146_097
    requires r == 1_460 && q == 24 ==> c == 3
    ensures YearOfEra(doe) == 100 * c + 4 * q + YearOfCycle(r)
  {
    var k := if 24 * c + q + r >= 1_460 then 1 else 0;
    Corrected(doe, c, q, r, k);
    Estimate(100 * c + 4 * q, r, k, c, q);
    Trunc365(365 * (100 * c + 4 * q) + (r - k));
  }

  lemma {:induction false} Corrected(doe: int, c: int, q: int, r: int, k: int)
    requires 0 <= c <= 3 && 0 <= q <= 24 && 0 <= r <= 1_460
    requires doe == 36_524 * c + 1_461 * q + r && 0 <= doe < 146_097
    requires r == 1_460 && q == 24 ==> c == 3
    requires k == if 24 * c + q + r >= 1_460 then 1 else 0
    ensures doe - TruncDiv(doe, 1_460) + TruncDiv(doe, 36_524) - TruncDiv(doe, 146_096) == 365 * (100 * c + 4 * q) + (r - k)
  {
    CorrectionTerms(doe, c, q, r, k);
    Trunc1460(doe);
    Trunc36524(doe);
    Trunc146096(doe);
  }

  lemma CorrectionTerms(doe: int, c: int, q: int, r: int, k: int)
    requires 0 <= c <= 3 && 0 <= q <= 24 && 0 <= r <= 1_460
    requires doe == 36_524 * c + 1_461 * q + r && 0 <= doe < 146_097
    requires r == 1_460 && q == 24 ==> c == 3
    requires k == if 24 * c + q + r >= 1_460 then 1 else 0
    ensures doe / 36_524 - doe / 146_096 == c
    ensures doe / 1_460 == 25 * c + q + k
  {
    assert doe == 1_460 * (25 * c + q + k) + (24 * c + q + r - 1_460 * k);
  }

  lemma Estimate(n: int, r: int, k: int, c: int, q: int)
    requires 0 <= c <= 3 && 0 <= q <= 24 && 0 <= r <= 1_460
    requires k == if 24 * c + q + r >= 1_460 then 1 else 0
    ensures (365 * n + (r - k)) / 365 == n + YearOfCycle(r)
    ensures r - k >= 0
  {
    assert 0 <= r - k - 365 * YearOfCycle(r) < 365;
    assert 365 * n + (r - k) == 365 * (n + YearOfCycle(r)) + (r - k - 365 * YearOfCycle(r));
  }

  // First day of year 100c + 4q + t of an era.
  lemma StartOf(c: int, q: int, t: int)
    requires 0 <= q <= 24 && 0 <= t <= 3
    ensures MarchYearStart(100 * c + 4 * q + t) == 36_524 * c + 1_461 * q + 365 * t
  {
    var n := 100 * c + 4 * q + t;
    assert n == 4 * (25 * c + q) + t;
    assert n / 4 == 25 * c + q;
    assert n / 100 == c;
  }

  // The year-of-era estimate brackets the day exactly.
  lemma YearOfEraBrackets(doe: int)
    requires 0 <= doe < 146_097
    ensures 0 <= YearOfEra(doe) <= 399
    ensures MarchYearStart(YearOfEra(doe)) <= doe
    ensures YearOfEra(doe) < 399 ==> doe < MarchYearStart(YearOfEra(doe) + 1)
  {
    EraSplit(doe);
    YearOfEraSplit(doe);
    var c, q, r := Century(doe), Cycle(doe), Rest(doe);
    var t := YearOfCycle(r);
    StartOf(c, q, t);
    if t < 3 { StartOf(c, q, t + 1); } else if q < 24 { StartOf(c, q + 1, 0); } else { StartOf(c + 1, 0, 0); }
  }

  lemma Ceil4(y: int)
    ensures (y + 3) / 4 == y / 4 + (if y % 4 == 0 then 0 else 1)
    ensures (y + 4) / 4 == y / 4 + 1
  {
  }

  lemma Ceil100(y: int)
    ensures (y + 99) / 100 == y / 100 + (if y % 100 == 0 then 0 else 1)
    ensures (y + 100) / 100 == y / 100 + 1
  {
  }

  lemma Ceil400(y: int)
    ensures (y + 399) / 400 == y / 400 + (if y % 400 == 0 then 0 else 1)
    ensures (y + 400) / 400 == y / 400 + 1
  {
  }

  lemma LeapCount(y: int)
    ensures (y + 3) / 4 - (y + 99) / 100 + (y + 399) / 400 + (if IsLeap(y) then 1 else 0)
            == y / 4 - y / 100 + y / 400 + 1
  {
    Ceil4(y);
    Ceil100(y);
    Ceil400(y);
    Divisors(y);
  }

  lemma Divisors(y: int)
    ensures y % 100 == 0 ==> y % 4 == 0
    ensures y % 400 == 0 ==> y % 100 == 0
  {
    if y % 100 == 0 { assert y == 4 * (25 * (y / 100)); }
    if y % 400 == 0 { assert y == 100 * (4 * (y / 400)); }
  }

  // Unix day count of March 1st of year `y`, where the algorithm's years begin.
  lemma MarchFirst(y: int)
    ensures DayNumber(Date(y, 3, 1)) == 365 * y + y / 4 - y / 100 + y / 400 - 719_468
    ensures DaysBeforeYear(y + 1) == DaysBeforeYear(y) + 365 + (if IsLeap(y) then 1 else 0)
  {
    assert DaysBeforeMonth(y, 3) == 31 + DaysInMonth(y, 2) by {
      assert DaysBeforeMonth(y, 2) == DaysBeforeMonth(y, 1) + 31;
    }
    LeapCount(y);
    Ceil4(y);
    Ceil100(y);
    Ceil400(y);
  }

  lemma Shift4(x: int, k: int)
    ensures (x + 4 * k) / 4 == x / 4 + k && (x + 4 * k) % 4 == x % 4
  {
  }

  lemma Shift100(x: int, k: int)
    ensures (x + 100 * k) / 100 == x / 100 + k && (x + 100 * k) % 100 == x % 100
  {
  }

  lemma Shift400(x: int, k: int)
    ensures (x + 400 * k) / 400 == x / 400 + k && (x + 400 * k) % 400 == x % 400
  {
  }

  // The leap rule repeats every era.
  lemma EraLeap(era: int, n: int)
    ensures IsLeap(n + 400 * era) <==> IsLeap(n)
  {
    Shift4(n, 100 * era);
    Shift100(n, 4 * era);
    Shift400(n, era);
  }

  lemma EraYear(era: int, yoe: int)
    requires 0 <= yoe <= 399
    ensures var y := yoe + 400 * era;
            365 * y + y / 4 - y / 100 + y / 400 == 146_097 * era + MarchYearStart(yoe)
  {
    Shift4(yoe, 100 * era);
    Shift100(yoe, 4 * era);
    Shift400(yoe, era);
  }

  lemma {:induction false} MonthStarts(y: int)
    ensures DaysBeforeMonth(y, 1) == 0 && DaysBeforeMonth(y, 2) == 31
    ensures var l := if IsLeap(y) then 1 else 0;
            && DaysBeforeMonth(y, 3) == 59 + l && DaysBeforeMonth(y, 4) == 90 + l
            && DaysBeforeMonth(y, 5) == 120 + l && DaysBeforeMonth(y, 6) == 151 + l
            && DaysBeforeMonth(y, 7) == 181 + l && DaysBeforeMonth(y, 8) == 212 + l
            && DaysBeforeMonth(y, 9) == 243 + l && DaysBeforeMonth(y, 10) == 273 + l
            && DaysBeforeMonth(y, 11) == 304 + l && DaysBeforeMonth(y, 12) == 334 + l
  {
    assert DaysBeforeMonth(y, 3) == DaysBeforeMonth(y, 2) + DaysInMonth(y, 2);
    assert DaysBeforeMonth(y, 5) == DaysBeforeMonth(y, 4) + 30;
    assert DaysBeforeMonth(y, 7) == DaysBeforeMonth(y, 6) + 30;
    assert DaysBeforeMonth(y, 9) == DaysBeforeMonth(y, 8) + 31;
    assert DaysBeforeMonth(y, 11) == DaysBeforeMonth(y, 10) + 31;
  }

  // The date the algorithm reads off day `doy` of the year starting March 1st of `y`.
  function MarchDate(y: int, doy: int): Date {
    var mp := (5 * doy + 2) / 153;
    var d := doy - (153 * mp + 2) / 5 + 1;
    var m := if mp < 10 then mp + 3 else mp - 9;
    Date(if m <= 2 then y + 1 else y, m, d)
  }

  // First day of the month `mp` months after March, in days after March 1st.
  function MonthStart(mp: int): int {
    if mp == 0 then 0 else if mp == 1 then 31 else if mp == 2 then 61
    else if mp == 3 then 92 else if mp == 4 then 122 else if mp == 5 then 153
    else if mp == 6 then 184 else if mp == 7 then 214 else if mp == 8 then 245
    else if mp == 9 then 275 else if mp == 10 then 306 else if mp == 11 then 337 else 366
  }

  lemma MonthOf(doy: int) returns (mp: int)
    requires 0 <= doy <= 365
    ensures mp == (5 * doy + 2) / 153 && 0 <= mp <= 11
    ensures MonthStart(mp) == (153 * mp + 2) / 5
    ensures MonthStart(mp) <= doy < MonthStart(mp + 1)
  {
    mp := (5 * doy + 2) / 153;
  }

  // Its month rule is exact: it lands on the calendar date `doy` days after March 1st.
  lemma MarchDateCorrect(y: int, doy: int)
    requires 0 <= doy <= 365
    requires doy == 365 ==> IsLeap(y + 1)
    ensures ValidDate(MarchDate(y, doy))
    ensures DayNumber(MarchDate(y, doy)) == DayNumber(Date(y, 3, 1)) + doy
  {
    var mp := MonthOf(doy);
    MonthStarts(y);
    MonthStarts(y + 1);
    MarchFirst(y);
  }

  lemma YearLength(n: int)
    requires 0 <= n <= 399
    ensures MarchYearStart(n + 1) == MarchYearStart(n) + 365 + (if (n + 1) % 4 == 0 then 1 else 0) - (if (n + 1) % 100 == 0 then 1 else 0)
    ensures IsLeap(400)
    ensures MarchYearStart(399) == 145_731
  {
  }

  // The day of the March year is in range, and reaches 365 only before a leap February.
  lemma DayOfYearRange(doe: int)
    requires 0 <= doe < 146_097
    ensures var yoe := YearOfEra(doe);
            && 0 <= yoe <= 399
            && DayOfYear(doe, yoe) == doe - MarchYearStart(yoe)
            && 0 <= DayOfYear(doe, yoe) <= 365
            && (DayOfYear(doe, yoe) == 365 ==> IsLeap(yoe + 1))
  {
    YearOfEraBrackets(doe);
    DayOfYearBound(doe, YearOfEra(doe));
  }

  lemma DayOfYearBound(doe: int, n: int)
    requires 0 <= n <= 399 && 0 <= doe < 146_097
    requires MarchYearStart(n) <= doe
    requires n < 399 ==> doe < MarchYearStart(n + 1)
    ensures DayOfYear(doe, n) == doe - MarchYearStart(n)
    ensures 0 <= DayOfYear(doe, n) <= 365
    ensures DayOfYear(doe, n) == 365 ==> IsLeap(n + 1)
  {
    YearLength(n);
    Trunc4(n);
    Trunc100(n);
  }

  lemma MonthRule(y: int, doy: int)
    requires 0 <= doy <= 365
    ensures DateOf(y, doy) == MarchDate(y, doy)
  {
    var mp := (5 * doy + 2) / 153;
    assert 0 <= mp <= 11;
    assert 0 <= (153 * mp + 2) / 5 <= doy;
    Trunc153(5 * doy + 2);
    Trunc5(153 * mp + 2);
  }

  // The intermediate values of the algorithm and what they satisfy.
  lemma Coordinates(days: int) returns (era: int, yoe: int, doy: int)
    ensures era == Era(days + 719_468) && 0 <= yoe <= 399
    ensures 0 <= doy <= 365 && (doy == 365 ==> IsLeap(yoe + 1))
    ensures 146_097 * era + MarchYearStart(yoe) + doy == days + 719_468
    ensures CivilFromDays(days) == DateOf(yoe + era * 400, doy)
  {
    var z := days + 719_468;
    era := Era(z);
    EraIsFloor(z);
    var doe := z - era * 146_097;
    DayOfYearRange(doe);
    yoe := YearOfEra(doe);
    doy := DayOfYear(doe, yoe);
  }

  lemma DateOfCorrect(era: int, yoe: int, doy: int)
    requires 0 <= yoe <= 399
    requires 0 <= doy <= 365 && (doy == 365 ==> IsLeap(yoe + 1))
    ensures var d := DateOf(yoe + era * 400, doy);
            && ValidDate(d)
            && yoe + era * 400 <= d.year <= yoe + era * 400 + 1
            && DayNumber(d) + 719_468 == 146_097 * era + MarchYearStart(yoe) + doy
  {
    var y := yoe + era * 400;
    EraYear(era, yoe);
    EraLeap(era, yoe + 1);
    MarchFirst(y);
    MonthRule(y, doy);
    MarchDateCorrect(y, doy);
  }

  /** `civil_from_days` returns a date of the calendar, and the calendar's day
      count of that date is the count it was given. */
  lemma CivilRoundTrip(days: int)
    ensures ValidDate(CivilFromDays(days))
    ensures DayNumber(CivilFromDays(days)) == days
  {
    var era, yoe, doy := Coordinates(days);
    DateOfCorrect(era, yoe, doy);
  }

  // The reference count steps by one along the calendar and starts at the epoch.
  lemma DayNumberSteps(d: Date)
    requires ValidDate(d)
    ensures ValidDate(NextDay(d))
    ensures DayNumber(NextDay(d)) == DayNumber(d) + 1
    ensures Before(d, NextDay(d))
    ensures DayNumber(Date(1970, 1, 1)) == 0
  {
    MonthStarts(d.year);
    MonthStarts(d.year + 1);
    MarchFirst(d.year);
  }

  lemma {:induction false} YearsAscend(a: int, b: int)
    requires a <= b
    ensures DaysBeforeYear(b) >= DaysBeforeYear(a) + 365 * (b - a)
    decreases b - a
  {
    if a < b {
      YearsAscend(a, b - 1);
      MarchFirst(b - 1);
    }
  }

  // A date falls before the next year begins.
  lemma WithinYear(d: Date)
    requires ValidDate(d)
    ensures DaysBeforeYear(d.year) - 719_528 <= DayNumber(d) < DaysBeforeYear(d.year + 1) - 719_528
  {
    MonthStarts(d.year);
    MarchFirst(d.year);
  }

  lemma MonotoneWithinYear(a: Date, b: Date)
    requires ValidDate(a) && ValidDate(b) && a.year == b.year && Before(a, b)
    ensures DayNumber(a) < DayNumber(b)
  {
    MonthStarts(a.year);
  }

  /** The reference count is strictly monotone, so it is one-to-one on dates. */
  lemma DayNumberMonotone(a: Date, b: Date)
    requires ValidDate(a) && ValidDate(b) && Before(a, b)
    ensures DayNumber(a) < DayNumber(b)
  {
    if a.year < b.year {
      WithinYear(a);
      WithinYear(b);
      YearsAscend(a.year + 1, b.year);
    } else {
      MonotoneWithinYear(a, b);
    }
  }

  /** `civil_from_days` inverts the calendar's day count on every valid date. */
  lemma CivilInverts(d: Date)
    requires ValidDate(d)
    ensures CivilFromDays(DayNumber(d)) == d
  {
    var c := CivilFromDays(DayNumber(d));
    CivilRoundTrip(DayNumber(d));
    if Before(c, d) { DayNumberMonotone(c, d); }
    if Before(d, c) { DayNumberMonotone(d, c); }
  }

  lemma StepInverts(d: Date, days: int)
    requires ValidDate(d) && DayNumber(d) == days
    ensures CivilFromDays(days + 1) == NextDay(d)
  {
    DayNumberSteps(d);
    CivilInverts(NextDay(d));
  }

  /** Successive day counts are successive calendar dates. */
  lemma CivilSteps(days: int)
    ensures CivilFromDays(days + 1) == NextDay(CivilFromDays(days))
  {
    var d := CivilFromDays(days);
    CivilRoundTrip(days);
    StepInverts(d, days);
  }

  lemma CivilStrictlyIncreasing(a: int, b: int)
    requires a < b
    ensures Before(CivilFromDays(a), CivilFromDays(b))
  {
    CivilRoundTrip(a);
    CivilRoundTrip(b);
    if Before(CivilFromDays(b), CivilFromDays(a)) {
      DayNumberMonotone(CivilFromDays(b), CivilFromDays(a));
    }
  }

  // ----- 64-bit range -----

  predicate FitsI64(x: int) { I64_MIN <= x <= I64_MAX }

  /** The only `i64` operation of `civil_from_days` that can overflow is its first
      addition; past it every intermediate fits, so the unbounded arithmetic above
      is the machine arithmetic. */
  lemma CivilFitsI64(days: int)
    requires FitsI64(days) && days + 719_468 <= I64_MAX
    ensures var z := days + 719_468;
            var num := if z >= 0 then z else z - 146_096;
            var era := Era(z);
            && FitsI64(z) && FitsI64(num) && FitsI64(era * 146_097) && FitsI64(era * 400)
            && 0 <= z - era * 146_097 < 146_097
            && FitsI64(era * 400 + 399) && FitsI64(CivilFromDays(days).year)
  {
    var era, yoe, doy := Coordinates(days);
    DateOfCorrect(era, yoe, doy);
    EraIsFloor(days + 719_468);
  }

  // ----- The second-of-day split of `iso8601_now` -----

  datatype Timestamp = Timestamp(date: Date, hour: int, minute: int, second: int)

  // `secs` is the unsigned 64-bit count of seconds since the epoch.
  function Iso8601(secs: int): Timestamp
    requires 0 <= secs <= U64_MAX
  {
    var days := secs / 86_400;
    var rem := secs % 86_400;
    Timestamp(CivilFromDays(if FitsI64(days) then days else 0), rem / 3_600, (rem % 3_600) / 60, rem % 60)
  }

  predicate ValidTimestamp(t: Timestamp) {
    ValidDate(t.date) && 0 <= t.hour < 24 && 0 <= t.minute < 60 && 0 <= t.second < 60
  }

  function Seconds(t: Timestamp): int {
    86_400 * DayNumber(t.date) + 3_600 * t.hour + 60 * t.minute + t.second
  }

  lemma SecondOfDay(rem: int)
    requires 0 <= rem < 86_400
    ensures 0 <= rem / 3_600 < 24 && 0 <= (rem % 3_600) / 60 < 60 && 0 <= rem % 60 < 60
    ensures rem == 3_600 * (rem / 3_600) + 60 * ((rem % 3_600) / 60) + rem % 60
  {
    assert rem == 3_600 * (rem / 3_600) + rem % 3_600;
    assert rem % 3_600 == 60 * ((rem % 3_600) / 60) + rem % 60;
  }

  /** The stamp is a valid wall-clock time naming exactly the second it was given,
      for every representable clock value. */
  lemma Iso8601RoundTrip(secs: int)
    requires 0 <= secs <= U64_MAX
    ensures ValidTimestamp(Iso8601(secs))
    ensures Seconds(Iso8601(secs)) == secs
  {
    var days := secs / 86_400;
    CivilRoundTrip(days);
    SecondOfDay(secs % 86_400);
    assert Iso8601(secs).date == CivilFromDays(days);
  }
}
