/**
  * Conversion of a day number to a Gregorian date (src/recovery.rs), against the calendar's own
  * rules: leap years, month lengths and the next-day function.
  */
module CivilDate {
  datatype Date = Date(year: int, month: int, day: int)

  // ---------- the calendar ----------

  predicate IsLeap(year: int) {
    year % 4 == 0 && (year % 100 != 0 || year % 400 == 0)
  }

  function DaysInMonth(year: int, month: int): int {
    if month == 2 then (if IsLeap(year) then 29 else 28)
    else if month in {4, 6, 9, 11} then 30
    else 31
  }

  predicate ValidDate(d: Date) {
    1 <= d.month <= 12 && 1 <= d.day <= DaysInMonth(d.year, d.month)
  }

  function NextDay(d: Date): Date {
    if d.day < DaysInMonth(d.year, d.month) then d.(day := d.day + 1)
    else if d.month < 12 then Date(d.year, d.month + 1, 1)
    else Date(d.year + 1, 1, 1)
  }

  const EPOCH := Date(1970, 1, 1)

  /** The date `n` days after 1970-01-01, by counting. */
  function DaysAfterEpoch(n: nat): Date {
    if n == 0 then EPOCH else NextDay(DaysAfterEpoch(n - 1))
  }

  /** Days from 0001-01-01 to the first day of `year`. */
  function YearStart(year: int): int {
    var y := year - 1;
    365 * y + y / 4 - y / 100 + y / 400
  }

  /** Days from the first day of the year to the first day of `month`. */
  function MonthStart(year: int, month: int): int
    requires 1 <= month <= 12
  {
    if month == 1 then 0 else MonthStart(year, month - 1) + DaysInMonth(year, month - 1)
  }

  /** Days from 1970-01-01, by counting whole years and months. */
  function DaysFromCivil(d: Date): int
    requires ValidDate(d)
  {
    YearStart(d.year) - YearStart(1970) + MonthStart(d.year, d.month) + d.day - 1
  }

  lemma FoursStep(year: int)
    ensures year / 4 - (year - 1) / 4 == if year % 4 == 0 then 1 else 0
  {
  }

  lemma HundredsStep(year: int)
    ensures year / 100 - (year - 1) / 100 == if year % 100 == 0 then 1 else 0
  {
  }

  lemma FourHundredsStep(year: int)
    ensures year / 400 - (year - 1) / 400 == if year % 400 == 0 then 1 else 0
  {
  }

  lemma HundredsAreFours(year: int, k: int)
    requires year == 100 * k
    ensures year % 4 == 0
  {
    assert year == 4 * (25 * k);
  }

  lemma FourHundredsAreHundreds(year: int, k: int)
    requires year == 400 * k
    ensures year % 100 == 0
  {
    assert year == 100 * (4 * k);
  }

  lemma YearLength(year: int)
    ensures YearStart(year + 1) - YearStart(year) == if IsLeap(year) then 366 else 365
  {
    FoursStep(year);
    HundredsStep(year);
    FourHundredsStep(year);
    if year % 100 == 0 { HundredsAreFours(year, year / 100); }
    if year % 400 == 0 { FourHundredsAreHundreds(year, year / 400); }
  }

  /** Month starts, as offsets within the year. */
  lemma MonthTable(year: int)
    ensures var leap := if IsLeap(year) then 1 else 0;
      && MonthStart(year, 1) == 0 && MonthStart(year, 2) == 31 && MonthStart(year, 3) == 59 + leap
      && MonthStart(year, 4) == 90 + leap && MonthStart(year, 5) == 120 + leap && MonthStart(year, 6) == 151 + leap
      && MonthStart(year, 7) == 181 + leap && MonthStart(year, 8) == 212 + leap && MonthStart(year, 9) == 243 + leap
      && MonthStart(year, 10) == 273 + leap && MonthStart(year, 11) == 304 + leap && MonthStart(year, 12) == 334 + leap
  {
    assert MonthStart(year, 3) == MonthStart(year, 2) + DaysInMonth(year, 2);
    assert MonthStart(year, 5) == MonthStart(year, 4) + DaysInMonth(year, 4);
    assert MonthStart(year, 7) == MonthStart(year, 6) + DaysInMonth(year, 6);
    assert MonthStart(year, 9) == MonthStart(year, 8) + DaysInMonth(year, 8);
    assert MonthStart(year, 11) == MonthStart(year, 10) + DaysInMonth(year, 10);
  }

  lemma NextDayAdvances(d: Date)
    requires ValidDate(d)
    ensures ValidDate(NextDay(d)) && DaysFromCivil(NextDay(d)) == DaysFromCivil(d) + 1
  {
    if d.day == DaysInMonth(d.year, d.month) && d.month == 12 {
      YearLength(d.year);
      MonthTable(d.year);
    }
  }

  // ---------- the conversion ----------

  /** Division rounding toward zero, as the source's integers do. */
  function TruncDiv(a: int, b: int): int
    requires b > 0
  {
    if a >= 0 then a / b else -(-a / b)
  }

  function Era(shifted: int): int {
    if shifted >= 0 then TruncDiv(shifted, 146_097) else TruncDiv(shifted - 146_096, 146_097)
  }

  function YearOfEra(dayOfEra: int): int {
    TruncDiv(dayOfEra - TruncDiv(dayOfEra, 1_460) + TruncDiv(dayOfEra, 36_524) - TruncDiv(dayOfEra, 146_096), 365)
  }

  function DayOfYear(dayOfEra: int, yearOfEra: int): int {
    dayOfEra - (365 * yearOfEra + TruncDiv(yearOfEra, 4) - TruncDiv(yearOfEra, 100))
  }

  /** Year, counted from March, with the day of that year, to a date. */
  function FromMarch(year: int, dayOfYear: int): Date {
    var monthPart := TruncDiv(5 * dayOfYear + 2, 153);
    var day := dayOfYear - TruncDiv(153 * monthPart + 2, 5) + 1;
    var month := monthPart + if monthPart < 10 then 3 else -9;
    Date(year + if month <= 2 then 1 else 0, month, day)
  }

  function FromEra(era: int, dayOfEra: int): Date {
    var yearOfEra := YearOfEra(dayOfEra);
    FromMarch(yearOfEra + era * 400, DayOfYear(dayOfEra, yearOfEra))
  }

  function FromDays(days: int): Date {
    var shifted := days + 719_468;
    var era := Era(shifted);
    FromEra(era, shifted - era * 146_097)
  }

  lemma EraFloors(shifted: int)
    ensures 0 <= shifted - Era(shifted) * 146_097 < 146_097
  {
  }

  function Min(a: int, b: int): int { if a < b then a else b }

  /** A day of the era by century, four-year group, year and day: the day is 365 only in the last
      year of a group, and not in the last group of a century unless it is the last century. */
  lemma Parts(dayOfEra: int) returns (c: int, q: int, r: int, day: int)
    requires 0 <= dayOfEra <= 146_096
    ensures dayOfEra == 36_524 * c + 1_461 * q + 365 * r + day
    ensures 0 <= c <= 3 && 0 <= q <= 24 && 0 <= r <= 3 && 0 <= day <= 365
    ensures day == 365 ==> r == 3 && (q < 24 || c == 3)
  {
    c := Min(dayOfEra / 36_524, 3);
    var inCentury := dayOfEra - 36_524 * c;
    q := Min(inCentury / 1_461, 24);
    var inGroup := inCentury - 1_461 * q;
    r := Min(inGroup / 365, 3);
    day := inGroup - 365 * r;
  }

  lemma YearFromParts(dayOfEra: int, c: int, q: int, r: int, day: int)
    requires dayOfEra == 36_524 * c + 1_461 * q + 365 * r + day
    requires 0 <= c <= 3 && 0 <= q <= 24 && 0 <= r <= 3 && 0 <= day <= 365
    requires day == 365 ==> r == 3 && (q < 24 || c == 3)
    ensures YearOfEra(dayOfEra) == 100 * c + 4 * q + r
  {
    var carry := if 24 * c + q + 365 * r + day < 1_460 then 0 else 1;
    assert dayOfEra / 1_460 == 25 * c + q + carry;
    if 1_461 * q + 365 * r + day < 36_524 {
      assert dayOfEra / 36_524 == c && dayOfEra / 146_096 == 0;
    } else {
      assert dayOfEra / 36_524 == 4 && dayOfEra / 146_096 == 1;
    }
  }

  lemma LeapFromParts(c: int, q: int)
    requires 0 <= c <= 3 && 0 <= q <= 24 && (q < 24 || c == 3)
    ensures IsLeap(100 * c + 4 * q + 4)
  {
    var y := 100 * c + 4 * q + 4;
    assert y == 4 * (25 * c + q + 1) && y % 4 == 0;
    if q < 24 {
      assert y % 100 == 4 * (q + 1);
    }
  }

  /** The year of the era is exact: its day is in range, and is day 365 only before a leap day. */
  lemma YearIsExact(dayOfEra: int)
    requires 0 <= dayOfEra < 146_097
    ensures var y := YearOfEra(dayOfEra); var day := DayOfYear(dayOfEra, y);
      0 <= y <= 399 && 0 <= day <= 365 && (day == 365 ==> IsLeap(y + 1))
  {
    var c, q, r, day := Parts(dayOfEra);
    YearFromParts(dayOfEra, c, q, r, day);
    DayFromParts(dayOfEra, c, q, r, day);
    if day == 365 { LeapFromParts(c, q); }
  }

  lemma DayFromParts(dayOfEra: int, c: int, q: int, r: int, day: int)
    requires dayOfEra == 36_524 * c + 1_461 * q + 365 * r + day
    requires 0 <= c <= 3 && 0 <= q <= 24 && 0 <= r <= 3
    ensures DayOfYear(dayOfEra, 100 * c + 4 * q + r) == day
  {
    var y := 100 * c + 4 * q + r;
    assert y / 4 == 25 * c + q && y / 100 == c;
  }

  lemma FourRepeats(x: int, k: int)
    ensures (x + 4 * k) % 4 == x % 4
  {
    assert x + 4 * k == 4 * (x / 4 + k) + x % 4;
  }

  lemma HundredRepeats(x: int, k: int)
    ensures (x + 100 * k) % 100 == x % 100
  {
    assert x + 100 * k == 100 * (x / 100 + k) + x % 100;
  }

  lemma FourHundredRepeats(x: int, k: int)
    ensures (x + 400 * k) % 400 == x % 400
  {
    assert x + 400 * k == 400 * (x / 400 + k) + x % 400;
  }

  lemma LeapRepeats(year: int, era: int)
    ensures IsLeap(year + 400 * era) == IsLeap(year)
  {
    var fours, hundreds := 100 * era, 4 * era;
    FourRepeats(year, fours);
    HundredRepeats(year, hundreds);
    FourHundredRepeats(year, era);
    assert year + 400 * era == year + 4 * fours == year + 100 * hundreds;
  }

  lemma YearStartRepeats(y: int, era: int)
    requires 0 <= y <= 399
    ensures YearStart(y + 400 * era + 1) == 146_097 * era + 365 * y + y / 4 - y / 100
  {
    var z := y + 400 * era;
    assert z / 4 == y / 4 + 100 * era && z / 100 == y / 100 + 4 * era && z / 400 == era;
  }

  /** Days from the first of March to the start of the `part`-th month after it. */
  function MarchStart(part: int): int {
    (153 * part + 2) / 5
  }

  lemma MarchPart(day: int)
    requires 0 <= day <= 365
    ensures var part := (5 * day + 2) / 153;
      && 0 <= part <= 11 && MarchStart(part) <= day
      && (part < 11 ==> day < MarchStart(part + 1))
      && (day < 365 ==> day < MarchStart(11) + 28)
      && MarchStart(11) == 337
  {
  }

  /** The months from March to December, of the same year. */
  lemma LateMonths(year: int, part: int)
    requires 0 <= part <= 9
    ensures YearStart(year) + MonthStart(year, part + 3) == YearStart(year + 1) - 306 + MarchStart(part)
    ensures DaysInMonth(year, part + 3) == MarchStart(part + 1) - MarchStart(part)
  {
    MonthTable(year);
    YearLength(year);
  }

  lemma LateDate(year: int, day: int, part: int)
    requires 0 <= part <= 9 && MarchStart(part) <= day < MarchStart(part + 1)
    ensures var d := Date(year, part + 3, day - MarchStart(part) + 1);
      ValidDate(d) && DaysFromCivil(d) == YearStart(year + 1) - YearStart(1970) - 306 + day
  {
    LateMonths(year, part);
  }

  lemma EarlyDate(year: int, day: int, part: int)
    requires 10 <= part <= 11 && MarchStart(part) <= day <= 365
    requires part == 10 ==> day < MarchStart(11)
    requires day == 365 ==> IsLeap(year + 1)
    ensures var d := Date(year + 1, part - 9, day - MarchStart(part) + 1);
      ValidDate(d) && DaysFromCivil(d) == YearStart(year + 1) - YearStart(1970) - 306 + day
  {
    assert MonthStart(year + 1, 2) == 31;
  }

  /** A day counted from March is a valid date, that many days after the first of March. */
  lemma MarchDate(year: int, day: int)
    requires 0 <= day <= 365 && (day == 365 ==> IsLeap(year + 1))
    ensures var d := FromMarch(year, day);
      ValidDate(d) && DaysFromCivil(d) == YearStart(year + 1) - YearStart(1970) - 306 + day
  {
    var part := (5 * day + 2) / 153;
    MarchPart(day);
    if part < 10 { LateDate(year, day, part); } else { EarlyDate(year, day, part); }
  }

  lemma DayOfYearSplits(dayOfEra: int, y: int)
    requires 0 <= y
    ensures dayOfEra == 365 * y + y / 4 - y / 100 + DayOfYear(dayOfEra, y)
  {
  }

  lemma MarchDays(era: int, dayOfEra: int, y: int, day: int)
    requires dayOfEra == 365 * y + y / 4 - y / 100 + day
    requires 0 <= y <= 399 && 0 <= day <= 365 && (day == 365 ==> IsLeap(y + 1))
    ensures var d := FromMarch(y + era * 400, day);
      ValidDate(d) && DaysFromCivil(d) == 146_097 * era + dayOfEra - 719_468
  {
    LeapRepeats(y + 1, era);
    YearStartRepeats(y, era);
    MarchDate(y + 400 * era, day);
    assert YearStart(1970) == 719_162;
  }

  /** Within an era the conversion loses nothing. */
  lemma FromEraInverts(era: int, dayOfEra: int, days: int)
    requires 0 <= dayOfEra < 146_097 && days == era * 146_097 + dayOfEra - 719_468
    ensures ValidDate(FromEra(era, dayOfEra)) && DaysFromCivil(FromEra(era, dayOfEra)) == days
  {
    var y := YearOfEra(dayOfEra);
    YearIsExact(dayOfEra);
    DayOfYearSplits(dayOfEra, y);
    MarchDays(era, dayOfEra, y, DayOfYear(dayOfEra, y));
  }

  lemma EraOf(days: int) returns (era: int, dayOfEra: int)
    ensures 0 <= dayOfEra < 146_097 && days == era * 146_097 + dayOfEra - 719_468
    ensures FromDays(days) == FromEra(era, dayOfEra)
  {
    era := Era(days + 719_468);
    EraFloors(days + 719_468);
    dayOfEra := days + 719_468 - era * 146_097;
  }

  /** Every day number gives a valid date, and counting years and months gives it back. */
  lemma FromDaysInverts(days: int)
    ensures ValidDate(FromDays(days)) && DaysFromCivil(FromDays(days)) == days
  {
    var era, dayOfEra := EraOf(days);
    FromEraInverts(era, dayOfEra, days);
  }

  // ---------- dates in order ----------

  predicate Before(d: Date, e: Date) {
    d.year < e.year || (d.year == e.year && (d.month < e.month || (d.month == e.month && d.day < e.day)))
  }

  lemma {:induction false} YearStartGrows(y: int, z: int)
    requires y < z
    ensures YearStart(y + 1) <= YearStart(z)
    decreases z - y
  {
    if y + 1 < z {
      YearStartGrows(y, z - 1);
      YearLength(z - 1);
    }
  }

  lemma {:induction false} MonthStartGrows(year: int, m: int, n: int)
    requires 1 <= m < n <= 12
    ensures MonthStart(year, m) + DaysInMonth(year, m) <= MonthStart(year, n)
    decreases n
  {
    if m + 1 < n { MonthStartGrows(year, m, n - 1); }
  }

  lemma WithinYear(d: Date)
    requires ValidDate(d)
    ensures 0 <= MonthStart(d.year, d.month) + d.day - 1 < YearStart(d.year + 1) - YearStart(d.year)
  {
    MonthTable(d.year);
    YearLength(d.year);
    if d.month < 12 { MonthStartGrows(d.year, d.month, 12); }
    if 1 < d.month { MonthStartGrows(d.year, 1, d.month); }
  }

  /** Later dates have larger day numbers. */
  lemma DaysFromCivilOrders(d: Date, e: Date)
    requires ValidDate(d) && ValidDate(e) && Before(d, e)
    ensures DaysFromCivil(d) < DaysFromCivil(e)
  {
    if d.year < e.year {
      WithinYear(d);
      WithinYear(e);
      YearStartGrows(d.year, e.year);
    } else if d.month < e.month {
      MonthStartGrows(d.year, d.month, e.month);
    }
  }

  lemma SameDay(d: Date, e: Date)
    requires ValidDate(d) && ValidDate(e) && DaysFromCivil(d) == DaysFromCivil(e)
    ensures d == e
  {
    if Before(d, e) { DaysFromCivilOrders(d, e); }
    if Before(e, d) { DaysFromCivilOrders(e, d); }
  }

  /** The conversion and the count are inverse in the other direction too. */
  lemma FromDaysCovers(d: Date)
    requires ValidDate(d)
    ensures FromDays(DaysFromCivil(d)) == d
  {
    FromDaysInverts(DaysFromCivil(d));
    SameDay(FromDays(DaysFromCivil(d)), d);
  }

  /** Each day is the next day of the calendar after the one before it, before and after 1970 alike. */
  lemma FromDaysSteps(days: int)
    ensures FromDays(days) == NextDay(FromDays(days - 1))
  {
    FromDaysInverts(days - 1);
    FromDaysInverts(days);
    NextDayAdvances(FromDays(days - 1));
    SameDay(FromDays(days), NextDay(FromDays(days - 1)));
  }

  lemma EpochEra()
    ensures Era(719_468) == 4
  {
  }

  lemma EpochYear()
    ensures YearOfEra(135_080) == 369 && DayOfYear(135_080, 369) == 306
  {
  }

  lemma EpochIsDayZero()
    ensures FromDays(0) == EPOCH
  {
    EpochEra();
    EpochYear();
  }

  /** The conversion is the simple count of days from 1970-01-01. */
  lemma {:induction false} FromDaysCounts(n: nat)
    ensures FromDays(n) == DaysAfterEpoch(n)
  {
    if n == 0 {
      EpochIsDayZero();
    } else {
      FromDaysCounts(n - 1);
      FromDaysSteps(n);
    }
  }

  // ---------- machine integers ----------

  const I64_MIN: int := -0x8000_0000_0000_0000
  const I64_MAX: int := 0x7FFF_FFFF_FFFF_FFFF

  predicate I64(x: int) {
    I64_MIN <= x <= I64_MAX
  }

  predicate AllI64(values: seq<int>) {
    forall i | 0 <= i < |values| :: I64(values[i])
  }

  lemma AllFit(a: seq<int>, b: seq<int>)
    requires AllI64(a) && AllI64(b)
    ensures AllI64(a + b)
  {
  }

  /** The values computed on the way from the shifted day number to the year of the era. */
  function EraValues(shifted: int): seq<int> {
    var era := Era(shifted);
    var doe := shifted - era * 146_097;
    [shifted, if shifted >= 0 then shifted else shifted - 146_096, era, era * 146_097, doe,
     TruncDiv(doe, 1_460), doe - TruncDiv(doe, 1_460), TruncDiv(doe, 36_524),
     doe - TruncDiv(doe, 1_460) + TruncDiv(doe, 36_524), TruncDiv(doe, 146_096),
     doe - TruncDiv(doe, 1_460) + TruncDiv(doe, 36_524) - TruncDiv(doe, 146_096), YearOfEra(doe)]
  }

  /** The values computed from there to the date. */
  function DateValues(era: int, doe: int, y: int): seq<int> {
    var doy := DayOfYear(doe, y);
    var part := TruncDiv(5 * doy + 2, 153);
    var d := FromMarch(y + era * 400, doy);
    [era * 400, y + era * 400, 365 * y, TruncDiv(y, 4), 365 * y + TruncDiv(y, 4), TruncDiv(y, 100),
     365 * y + TruncDiv(y, 4) - TruncDiv(y, 100), doy, 5 * doy, 5 * doy + 2, part, 153 * part, 153 * part + 2,
     TruncDiv(153 * part + 2, 5), doy - TruncDiv(153 * part + 2, 5), d.day, d.month, d.year]
  }

  function Intermediates(days: int): seq<int> {
    var shifted := days + 719_468;
    var era := Era(shifted);
    var doe := shifted - era * 146_097;
    EraValues(shifted) + DateValues(era, doe, YearOfEra(doe))
  }

  lemma EraValuesFit(shifted: int)
    requires I64(shifted) && I64(shifted - 146_096)
    ensures AllI64(EraValues(shifted))
  {
    var era := Era(shifted);
    var doe := shifted - era * 146_097;
    EraFloors(shifted);
    YearIsExact(doe);
    assert 0 <= TruncDiv(doe, 1_460) <= 100 && 0 <= TruncDiv(doe, 36_524) <= 4 && 0 <= TruncDiv(doe, 146_096) <= 1;
  }

  lemma DateValuesFit(era: int, doe: int, y: int)
    requires I64(era * 146_097 - 146_097) && I64(era * 146_097 + 146_097)
    requires 0 <= doe < 146_097 && y == YearOfEra(doe)
    ensures AllI64(DateValues(era, doe, y))
  {
    YearIsExact(doe);
    var doy := DayOfYear(doe, y);
    MarchPart(doy);
  }

  /** Every value computed fits as soon as the shifted day number and its floor correction do. */
  lemma IntermediatesFit(days: int)
    requires I64(days + 719_468 + 146_097) && I64(days + 719_468 - 2 * 146_097)
    ensures AllI64(Intermediates(days))
  {
    var shifted := days + 719_468;
    var era := Era(shifted);
    var doe := shifted - era * 146_097;
    EraFloors(shifted);
    SplitFits(shifted, era, doe);
  }

  lemma SplitFits(shifted: int, era: int, doe: int)
    requires I64(shifted + 146_097) && I64(shifted - 2 * 146_097)
    requires era == Era(shifted) && doe == shifted - era * 146_097 && 0 <= doe < 146_097
    ensures AllI64(EraValues(shifted) + DateValues(era, doe, YearOfEra(doe)))
  {
    EraValuesFit(shifted);
    DateValuesFit(era, doe, YearOfEra(doe));
    AllFit(EraValues(shifted), DateValues(era, doe, YearOfEra(doe)));
  }
}
