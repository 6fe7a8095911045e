// The UTC build date stamped into the binary: epoch seconds to a Gregorian date.
module CivilDate {
  import opened Digits

  const SECONDS_PER_DAY := 86_400
  const U64_END: int := 0x1_0000_0000_0000_0000
  const I64_END: int := 0x8000_0000_0000_0000

  type u64 = n: int | 0 <= n < U64_END

  // --- The calendar itself: ISO 8601:2004, section 3.2.1 ---

  datatype Date = Date(year: int, month: int, day: int)

  predicate IsLeap(y: int) {
    y % 4 == 0 && (y % 100 != 0 || y % 400 == 0)
  }

  function YearLength(y: int): int {
    if IsLeap(y) then 366 else 365
  }

  function MonthLength(y: int, m: int): int
    requires 1 <= m <= 12
  {
    if m == 2 then (if IsLeap(y) then 29 else 28)
    else if m == 4 || m == 6 || m == 9 || m == 11 then 30
    else 31
  }

  ghost predicate ValidDate(t: Date) {
    && t.year >= 1970
    && 1 <= t.month <= 12
    && 1 <= t.day <= MonthLength(t.year, t.month)
  }

  // Days from 1 January 1970 to 1 January of year y, one year at a time.
  ghost function DaysBeforeYear(y: int): int
    requires y >= 1970
    decreases y
  {
    if y == 1970 then 0 else DaysBeforeYear(y - 1) + YearLength(y - 1)
  }

  // Days from the first of the year to the first of month m, one month at a time.
  ghost function DaysBeforeMonth(y: int, m: int): int
    requires 1 <= m <= 12
    decreases m
  {
    if m == 1 then 0 else DaysBeforeMonth(y, m - 1) + MonthLength(y, m - 1)
  }

  ghost function DayNumber(t: Date): int
    requires ValidDate(t)
  {
    DaysBeforeYear(t.year) + DaysBeforeMonth(t.year, t.month) + t.day - 1
  }

  ghost function NextDay(t: Date): Date
    requires ValidDate(t)
  {
    if t.day < MonthLength(t.year, t.month) then Date(t.year, t.month, t.day + 1)
    else if t.month < 12 then Date(t.year, t.month + 1, 1)
    else Date(t.year + 1, 1, 1)
  }

  // --- The program's arithmetic ---

  // Every named intermediate of the conversion.
  datatype Civil = Civil(days: int, z: int, era: int, doe: int, yoe: int, y: int,
                         doy: int, mp: int, d: int, m: int, year: int)

  // Rust's `/` truncates toward zero; the branch on z keeps the numerator's sign harmless.
  function CivilFromEpoch(epoch: u64): Civil {
    var days := epoch / SECONDS_PER_DAY;
    var z := days + 719_468;
    var era := TruncDiv(if z >= 0 then z else z - 146_096, 146_097);
    var doe := z - era * 146_097;
    var yoe := (doe - doe / 1460 + doe / 36524 - doe / 146096) / 365;
    var y := yoe + era * 400;
    var doy := doe - (365 * yoe + yoe / 4 - yoe / 100);
    var mp := (5 * doy + 2) / 153;
    var d := doy - (153 * mp + 2) / 5 + 1;
    var m := if mp < 10 then mp + 3 else mp - 9;
    var year := if m <= 2 then y + 1 else y;
    Civil(days, z, era, doe, yoe, y, doy, mp, d, m, year)
  }

  function TruncDiv(a: int, b: int): int
    requires b > 0
  {
    if a >= 0 then a / b else -((-a) / b)
  }

  function BuildDate(epoch: u64): Date {
    var c := CivilFromEpoch(epoch);
    Date(c.year, c.m, c.d)
  }

  function FormatDate(t: Date): string
    requires t.year >= 0 && t.month >= 0 && t.day >= 0
  {
    PadStart(ToDigits(t.year, 10), 4) + "-" + PadStart(ToDigits(t.month, 10), 2) + "-"
    + PadStart(ToDigits(t.day, 10), 2)
  }

  // --- Proofs ---

  function YearOfEra(doe: int): int {
    (doe - doe / 1460 + doe / 36524 - doe / 146096) / 365
  }

  // Days from 1 March of year 0 of an era to 1 March of its year k.
  function MarchOffset(k: int): int {
    365 * k + k / 4 - k / 100
  }

  // A day of an era is century a, four-year group b, year j, day e of a March-based year.
  ghost predicate EraDay(a: int, b: int, j: int, e: int) {
    && 0 <= a < 4 && 0 <= b < 25 && 0 <= j < 4 && 0 <= e <= 365
    && (e == 365 ==> j == 3 && (b == 24 ==> a == 3))
  }

  lemma SplitEra(doe: int) returns (a: int, b: int, j: int, e: int)
    requires 0 <= doe <= 146_096
    ensures EraDay(a, b, j, e)
    ensures doe == 36524 * a + 1461 * b + 365 * j + e
  {
    a := if doe == 146_096 then 3 else doe / 36524;
    var r := doe - 36524 * a;
    b := if r == 36524 then 24 else r / 1461;
    var q := r - 1461 * b;
    j := if q == 1460 then 3 else q / 365;
    e := q - 365 * j;
  }

  // The closed form for the year of an era inverts the March offsets.
  lemma YearOfEraCorrect(a: int, b: int, j: int, e: int)
    requires EraDay(a, b, j, e)
    ensures var k := 100 * a + 4 * b + j;
            YearOfEra(36524 * a + 1461 * b + 365 * j + e) == k
            && MarchOffset(k) == 36524 * a + 1461 * b + 365 * j
  {
    var k := 100 * a + 4 * b + j;
    var doe := 36524 * a + 1461 * b + 365 * j + e;
    assert k / 4 == 25 * a + b && k / 100 == a;
    var t := 365 * j + e + 24 * a + b;
    var carry := if t >= 1460 then 1 else 0;
    assert doe == 1460 * (25 * a + b) + t;
    assert doe / 1460 == 25 * a + b + carry;
    var last := if doe == 146_096 then 1 else 0;
    assert doe / 36524 == a + last;
    assert doe / 146_096 == last;
    assert doe - doe / 1460 + doe / 36524 - doe / 146_096 == 365 * k + e - carry;
  }

  lemma FloorSteps(y: int)
    ensures y / 4 - (y - 1) / 4 == if y % 4 == 0 then 1 else 0
    ensures y / 100 - (y - 1) / 100 == if y % 100 == 0 then 1 else 0
    ensures y / 400 - (y - 1) / 400 == if y % 400 == 0 then 1 else 0
  {
  }

  lemma CenturiesDivide(y: int)
    ensures y % 400 == 0 ==> y % 100 == 0
    ensures y % 100 == 0 ==> y % 4 == 0
  {
    HundredTimes(4 * (y / 400));
    FourTimes(25 * (y / 100));
  }

  lemma HundredTimes(q: int)
    ensures 100 * q % 100 == 0
  {
  }

  lemma FourTimes(q: int)
    ensures 4 * q % 4 == 0
  {
  }

  // The count of leap days up to year y grows by one exactly at leap years.
  lemma LeapStep(y: int)
    ensures (y / 4 - y / 100 + y / 400) - ((y - 1) / 4 - (y - 1) / 100 + (y - 1) / 400)
         == if IsLeap(y) then 1 else 0
  {
    FloorSteps(y);
    CenturiesDivide(y);
  }

  lemma {:induction false} DaysBeforeYearClosed(y: int)
    requires y >= 1970
    ensures DaysBeforeYear(y) == 365 * y + (y - 1) / 4 - (y - 1) / 100 + (y - 1) / 400 - 719_527
    decreases y
  {
    if y > 1970 {
      DaysBeforeYearClosed(y - 1);
      LeapStep(y - 1);
    }
  }

  // 1 March of year y, as a day number.
  lemma MarchFirst(y: int)
    requires y >= 1970
    ensures DaysBeforeYear(y) + 59 + (if IsLeap(y) then 1 else 0)
         == 365 * y + y / 4 - y / 100 + y / 400 - 719_468
  {
    DaysBeforeYearClosed(y);
    LeapStep(y);
  }

  // Where a day falls: its era, and its century, group, year and day inside it.
  lemma Locate(epoch: u64) returns (a: int, b: int, j: int, e: int)
    ensures EraDay(a, b, j, e)
    ensures var c := CivilFromEpoch(epoch);
            && c.doe == 36524 * a + 1461 * b + 365 * j + e
            && c.yoe == 100 * a + 4 * b + j
            && c.doe == MarchOffset(c.yoe) + c.doy
            && c.doy == e
            && c.z == 146_097 * c.era + c.doe
  {
    var c := CivilFromEpoch(epoch);
    assert c.era == c.z / 146_097;
    a, b, j, e := SplitEra(c.doe);
    YearOfEraCorrect(a, b, j, e);
  }

  lemma EpochBound(epoch: u64)
    ensures var c := CivilFromEpoch(epoch);
            && 0 <= c.days == c.z - 719_468 < 213_503_982_334_602
            && 4 <= c.era < 1_461_400_000
  {
  }

  lemma LastDayIsLeap(era: int, a: int, b: int, j: int)
    requires EraDay(a, b, j, 365)
    ensures IsLeap(400 * era + 100 * a + 4 * b + j + 1)
  {
    var y := 400 * era + 100 * a + 4 * b + j + 1;
    assert y == 4 * (100 * era + 25 * a + b + 1);
    if b == 24 {
      assert y == 400 * (era + 1);
    } else {
      assert y == 100 * (4 * era + a) + 4 * (b + 1);
    }
  }

  // March-based months: the affine rule gives each month its real length.
  lemma MonthRule(doy: int)
    requires 0 <= doy <= 365
    ensures var mp := (5 * doy + 2) / 153;
            && 0 <= mp <= 11
            && (153 * mp + 2) / 5 <= doy
            && (mp < 11 ==> doy < (153 * mp + 155) / 5)
  {
  }

  // Every intermediate stays in the range its comment promises, and inside i64.
  lemma IntermediatesInRange(epoch: u64)
    ensures var c := CivilFromEpoch(epoch);
            && 0 <= c.days < c.z < I64_END
            && 0 <= c.era * 146_097 <= c.z
            && 0 <= c.doe <= 146_096
            && 0 <= c.yoe <= 399
            && 0 <= c.y < I64_END
            && 0 <= c.doy <= 365
            && 0 <= c.mp <= 11
            && 1 <= c.d <= 31
            && 1 <= c.m <= 12
            && 1970 <= c.year < I64_END
  {
    var c := CivilFromEpoch(epoch);
    EpochBound(epoch);
    var a, b, j, e := Locate(epoch);
    MonthRule(c.doy);
    YearAtLeast1970(c.era, a, b, j, e);
  }

  lemma YearAtLeast1970(era: int, a: int, b: int, j: int, e: int)
    requires EraDay(a, b, j, e)
    requires 146_097 * era + 36524 * a + 1461 * b + 365 * j + e >= 719_468
    ensures 400 * era + 100 * a + 4 * b + j >= 1970
         || (400 * era + 100 * a + 4 * b + j == 1969 && e >= 306)
  {
  }

  // Day doy of the year that starts on 1 March of year y.
  function MarchDate(y: int, doy: int): Date {
    var mp := (5 * doy + 2) / 153;
    var m := if mp < 10 then mp + 3 else mp - 9;
    Date(if m <= 2 then y + 1 else y, m, doy - (153 * mp + 2) / 5 + 1)
  }

  // Counting real year and month lengths from the March-based position gives the day back.
  lemma DayNumberFromMarch(y: int, doy: int)
    requires y >= 1969 && 0 <= doy <= 365
    requires doy == 365 ==> IsLeap(y + 1)
    requires y == 1969 ==> doy >= 306
    ensures ValidDate(MarchDate(y, doy))
    ensures DayNumber(MarchDate(y, doy)) == 365 * y + y / 4 - y / 100 + y / 400 - 719_468 + doy
  {
    MonthRule(doy);
    var mp := (5 * doy + 2) / 153;
    if mp < 10 {
      MarchFirst(y);
      MonthsFromMarch(y, mp + 3);
    } else {
      DaysBeforeYearClosed(y + 1);
      MonthsFromMarch(y + 1, mp - 9);
    }
  }

  lemma MonthsFromMarch(y: int, m: int)
    requires 1 <= m <= 12
    ensures DaysBeforeMonth(y, m) ==
            if m <= 2 then (153 * (m + 9) + 2) / 5 - 306
            else 59 + (if IsLeap(y) then 1 else 0) + (153 * (m - 3) + 2) / 5
  {
    if m > 1 {
      MonthsFromMarch(y, m - 1);
    }
  }

  lemma DayNumberFromEra(era: int, a: int, b: int, j: int, e: int)
    requires EraDay(a, b, j, e)
    requires 146_097 * era + 36524 * a + 1461 * b + 365 * j + e >= 719_468
    ensures var t := MarchDate(400 * era + 100 * a + 4 * b + j, e);
            && ValidDate(t)
            && DayNumber(t) == 146_097 * era + 36524 * a + 1461 * b + 365 * j + e - 719_468
  {
    YearAtLeast1970(era, a, b, j, e);
    if e == 365 {
      LastDayIsLeap(era, a, b, j);
    }
    DayNumberFromMarch(400 * era + 100 * a + 4 * b + j, e);
    YearOfEraCorrect(a, b, j, e);
    EraShift(era, 100 * a + 4 * b + j);
  }

  // The date computed for any u64 of seconds is a real date, and it is the one whose
  // day count from 1 January 1970 is the whole days elapsed.
  lemma BuildDateCorrect(epoch: u64)
    ensures ValidDate(BuildDate(epoch))
    ensures DayNumber(BuildDate(epoch)) == epoch / SECONDS_PER_DAY
  {
    var a, b, j, e := Locate(epoch);
    EpochBound(epoch);
    BuildDateIsMarch(epoch);
    DateFromFields(CivilFromEpoch(epoch), BuildDate(epoch), a, b, j, e);
  }

  lemma BuildDateIsMarch(epoch: u64)
    ensures var c := CivilFromEpoch(epoch);
      BuildDate(epoch) == MarchDate(c.y, c.doy) && c.y == c.yoe + c.era * 400 && c.days == epoch / SECONDS_PER_DAY
  {
  }

  lemma DateFromFields(c: Civil, t: Date, a: int, b: int, j: int, e: int)
    requires EraDay(a, b, j, e) && c.doe == 36524 * a + 1461 * b + 365 * j + e
    requires c.yoe == 100 * a + 4 * b + j && c.doy == e && c.z == 146_097 * c.era + c.doe
    requires c.days == c.z - 719_468 >= 0 && c.y == c.yoe + c.era * 400 && t == MarchDate(c.y, c.doy)
    ensures ValidDate(t) && DayNumber(t) == c.days
  {
    assert c.y == 400 * c.era + 100 * a + 4 * b + j;
    DayNumberFromEra(c.era, a, b, j, e);
  }

  lemma EraShift(era: int, k: int)
    requires 0 <= k <= 399
    ensures var y := k + era * 400;
            365 * y + y / 4 - y / 100 + y / 400 == 146_097 * era + MarchOffset(k)
  {
    var y := k + era * 400;
    assert y == 4 * (100 * era) + k && y == 100 * (4 * era) + k;
    assert y / 4 == 100 * era + k / 4 && y / 100 == 4 * era + k / 100 && y / 400 == era;
  }

  // --- What follows for the calendar ---

  lemma {:induction false} YearsMonotone(y: int, y': int)
    requires 1970 <= y < y'
    ensures DaysBeforeYear(y) + YearLength(y) <= DaysBeforeYear(y')
    decreases y'
  {
    if y + 1 < y' {
      YearsMonotone(y, y' - 1);
    }
  }

  lemma {:induction false} MonthsMonotone(y: int, m: int, m': int)
    requires 1 <= m < m' <= 12
    ensures DaysBeforeMonth(y, m) + MonthLength(y, m) <= DaysBeforeMonth(y, m')
    decreases m'
  {
    if m + 1 < m' {
      MonthsMonotone(y, m, m' - 1);
    }
  }

  lemma DayWithinYear(t: Date)
    requires ValidDate(t)
    ensures DaysBeforeYear(t.year) <= DayNumber(t) < DaysBeforeYear(t.year) + YearLength(t.year)
  {
    MonthsFromMarch(t.year, t.month);
    MonthsFromMarch(t.year, 12);
    if t.month < 12 {
      MonthsMonotone(t.year, t.month, 12);
    }
  }

  // A day number belongs to one date only.
  lemma DayNumberInjective(s: Date, t: Date)
    requires ValidDate(s) && ValidDate(t) && DayNumber(s) == DayNumber(t)
    ensures s == t
  {
    DayWithinYear(s);
    DayWithinYear(t);
    if s.year < t.year {
      YearsMonotone(s.year, t.year);
    } else if t.year < s.year {
      YearsMonotone(t.year, s.year);
    } else if s.month < t.month {
      MonthsMonotone(s.year, s.month, t.month);
    } else if t.month < s.month {
      MonthsMonotone(s.year, t.month, s.month);
    }
  }

  lemma NextDayNumber(t: Date)
    requires ValidDate(t)
    ensures ValidDate(NextDay(t)) && DayNumber(NextDay(t)) == DayNumber(t) + 1
  {
    MonthsFromMarch(t.year, 12);
  }

  lemma Successor(s: Date, t: Date)
    requires ValidDate(s) && ValidDate(t) && DayNumber(t) == DayNumber(s) + 1
    ensures t == NextDay(s)
  {
    NextDayNumber(s);
    DayNumberInjective(t, NextDay(s));
  }

  lemma WholeDays(epoch: int)
    ensures (epoch + SECONDS_PER_DAY) / SECONDS_PER_DAY == epoch / SECONDS_PER_DAY + 1
  {
  }

  // One day later the build date is the calendar successor.
  lemma DayLaterIsNextDate(epoch: u64, later: u64)
    requires later == epoch + SECONDS_PER_DAY
    ensures ValidDate(BuildDate(epoch)) && BuildDate(later) == NextDay(BuildDate(epoch))
  {
    BuildDateCorrect(epoch);
    BuildDateCorrect(later);
    WholeDays(epoch);
    Successor(BuildDate(epoch), BuildDate(later));
  }

  // Two builds print the same date exactly when they fall on the same UTC day.
  lemma SameTextSameDay(e1: u64, e2: u64)
    ensures ValidDate(BuildDate(e1)) && ValidDate(BuildDate(e2))
    ensures FormatDate(BuildDate(e1)) == FormatDate(BuildDate(e2))
       <==> e1 / SECONDS_PER_DAY == e2 / SECONDS_PER_DAY
  {
    BuildDateCorrect(e1);
    BuildDateCorrect(e2);
    var s, t := BuildDate(e1), BuildDate(e2);
    if FormatDate(s) == FormatDate(t) {
      FieldWidths(s);
      FieldWidths(t);
      FieldsRecovered(s, t);
    } else if e1 / SECONDS_PER_DAY == e2 / SECONDS_PER_DAY {
      DayNumberInjective(s, t);
    }
  }

  // The month and day fields take exactly two characters each.
  lemma FieldWidths(t: Date)
    requires ValidDate(t)
    ensures |PadStart(ToDigits(t.month, 10), 2)| == 2 && |PadStart(ToDigits(t.day, 10), 2)| == 2
  {
    assert Pow(10, 2) == 10 * Pow(10, 1) == 10 * (10 * Pow(10, 0)) == 100;
    LengthBound(t.month, 10, 2);
    LengthBound(t.day, 10, 2);
  }

  lemma FieldsCut(y: string, m: string, d: string)
    requires |m| == |d| == 2
    ensures var f := y + "-" + m + "-" + d;
      |f| >= 6 && f[..|f| - 6] == y && f[|f| - 5..|f| - 3] == m && f[|f| - 2..] == d
  {
  }

  lemma FieldsRecovered(s: Date, t: Date)
    requires ValidDate(s) && ValidDate(t) && FormatDate(s) == FormatDate(t)
    requires |PadStart(ToDigits(s.month, 10), 2)| == |PadStart(ToDigits(t.month, 10), 2)| == 2
    requires |PadStart(ToDigits(s.day, 10), 2)| == |PadStart(ToDigits(t.day, 10), 2)| == 2
    ensures s == t
  {
    var y, y' := PadStart(ToDigits(s.year, 10), 4), PadStart(ToDigits(t.year, 10), 4);
    var m, m' := PadStart(ToDigits(s.month, 10), 2), PadStart(ToDigits(t.month, 10), 2);
    var d, d' := PadStart(ToDigits(s.day, 10), 2), PadStart(ToDigits(t.day, 10), 2);
    FieldsCut(y, m, d);
    FieldsCut(y', m', d');
    PadRoundTrip(s.year, 10, 4);
    PadRoundTrip(t.year, 10, 4);
    PadRoundTrip(s.month, 10, 2);
    PadRoundTrip(t.month, 10, 2);
    PadRoundTrip(s.day, 10, 2);
    PadRoundTrip(t.day, 10, 2);
  }

  // A text of the form year-month-day, every field a decimal numeral: month and day of two digits,
  // the year of four, or of more without a leading zero.
  ghost predicate Reads(f: string, t: Date) {
    && |f| >= 10 && (|f| == 10 || f[0] != '0') && f[|f| - 6] == '-' && f[|f| - 3] == '-'
    && AllDigits(f[..|f| - 6], 10) && FromDigits(f[..|f| - 6], 10) == t.year
    && AllDigits(f[|f| - 5..|f| - 3], 10) && FromDigits(f[|f| - 5..|f| - 3], 10) == t.month
    && AllDigits(f[|f| - 2..], 10) && FromDigits(f[|f| - 2..], 10) == t.day
  }

  lemma FieldsRead(y: string, m: string, d: string, t: Date)
    requires |y| >= 4 && |m| == |d| == 2 && (|y| == 4 || y[0] != '0')
    requires AllDigits(y, 10) && AllDigits(m, 10) && AllDigits(d, 10)
    requires FromDigits(y, 10) == t.year && FromDigits(m, 10) == t.month && FromDigits(d, 10) == t.day
    ensures Reads(y + "-" + m + "-" + d, t)
  {
    FieldsCut(y, m, d);
  }

  lemma YearField(year: nat)
    requires year > 0
    ensures var y := PadStart(ToDigits(year, 10), 4);
      |y| >= 4 && (|y| == 4 || y[0] != '0') && AllDigits(y, 10) && FromDigits(y, 10) == year
  {
    NoLeadingZero(year, 10);
    PadRoundTrip(year, 10, 4);
  }

  lemma FormatReads(t: Date)
    requires ValidDate(t)
    ensures Reads(FormatDate(t), t)
  {
    var m, d := PadStart(ToDigits(t.month, 10), 2), PadStart(ToDigits(t.day, 10), 2);
    FieldWidths(t);
    YearField(t.year);
    PadRoundTrip(t.month, 10, 2);
    PadRoundTrip(t.day, 10, 2);
    FieldsRead(PadStart(ToDigits(t.year, 10), 4), m, d, t);
  }

  // The text of any moment reads as the year, the month and the day of the one date whose day
  // number is the whole days elapsed.
  lemma TextReadsAsDate(epoch: u64, t: Date)
    requires ValidDate(t) && DayNumber(t) == epoch / SECONDS_PER_DAY
    ensures ValidDate(BuildDate(epoch)) && Reads(FormatDate(BuildDate(epoch)), t)
  {
    BuildDateCorrect(epoch);
    DayNumberInjective(t, BuildDate(epoch));
    FormatReads(t);
  }
}
