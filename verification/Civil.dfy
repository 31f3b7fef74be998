/**
 The UTC day key of the quota counters: civil date from a day count in closed
 form, against a Gregorian calendar that is stepped one day at a time.
 */
module Civil {
  import opened Decimal

  datatype Date = Date(year: int, month: int, day: int)

  // ---- The closed form ----

  const ERA_DAYS: int := 146_097
  const EPOCH_SHIFT: int := 719_468

  function YearOfEra(doe: int): int {
    (doe - doe / 1460 + doe / 36_524 - doe / 146_096) / 365
  }

  /** Year, day of year and month counted from March. */
  function FromMarch(year: int, doy: int): Date {
    var mp := (5 * doy + 2) / 153;
    var day := doy - (153 * mp + 2) / 5 + 1;
    var month := if mp < 10 then mp + 3 else mp - 9;
    Date(if month <= 2 then year + 1 else year, month, day)
  }

  function CivilFromDays(days: nat): Date {
    var z := days + EPOCH_SHIFT;
    var era, doe := z / ERA_DAYS, z % ERA_DAYS;
    var yoe := YearOfEra(doe);
    FromMarch(yoe + era * 400, doe - (365 * yoe + yoe / 4 - yoe / 100))
  }

  // ---- The calendar ----

  predicate IsLeap(year: int) {
    (year % 4 == 0 && year % 100 != 0) || year % 400 == 0
  }

  function DaysIn(year: int, month: int): int {
    if month == 2 then if IsLeap(year) then 29 else 28
    else if month == 4 || month == 6 || month == 9 || month == 11 then 30
    else 31
  }

  predicate ValidDate(date: Date) {
    1 <= date.month <= 12 && 1 <= date.day <= DaysIn(date.year, date.month)
  }

  function NextDay(date: Date): Date {
    if date.day < DaysIn(date.year, date.month) then date.(day := date.day + 1)
    else if date.month < 12 then Date(date.year, date.month + 1, 1)
    else Date(date.year + 1, 1, 1)
  }

  /** The date `days` days after 1970-01-01. */
  function CalendarDate(days: nat): Date {
    if days == 0 then Date(1970, 1, 1) else NextDay(CalendarDate(days - 1))
  }

  // ---- Positions in the 400-year era, with years that start in March ----

  datatype Position = Position(era: int, yoe: int, doy: int)

  function YearStart(yoe: int): int {
    365 * yoe + yoe / 4 - yoe / 100
  }

  /** The year that starts in March ends with the leap day of the next one. */
  function YearLength(yoe: int): int {
    if IsLeap(yoe + 1) then 366 else 365
  }

  predicate ValidPosition(p: Position) {
    0 <= p.yoe < 400 && 0 <= p.doy < YearLength(p.yoe)
  }

  function Step(p: Position): Position {
    if p.doy + 1 < YearLength(p.yoe) then p.(doy := p.doy + 1)
    else if p.yoe < 399 then Position(p.era, p.yoe + 1, 0)
    else Position(p.era + 1, 0, 0)
  }

  function DayNumber(p: Position): int {
    ERA_DAYS * p.era + YearStart(p.yoe) + p.doy
  }

  function DateOf(p: Position): Date {
    FromMarch(p.yoe + p.era * 400, p.doy)
  }

  /** 1970-01-01 is day 306 of the March year 1969, the 369th of its era. */
  function PositionOf(days: nat): Position {
    if days == 0 then Position(4, 369, 306) else Step(PositionOf(days - 1))
  }

  lemma YearFits(yoe: int)
    requires 0 <= yoe < 400
    ensures YearStart(yoe) + YearLength(yoe) == if yoe < 399 then YearStart(yoe + 1) else ERA_DAYS
  {
    assert (yoe + 1) / 4 == if (yoe + 1) % 4 == 0 then yoe / 4 + 1 else yoe / 4;
    assert (yoe + 1) / 100 == if (yoe + 1) % 100 == 0 then yoe / 100 + 1 else yoe / 100;
  }

  lemma StepGood(p: Position)
    requires ValidPosition(p)
    ensures ValidPosition(Step(p)) && DayNumber(Step(p)) == DayNumber(p) + 1
  {
    YearFits(p.yoe);
    assert YearStart(0) == 0;
  }

  lemma {:induction false} PositionGood(days: nat)
    ensures ValidPosition(PositionOf(days)) && DayNumber(PositionOf(days)) == days + EPOCH_SHIFT
  {
    if days == 0 {
      assert YearStart(369) == 134_774 && YearLength(369) == 365;
    } else {
      PositionGood(days - 1);
      StepGood(PositionOf(days - 1));
    }
  }

  /** A March year has a 366th day only as the last of four, and not at the end of the first three centuries. */
  lemma LongYear(c: int, q: int, a: int)
    requires 0 <= c < 4 && 0 <= q < 25 && 0 <= a < 4
    ensures YearLength(100 * c + 4 * q + a) == if a == 3 && (q < 24 || c == 3) then 366 else 365
  {
    var next := 100 * c + 4 * q + a + 1;
    assert next % 4 == (a + 1) % 4;
    assert next % 100 == (4 * q + a + 1) % 100;
  }

  lemma Quotients(c: int, q: int, a: int, doy: int)
    requires 0 <= c < 4 && 0 <= q < 25 && 0 <= a < 4
    requires 0 <= doy < if a == 3 && (q < 24 || c == 3) then 366 else 365
    ensures var doe := 36_524 * c + 1461 * q + 365 * a + doy;
            && 0 <= doe < ERA_DAYS
            && doe / 36_524 - doe / 146_096 == c
            && doe / 1460 == 25 * c + q + if 24 * c + q + 365 * a + doy < 1460 then 0 else 1
  {
    var doe := 36_524 * c + 1461 * q + 365 * a + doy;
    assert doe == 1460 * (25 * c + q) + (24 * c + q + 365 * a + doy);
  }

  lemma YearDivides(yoe: int, r: int)
    requires 0 <= r < 365
    ensures (365 * yoe + r) / 365 == yoe
  {
  }

  lemma YearOfParts(c: int, q: int, a: int, doy: int)
    requires 0 <= c < 4 && 0 <= q < 25 && 0 <= a < 4
    requires 0 <= doy < if a == 3 && (q < 24 || c == 3) then 366 else 365
    ensures YearOfEra(36_524 * c + 1461 * q + 365 * a + doy) == 100 * c + 4 * q + a
  {
    Quotients(c, q, a, doy);
    var late := if 24 * c + q + 365 * a + doy < 1460 then 0 else 1;
    YearDivides(100 * c + 4 * q + a, doy - late);
  }

  lemma YearParts(yoe: int)
    requires 0 <= yoe < 400
    ensures var c, q, a := yoe / 100, yoe % 100 / 4, yoe % 4;
            && 0 <= c < 4 && 0 <= q < 25 && 0 <= a < 4 && yoe == 100 * c + 4 * q + a
            && YearStart(yoe) == 36_524 * c + 1461 * q + 365 * a
  {
  }

  /** The closed form finds the year of every day of the era. */
  lemma YearOfEraExact(yoe: int, doy: int)
    requires 0 <= yoe < 400 && 0 <= doy < YearLength(yoe)
    ensures YearOfEra(YearStart(yoe) + doy) == yoe
    ensures 0 <= YearStart(yoe) + doy < ERA_DAYS
  {
    var c, q, a := yoe / 100, yoe % 100 / 4, yoe % 4;
    YearParts(yoe);
    LongYear(c, q, a);
    YearOfParts(c, q, a, doy);
    Quotients(c, q, a, doy);
  }

  lemma EraDivides(era: int, doe: int)
    requires 0 <= doe < ERA_DAYS
    ensures (ERA_DAYS * era + doe) / ERA_DAYS == era && (ERA_DAYS * era + doe) % ERA_DAYS == doe
  {
  }

  lemma ClosedFormAt(p: Position, days: nat)
    requires ValidPosition(p) && DayNumber(p) == days + EPOCH_SHIFT
    ensures CivilFromDays(days) == DateOf(p)
  {
    YearOfEraExact(p.yoe, p.doy);
    ClosedFormFor(p.era, p.yoe, p.doy, days);
  }

  lemma ClosedFormFor(era: int, yoe: int, doy: int, days: nat)
    requires var doe := YearStart(yoe) + doy; 0 <= doe < ERA_DAYS && YearOfEra(doe) == yoe
    requires days + EPOCH_SHIFT == ERA_DAYS * era + YearStart(yoe) + doy
    ensures CivilFromDays(days) == FromMarch(yoe + era * 400, doy)
  {
    EraDivides(era, YearStart(yoe) + doy);
  }

  // ---- Months ----

  function MonthStart(mp: int): int {
    (153 * mp + 2) / 5
  }

  lemma MonthOf(doy: int)
    requires 0 <= doy < 366
    ensures var mp := (5 * doy + 2) / 153; 0 <= mp < 12 && MonthStart(mp) <= doy < MonthStart(mp + 1)
  {
  }

  lemma MonthUnique(doy: int, mp: int)
    requires 0 <= mp < 12 && MonthStart(mp) <= doy < MonthStart(mp + 1)
    ensures (5 * doy + 2) / 153 == mp
  {
  }

  /** The months from March on have the lengths of the calendar; February takes what is left of the year. */
  lemma MonthLengths(year: int, mp: int)
    requires 0 <= mp < 11
    ensures MonthStart(mp + 1) - MonthStart(mp)
         == DaysIn(if mp < 10 then year else year + 1, if mp < 10 then mp + 3 else mp - 9)
  {
  }

  lemma LeapShift(era: int, yoe: int)
    ensures IsLeap(yoe + era * 400 + 1) == IsLeap(yoe + 1)
  {
    Shift4(yoe + 1, era);
    Shift100(yoe + 1, era);
    Shift400(yoe + 1, era);
    assert yoe + era * 400 + 1 == yoe + 1 + era * 400;
  }

  lemma Shift4(x: int, era: int)
    ensures (x + era * 400) % 4 == x % 4
  {
    assert x + era * 400 == 4 * (x / 4 + 100 * era) + x % 4;
  }

  lemma Shift100(x: int, era: int)
    ensures (x + era * 400) % 100 == x % 100
  {
    assert x + era * 400 == 100 * (x / 100 + 4 * era) + x % 100;
  }

  lemma Shift400(x: int, era: int)
    ensures (x + era * 400) % 400 == x % 400
  {
    assert x + era * 400 == 400 * (x / 400 + era) + x % 400;
  }

  function MonthNumber(mp: int): int {
    if mp < 10 then mp + 3 else mp - 9
  }

  /** Day `day` of the month `mp` counted from March. */
  function MarchDate(year: int, mp: int, day: int): Date {
    Date(if mp < 10 then year else year + 1, MonthNumber(mp), day)
  }

  lemma DateAt(year: int, doy: int, mp: int)
    requires 0 <= mp < 12 && MonthStart(mp) <= doy < MonthStart(mp + 1)
    ensures FromMarch(year, doy) == MarchDate(year, mp, doy - MonthStart(mp) + 1)
  {
    MonthUnique(doy, mp);
  }

  /** The last day of the month counted from March, as a day of the year. */
  function MonthEnd(mp: int, yoe: int): int {
    if mp < 11 then MonthStart(mp + 1) - 1 else YearLength(yoe) - 1
  }

  lemma DaysOfMonth(p: Position, mp: int)
    requires ValidPosition(p) && 0 <= mp < 12
    ensures var date := MarchDate(p.yoe + p.era * 400, mp, 1);
            DaysIn(date.year, date.month) == MonthEnd(mp, p.yoe) - MonthStart(mp) + 1
  {
    LeapShift(p.era, p.yoe);
    if mp < 11 {
      MonthLengths(p.yoe + p.era * 400, mp);
    }
  }

  /** The day after a day of March-counted month `mp`, given the number of days in that month. */
  lemma NextMarchDate(year: int, mp: int, day: int, days: int)
    requires 0 <= mp < 12 && 1 <= day <= days
    requires var date := MarchDate(year, mp, 1); days == DaysIn(date.year, date.month)
    ensures NextDay(MarchDate(year, mp, day))
         == if day < days then MarchDate(year, mp, day + 1)
            else if mp < 11 then MarchDate(year, mp + 1, 1)
            else MarchDate(year + 1, 0, 1)
    ensures ValidDate(MarchDate(year, mp, day))
  {
  }

  lemma StepDate(p: Position, mp: int)
    requires ValidPosition(p) && 0 <= mp < 12 && MonthStart(mp) <= p.doy <= MonthEnd(mp, p.yoe)
    ensures DateOf(Step(p))
         == var year := p.yoe + p.era * 400;
            if p.doy < MonthEnd(mp, p.yoe) then MarchDate(year, mp, p.doy - MonthStart(mp) + 2)
            else if mp < 11 then MarchDate(year, mp + 1, 1)
            else MarchDate(year + 1, 0, 1)
  {
    var year := p.yoe + p.era * 400;
    if p.doy < MonthEnd(mp, p.yoe) {
      DateAt(year, p.doy + 1, mp);
    } else if mp < 11 {
      DateAt(year, p.doy + 1, mp + 1);
    } else {
      DateAt(year + 1, 0, 0);
    }
  }

  /** Stepping the position steps the date. */
  lemma DateStep(p: Position)
    requires ValidPosition(p)
    ensures DateOf(Step(p)) == NextDay(DateOf(p)) && ValidDate(DateOf(p))
  {
    var year, mp := p.yoe + p.era * 400, (5 * p.doy + 2) / 153;
    MonthOf(p.doy);
    DateAt(year, p.doy, mp);
    DaysOfMonth(p, mp);
    StepDate(p, mp);
    NextMarchDate(year, mp, p.doy - MonthStart(mp) + 1, MonthEnd(mp, p.yoe) - MonthStart(mp) + 1);
  }

  // ---- Main results ----

  lemma FirstDate()
    ensures DateOf(Position(4, 369, 306)) == Date(1970, 1, 1)
  {
    DateAt(1969, 306, 10);
  }

  lemma {:induction false} PositionDate(days: nat)
    ensures DateOf(PositionOf(days)) == CalendarDate(days)
  {
    if days == 0 {
      FirstDate();
    } else {
      PositionDate(days - 1);
      PositionGood(days - 1);
      DateStep(PositionOf(days - 1));
    }
  }

  /** For every day count the closed form is the calendar stepped day by day from 1970-01-01. */
  lemma ClosedFormIsCalendar(days: nat)
    ensures CivilFromDays(days) == CalendarDate(days) && ValidDate(CivilFromDays(days))
  {
    PositionGood(days);
    ClosedFormAt(PositionOf(days), days);
    PositionDate(days);
    DateStep(PositionOf(days));
  }

  predicate Before(a: Date, b: Date) {
    a.year < b.year || (a.year == b.year && (a.month < b.month || (a.month == b.month && a.day < b.day)))
  }

  lemma {:induction false} CalendarIncreases(i: nat, j: nat)
    requires i < j
    ensures Before(CalendarDate(i), CalendarDate(j)) && CalendarDate(j).year >= 1970
    decreases j
  {
    if i < j - 1 {
      CalendarIncreases(i, j - 1);
    } else {
      CalendarYear(i);
    }
  }

  lemma {:induction false} CalendarYear(i: nat)
    ensures CalendarDate(i).year >= 1970
  {
    if i > 0 {
      CalendarYear(i - 1);
    }
  }

  /** Later days have later dates. */
  lemma DatesIncrease(i: nat, j: nat)
    requires i < j
    ensures Before(CivilFromDays(i), CivilFromDays(j))
  {
    ClosedFormIsCalendar(i);
    ClosedFormIsCalendar(j);
    CalendarIncreases(i, j);
  }

  // ---- The key ----

  function Pad(s: string, width: nat): (r: string)
    requires AllDigits(s)
    ensures AllDigits(r) && |r| >= |s| && |r| >= width && (|s| <= width ==> |r| == width)
    decreases width - |s|
  {
    if |s| >= width then s else Pad("0" + s, width)
  }

  lemma {:induction false} LeadingZero(s: string)
    requires AllDigits(s)
    ensures ValueOf("0" + s) == ValueOf(s)
  {
    var t := "0" + s;
    if s == "" {
      assert t[..0] == "";
    } else {
      assert t[..|t| - 1] == "0" + s[..|s| - 1];
      LeadingZero(s[..|s| - 1]);
    }
  }

  lemma {:induction false} PadValue(s: string, width: nat)
    requires AllDigits(s)
    ensures ValueOf(Pad(s, width)) == ValueOf(s)
    decreases width - |s|
  {
    if |s| < width {
      LeadingZero(s);
      PadValue("0" + s, width);
    }
  }

  /** A number in decimal, padded with zeros. */
  function Field(n: nat, width: nat): string {
    Pad(Digits(n), width)
  }

  lemma FieldInjective(a: nat, b: nat, width: nat)
    requires Field(a, width) == Field(b, width)
    ensures a == b
  {
    PadValue(Digits(a), width);
    PadValue(Digits(b), width);
    ValueOfDigits(a);
    ValueOfDigits(b);
  }

  lemma ShortDigits(n: nat)
    requires n < 100
    ensures |Field(n, 2)| == 2
  {
    if n >= 10 {
      assert n / 10 < 10 && |Digits(n / 10)| == 1;
    }
  }

  function KeyOf(date: Date): string
    requires date.year >= 0 && date.month >= 0 && date.day >= 0
  {
    Field(date.year, 4) + Field(date.month, 2) + Field(date.day, 2)
  }

  lemma KeyInjective(a: Date, b: Date)
    requires ValidDate(a) && ValidDate(b) && a.year >= 0 && b.year >= 0 && KeyOf(a) == KeyOf(b)
    ensures a == b
  {
    ShortDigits(a.month);
    ShortDigits(a.day);
    ShortDigits(b.month);
    ShortDigits(b.day);
    var k, n := KeyOf(a), |KeyOf(a)|;
    assert k[..n - 4] == Field(a.year, 4) && k[n - 4..n - 2] == Field(a.month, 2) && k[n - 2..] == Field(a.day, 2);
    assert k[..n - 4] == Field(b.year, 4) && k[n - 4..n - 2] == Field(b.month, 2) && k[n - 2..] == Field(b.day, 2);
    FieldInjective(a.year, b.year, 4);
    FieldInjective(a.month, b.month, 2);
    FieldInjective(a.day, b.day, 2);
  }

  /** The day key of an instant in seconds since the epoch. */
  function UtcDayKey(secs: nat): string {
    var date := CivilFromDays(secs / 86_400);
    ClosedFormIsCalendar(secs / 86_400);
    CalendarYear(secs / 86_400);
    KeyOf(date)
  }

  /** Two instants share a key exactly when they fall on the same UTC day. */
  lemma SameKeyIffSameDay(a: nat, b: nat)
    ensures UtcDayKey(a) == UtcDayKey(b) <==> a / 86_400 == b / 86_400
  {
    var i, j := a / 86_400, b / 86_400;
    ClosedFormIsCalendar(i);
    ClosedFormIsCalendar(j);
    CalendarYear(i);
    CalendarYear(j);
    if UtcDayKey(a) == UtcDayKey(b) {
      KeyInjective(CivilFromDays(i), CivilFromDays(j));
      if i < j {
        DatesIncrease(i, j);
      } else if j < i {
        DatesIncrease(j, i);
      }
    }
  }

  /** The text is the number in decimal, in at least `width` digits. */
  predicate Reads(text: string, n: nat, width: nat) {
    AllDigits(text) && |text| >= width && ValueOf(text) == n
  }

  lemma FieldReads(n: nat, width: nat)
    ensures Reads(Field(n, width), n, width)
  {
    PadValue(Digits(n), width);
    ValueOfDigits(n);
  }

  /**
   The key of an instant is the calendar date of its UTC day: the last two digits are
   the day of the month, the two before them the month, and the rest, at least four
   digits, the year.
   */
  lemma KeyIsDate(secs: nat)
    ensures var k, date := UtcDayKey(secs), CalendarDate(secs / 86_400);
            && |k| >= 8 && date.year >= 0 && date.month >= 0 && date.day >= 0
            && Reads(k[|k| - 2..], date.day, 2)
            && Reads(k[|k| - 4..|k| - 2], date.month, 2)
            && Reads(k[..|k| - 4], date.year, 4)
  {
    ClosedFormIsCalendar(secs / 86_400);
    CalendarYear(secs / 86_400);
    var k, n, date := UtcDayKey(secs), |UtcDayKey(secs)|, CalendarDate(secs / 86_400);
    ShortDigits(date.month);
    ShortDigits(date.day);
    FieldReads(date.year, 4);
    FieldReads(date.month, 2);
    FieldReads(date.day, 2);
    assert k[n - 2..] == Field(date.day, 2);
    assert k[n - 4..n - 2] == Field(date.month, 2);
    assert k[..n - 4] == Field(date.year, 4);
  }
}
