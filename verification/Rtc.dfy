/** The CMOS clock: Gregorian day numbering and the decoding of the date registers. */
module Rtc {
  import opened Common

  // ---------------------------------------------------------------- the day number

  /** Division that truncates toward zero, for a positive divisor. */
  function TruncDiv(a: int, b: int): int
    requires b > 0
  { if a >= 0 then a / b else -((-a) / b) }

  /** days_from_civil */
  function DaysFromCivil(year: int, m: nat, d: nat): int {
    var y := year - (if m <= 2 then 1 else 0);
    var era := TruncDiv(if y >= 0 then y else y - 399, 400);
    var yoe := y - era * 400;
    var mp := (m + 9) % 12;
    var doy := (153 * mp + 2) / 5 + d - 1;
    var doe := yoe * 365 + yoe / 4 - yoe / 100 + doy;
    era * 146097 + doe - 719468
  }

  // ---------------------------------------------------------------- the calendar

  predicate Leap(y: int) { y % 4 == 0 && (y % 100 != 0 || y % 400 == 0) }

  function MonthDays(y: int, m: nat): nat {
    if m == 2 then (if Leap(y) then 29 else 28)
    else if m == 4 || m == 6 || m == 9 || m == 11 then 30 else 31
  }

  function YearDays(y: int): nat { if Leap(y) then 366 else 365 }

  datatype Date = Date(y: int, m: nat, d: nat)

  predicate ValidDate(t: Date) { 1 <= t.m <= 12 && 1 <= t.d <= MonthDays(t.y, t.m) }

  /** The next day of the calendar. */
  function NextDay(t: Date): Date {
    if t.d < MonthDays(t.y, t.m) then t.(d := t.d + 1)
    else if t.m < 12 then Date(t.y, t.m + 1, 1)
    else Date(t.y + 1, 1, 1)
  }

  /** Days from 1970-01-01 to the first of January, year by year. */
  function YearStart(y: int): int
    decreases if y >= 1970 then y - 1970 else 1970 - y
  {
    if y == 1970 then 0
    else if y > 1970 then YearStart(y - 1) + YearDays(y - 1)
    else YearStart(y + 1) - YearDays(y)
  }

  function MonthStart(y: int, m: nat): nat {
    if m <= 1 then 0 else MonthStart(y, m - 1) + MonthDays(y, m - 1)
  }

  /** The day count of the proleptic Gregorian calendar. */
  function DayNumber(t: Date): int { YearStart(t.y) + MonthStart(t.y, t.m) + t.d - 1 }

  // ---------------------------------------------------------------- they agree

  /** The days of the years that start in March, up to year y. */
  function MarchBase(y: int): int { y / 400 * 146097 + y % 400 * 365 + y % 400 / 4 - y % 400 / 100 }

  lemma EraIsFloor(y: int)
    ensures TruncDiv(if y >= 0 then y else y - 399, 400) == y / 400
    ensures y - y / 400 * 400 == y % 400
  {
    if y < 0 {
      var q := (399 - y) / 400;
      assert 400 * q <= 399 - y < 400 * q + 400;
      assert -q * 400 <= y < -q * 400 + 400;
    }
  }

  lemma DaysAre(y: int, m: nat, d: nat)
    ensures var y' := y - (if m <= 2 then 1 else 0);
      DaysFromCivil(y, m, d) == MarchBase(y') + (153 * ((m + 9) % 12) + 2) / 5 + d - 1 - 719468
  { EraIsFloor(y - (if m <= 2 then 1 else 0)); }

  lemma MarchStep(y: int)
    ensures MarchBase(y + 1) == MarchBase(y) + YearDays(y + 1)
  {
    var q, r := y / 400, y % 400;
    assert y == 400 * q + r;
    if r == 399 {
      assert (y + 1) / 400 == q + 1 && (y + 1) % 400 == 0;
    } else {
      assert (y + 1) / 400 == q && (y + 1) % 400 == r + 1;
      QuarterStep(r);
    }
    LeapInEra(y + 1);
  }

  lemma QuarterStep(r: nat)
    requires r < 399
    ensures (r + 1) / 4 - r / 4 == if (r + 1) % 4 == 0 then 1 else 0
    ensures (r + 1) / 100 - r / 100 == if (r + 1) % 100 == 0 then 1 else 0
  {}

  lemma EraMod4(q: int, r: nat)
    ensures (400 * q + r) % 4 == r % 4
  { assert 400 * q + r == 4 * (100 * q) + r; }

  lemma EraMod100(q: int, r: nat)
    ensures (400 * q + r) % 100 == r % 100
  { assert 400 * q + r == 100 * (4 * q) + r; }

  lemma LeapInEra(y: int)
    ensures Leap(y) <==> (y % 400) % 4 == 0 && ((y % 400) % 100 != 0 || y % 400 == 0)
  {
    EraMod4(y / 400, y % 400);
    EraMod100(y / 400, y % 400);
  }

  /** Within a year, the month offsets are those of the calendar. */
  lemma MonthOffset(y: int, m: nat)
    requires 1 <= m <= 12
    ensures DaysFromCivil(y, m, 1) == DaysFromCivil(y, 1, 1) + MonthStart(y, m)
  {
    hide MarchBase, DaysFromCivil, Leap, MonthStart;
    DaysAre(y, m, 1);
    DaysAre(y, 1, 1);
    MarchStep(y - 1);
    MonthTable(y, m);
    MarchTable(m);
    MarchTable(1);
  }

  lemma MarchTable(m: nat)
    requires 1 <= m <= 12
    ensures (153 * ((m + 9) % 12) + 2) / 5 == [306, 337, 0, 31, 61, 92, 122, 153, 184, 214, 245, 275][m - 1]
  {}

  lemma MonthTable(y: int, m: nat)
    requires 1 <= m <= 12
    ensures MonthStart(y, m) == [0, 31, 59, 90, 120, 151, 181, 212, 243, 273, 304, 334][m - 1] + (if m > 2
      && Leap(y) then 1 else 0)
  {
    hide Leap;
    assert MonthStart(y, 2) == 31;
    assert MonthStart(y, 3) == 31 + MonthDays(y, 2);
    assert MonthStart(y, 4) == MonthStart(y, 3) + 31;
    assert MonthStart(y, 5) == MonthStart(y, 4) + 30;
    assert MonthStart(y, 6) == MonthStart(y, 5) + 31;
    assert MonthStart(y, 7) == MonthStart(y, 6) + 30;
    assert MonthStart(y, 8) == MonthStart(y, 7) + 31;
    assert MonthStart(y, 9) == MonthStart(y, 8) + 31;
    assert MonthStart(y, 10) == MonthStart(y, 9) + 30;
    assert MonthStart(y, 11) == MonthStart(y, 10) + 31;
    assert MonthStart(y, 12) == MonthStart(y, 11) + 30;
  }

  lemma YearOffset(y: int)
    ensures DaysFromCivil(y + 1, 1, 1) == DaysFromCivil(y, 1, 1) + YearDays(y)
  {
    hide MarchBase, DaysFromCivil;
    DaysAre(y, 1, 1);
    DaysAre(y + 1, 1, 1);
    MarchStep(y - 1);
  }

  lemma {:induction false} YearStarts(y: int)
    ensures DaysFromCivil(y, 1, 1) == YearStart(y)
    decreases if y >= 1970 then y - 1970 else 1970 - y
  {
    if y > 1970 {
      YearStarts(y - 1);
      YearOffset(y - 1);
    } else if y < 1970 {
      YearStarts(y + 1);
      YearOffset(y);
    }
  }

  /** The day number of every date is its count by the leap-year rule; a day past the end of its
      month counts on into the next. */
  lemma DaysFromCivilCorrect(t: Date)
    requires 1 <= t.m <= 12
    ensures DaysFromCivil(t.y, t.m, t.d) == DayNumber(t)
  {
    YearStarts(t.y);
    MonthOffset(t.y, t.m);
    DaysAre(t.y, t.m, t.d);
    DaysAre(t.y, t.m, 1);
  }

  lemma {:induction false} MonthsFillYear(y: int)
    ensures MonthStart(y, 12) + MonthDays(y, 12) == YearDays(y)
  { MonthTable(y, 12); }

  lemma YearStartStep(y: int)
    ensures YearStart(y + 1) == YearStart(y) + YearDays(y)
  {}

  /** Zero at the epoch, and one more for the next calendar day, over every boundary. */
  lemma NextDayIsNext(t: Date)
    requires ValidDate(t)
    ensures DaysFromCivil(1970, 1, 1) == 0
    ensures ValidDate(NextDay(t)) && DaysFromCivil(NextDay(t).y, NextDay(t).m, NextDay(t).d) ==
      DaysFromCivil(t.y, t.m, t.d) + 1
  {
    hide DaysFromCivil, YearStart, Leap;
    DaysFromCivilCorrect(t);
    DaysFromCivilCorrect(NextDay(t));
    DaysFromCivilCorrect(Date(1970, 1, 1));
    MonthsFillYear(t.y);
    YearStartStep(t.y);
    EpochYear();
  }

  lemma EpochYear()
    ensures YearStart(1970) == 0 && MonthStart(1970, 1) == 0
  {}

  // ---------------------------------------------------------------- order

  predicate Before(a: Date, b: Date) {
    a.y < b.y || (a.y == b.y && (a.m < b.m || (a.m == b.m && a.d < b.d)))
  }

  lemma {:induction false} YearsGrow(y: int, z: int)
    requires y < z
    ensures YearStart(y) + YearDays(y) <= YearStart(z)
    decreases z - y
  {
    YearStartStep(z - 1);
    if y < z - 1 { YearsGrow(y, z - 1); }
  }

  lemma {:induction false} MonthsGrow(y: int, m: nat, n: nat)
    requires 1 <= m < n <= 12
    ensures MonthStart(y, m) + MonthDays(y, m) <= MonthStart(y, n)
    decreases n - m
  { if m < n - 1 { MonthsGrow(y, m, n - 1); } }

  lemma InsideYear(t: Date)
    requires ValidDate(t)
    ensures MonthStart(t.y, t.m) + t.d <= YearDays(t.y)
  {
    hide Leap;
    MonthsFillYear(t.y);
    if t.m < 12 { MonthsGrow(t.y, t.m, 12); }
  }

  /** A real date has a smaller number than any later one, real or not. */
  lemma DaysIncrease(a: Date, b: Date)
    requires ValidDate(a) && 1 <= b.m <= 12 && b.d >= 1 && Before(a, b)
    ensures DayNumber(a) < DayNumber(b)
  {
    hide YearStart, Leap, MonthStart;
    InsideYear(a);
    if a.y < b.y { YearsGrow(a.y, b.y); }
    else if a.m < b.m { MonthsGrow(a.y, a.m, b.m); }
  }

  // ---------------------------------------------------------------- the registers

  datatype Fields = Fields(sec: byte, min: byte, hour: byte, day: byte, month: byte, year: byte, century: byte)

  /** A decoded reading. */
  datatype Civil = Civil(date: Date, hour: nat, min: nat, sec: nat)

  function BcdToBin(v: byte): nat { (v % 16 + v / 16 * 10) % 256 }

  function Field(v: byte, binary: bool): nat { if binary then v else BcdToBin(v) }

  /** In 12-hour mode bit 7 is the afternoon flag and 12 stands for 0. */
  function Hour(v: byte, binary: bool, h24: bool): nat {
    if h24 then Field(v, binary) else Field(v % 128, binary) % 12 + (if v >= 128 then 12 else 0)
  }

  function Year(year2: nat, century: nat): nat {
    if 19 <= century <= 21 then century * 100 + year2 else if year2 < 70 then 2000 + year2 else 1900 + year2
  }

  function Reading(f: Fields, binary: bool, h24: bool): Civil {
    Civil(Date(Year(Field(f.year, binary), Field(f.century, binary)), Field(f.month, binary), Field(f.day, binary)),
          Hour(f.hour, binary, h24), Field(f.min, binary), Field(f.sec, binary))
  }

  predicate InRange(c: Civil) {
    && c.sec <= 59 && c.min <= 59 && c.hour <= 23 && 1 <= c.date.d <= 31 && 1 <= c.date.m <= 12
    && 1970 <= c.date.y <= 2199
  }

  function Epoch(c: Civil): int {
    DaysFromCivil(c.date.y, c.date.m, c.date.d) * 86400 + c.hour * 3600 + c.min * 60 + c.sec
  }

  /** rtc_decode: seconds since the epoch, or None when the registers hold no date. */
  function Decode(f: Fields, binary: bool, h24: bool): Option<int> {
    var c := Reading(f, binary, h24);
    if InRange(c) then Some(Epoch(c)) else None
  }

  function BinToBcd(v: nat): (b: byte)
    requires v < 100
  { v / 10 * 16 + v % 10 }

  function Register(v: nat, binary: bool): byte
    requires v < 100
  { if binary then v else BinToBcd(v) }

  /** What a clock chip in the given mode shows at a civil time. */
  function Registers(c: Civil, binary: bool, h24: bool): Fields
    requires InRange(c)
  {
    var hour := if h24 then Register(c.hour, binary)
                else Register(if c.hour % 12 == 0 then 12 else c.hour % 12, binary) + (if c.hour >= 12 then 128 else 0);
    Fields(Register(c.sec, binary), Register(c.min, binary), hour, Register(c.date.d, binary),
      Register(c.date.m, binary),
           Register(c.date.y % 100, binary), Register(c.date.y / 100, binary))
  }

  lemma RegisterBack(v: nat, binary: bool)
    requires v < 100
    ensures Field(Register(v, binary), binary) == v
  {
    var t, u := v / 10, v % 10;
    assert (t * 16 + u) % 16 == u && (t * 16 + u) / 16 == t;
  }

  /** In every register mode, decoding what the chip shows gives back the time. */
  lemma DecodeRegisters(c: Civil, binary: bool, h24: bool)
    requires InRange(c)
    ensures Reading(Registers(c, binary, h24), binary, h24) == c
    ensures Decode(Registers(c, binary, h24), binary, h24) == Some(Epoch(c))
  {
    hide Field, Register, DaysFromCivil;
    RegisterBack(c.sec, binary);
    RegisterBack(c.min, binary);
    RegisterBack(c.date.d, binary);
    RegisterBack(c.date.m, binary);
    RegisterBack(c.date.y % 100, binary);
    RegisterBack(c.date.y / 100, binary);
    HourBack(c.hour, binary, h24);
  }

  lemma SmallRegister(v: nat, binary: bool)
    requires v <= 23
    ensures Register(v, binary) < 128
  {}

  lemma HourBack(h: nat, binary: bool, h24: bool)
    requires h <= 23
    ensures var r := if h24 then Register(h, binary)
                     else Register(if h % 12 == 0 then 12 else h % 12, binary) + (if h >= 12 then 128 else 0);
      r < 256 && Hour(r, binary, h24) == h
  {
    hide Field, Register;
    var v := if h % 12 == 0 then 12 else h % 12;
    RegisterBack(h, binary);
    RegisterBack(v, binary);
    SmallRegister(v, binary);
    SmallRegister(h, binary);
  }

  // ---------------------------------------------------------------- order of decoded times

  function TimeOfDay(c: Civil): int { c.hour * 3600 + c.min * 60 + c.sec }

  predicate Earlier(a: Civil, b: Civil) { Before(a.date, b.date) || (a.date == b.date && TimeOfDay(a) < TimeOfDay(b)) }

  lemma EpochIs(c: Civil)
    requires InRange(c)
    ensures Epoch(c) == DayNumber(c.date) * 86400 + TimeOfDay(c) && 0 <= TimeOfDay(c) < 86400
  { hide DaysFromCivil; DaysFromCivilCorrect(c.date); }

  /** A reading of a real date comes before every later reading. */
  lemma DecodedOrder(a: Civil, b: Civil)
    requires InRange(a) && InRange(b) && ValidDate(a.date) && Earlier(a, b)
    ensures Epoch(a) < Epoch(b)
  {
    hide Epoch, DayNumber;
    EpochIs(a);
    EpochIs(b);
    if Before(a.date, b.date) { DaysIncrease(a.date, b.date); }
  }

  /** The decoder accepts up to 31 days in every month, so 31 February counts as 3 March and is
      not before 1 March. */
  lemma NotInOrder()
    ensures var a, b := Civil(Date(2023, 2, 31), 0, 0, 0), Civil(Date(2023, 3, 1), 0, 0, 0);
      InRange(a) && InRange(b) && Earlier(a, b) && Epoch(a) > Epoch(b)
  {}

  /** A reading comes before every later reading exactly when its day exists in its month. */
  lemma OrderIff(a: Civil)
    requires InRange(a)
    ensures ValidDate(a.date) <==> forall b: Civil | InRange(b) && Earlier(a, b) :: Epoch(a) < Epoch(b)
  {
    if ValidDate(a.date) {
      forall b: Civil | InRange(b) && Earlier(a, b) ensures Epoch(a) < Epoch(b) { DecodedOrder(a, b); }
    } else {
      var b := Civil(Date(a.date.y, a.date.m + 1, 1), 0, 0, 0);
      assert a.date.m < 12;
      EpochIs(a);
      EpochIs(b);
      assert InRange(b) && Earlier(a, b) && !(Epoch(a) < Epoch(b));
    }
  }
}
