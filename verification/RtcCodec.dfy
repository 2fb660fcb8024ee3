/** The BCD date and time codec: the field macros of drivers/core/RTC.h and
    set_datetime_rtc / get_datetime_rtc of drivers/core/RTC.c, on the TR and DR registers. */
module RtcCodec {

  datatype DateTime = DateTime(year: bv16, month: bv8, day: bv8, week: bv8, hour: bv8, minute: bv8, seconds: bv8)

  const BSD_START_YEAR: bv16 := 1980
  const BSD_MAX_YEAR: bv8 := 99

  function Tens(v: bv8): bv32 { (v / 10) as bv32 }

  function Units(v: bv8): bv32 { (v % 10) as bv32 }

  // SET_RTS_*
  function SetHour(v: bv8): bv32 { ((Tens(v) & 0x3) << 20) | ((Units(v) & 0xF) << 16) }

  function SetMinute(v: bv8): bv32 { ((Tens(v) & 0x7) << 12) | ((Units(v) & 0xF) << 8) }

  function SetSecond(v: bv8): bv32 { ((Tens(v) & 0x7) << 4) | (Units(v) & 0xF) }

  function SetYear(v: bv8): bv32 { ((Tens(v) & 0xF) << 20) | ((Units(v) & 0xF) << 16) }

  function SetWdu(v: bv8): bv32 { (v as bv32) << 13 }

  function SetMonth(v: bv8): bv32 { ((Tens(v) & 0x1) << 12) | ((Units(v) & 0xF) << 8) }

  function SetDay(v: bv8): bv32 { ((Tens(v) & 0x3) << 4) | (Units(v) & 0xF) }

  /** tens * 10 + units, stored into a byte */
  function Decimal(tens: bv32, units: bv32): bv8 { ((tens * 10 + units) & 0xFF) as bv8 }

  // GET_RTS_*
  function GetHour(r: bv32): bv8 { Decimal((r & 0x0030_0000) >> 20, (r & 0x000F_0000) >> 16) }

  function GetMinute(r: bv32): bv8 { Decimal((r & 0x0000_7000) >> 12, (r & 0x0000_0F00) >> 8) }

  function GetSecond(r: bv32): bv8 { Decimal((r & 0x0000_0070) >> 4, r & 0x0000_000F) }

  function GetYear(r: bv32): bv8 { Decimal((r & 0x00F0_0000) >> 20, (r & 0x000F_0000) >> 16) }

  function GetMonth(r: bv32): bv8 { Decimal((r & 0x0000_1000) >> 12, (r & 0x0000_0F00) >> 8) }

  function GetDay(r: bv32): bv8 { Decimal((r & 0x0000_0030) >> 4, r & 0x0000_000F) }

  function GetWdu(r: bv32): bv8 { ((r >> 13) & 0xFF) as bv8 }

  function TimeRegister(hour: bv8, minute: bv8, seconds: bv8): bv32 {
    SetHour(hour) | SetMinute(minute) | SetSecond(seconds)
  }

  function DateRegister(year: bv8, week: bv8, month: bv8, day: bv8): bv32 {
    SetYear(year) | SetWdu(week) | SetMonth(month) | SetDay(day)
  }

  /** The fields of TR are disjoint: each value is read back iff its tens digit fits its field. */
  lemma TimeRoundTrip(h: bv8, m: bv8, s: bv8)
    ensures GetHour(TimeRegister(h, m, s)) == h <==> h < 40
    ensures GetMinute(TimeRegister(h, m, s)) == m <==> m < 80
    ensures GetSecond(TimeRegister(h, m, s)) == s <==> s < 80
  {
  }

  lemma DayMonthRoundTrip(y: bv8, w: bv8, m: bv8, d: bv8)
    ensures GetMonth(DateRegister(y, w, m, d)) == m <==> m < 20
    ensures GetDay(DateRegister(y, w, m, d)) == d <==> d < 40
  {
  }

  /** The year digits as they stand in DR. */
  function YearDigits(y: bv8): bv8 { ((y / 10) << 4) | (y % 10) }

  /** The week field is not masked: its bits above the third fall on the year digits.  The year is read
      back iff every such bit is already set in the year. */
  lemma YearRoundTrip(y: bv8, w: bv8, m: bv8, d: bv8)
    requires y <= 99
    ensures GetYear(DateRegister(y, w, m, d)) == y <==> (w >> 3) & !YearDigits(y) == 0
  {
  }

  /** TUESDAY is 0x010 in the week enumeration, not 2: setting it moves 2024 to 2026. */
  lemma TuesdayMovesTheYear()
    ensures GetYear(DateRegister(44, 0x10, 5, 7)) == 46
  {
    assert SetYear(44) == 0x0044_0000;
    assert SetWdu(0x10) == 0x0002_0000;
  }

  /** uint8_t year = datetime->date.year - BSD_START_YEAR */
  function YearOffset(year: bv16): bv8 { ((year - BSD_START_YEAR) & 0xFF) as bv8 }

  /** The range check sees only the low byte: a year is accepted and comes back iff it is in
      1980..2079; 2236 is accepted and becomes 1980. */
  lemma AcceptedYears(year: bv16)
    ensures (YearOffset(year) <= BSD_MAX_YEAR && (YearOffset(year) as bv16) + BSD_START_YEAR == year) <==>
      1980 <= year <= 2079
    ensures YearOffset(2236) <= BSD_MAX_YEAR && (YearOffset(2236) as bv16) + BSD_START_YEAR == 1980
  {
    var d := year - BSD_START_YEAR;
    assert (d & 0xFF) == d <==> d <= 0xFF;
  }

  // ---------- from the registers and back ----------

  const TR_FIELDS: bv32 := 0x003F_7F7F
  const DR_FIELDS: bv32 := 0x00FF_FF3F

  /** The units of a field are a decimal digit. */
  predicate Digit(r: bv32, shift: bv5) { (r >> shift) & 0xF <= 9 }

  /** Each field of TR is restored iff its units are a decimal digit. */
  lemma TimeFieldsBack(r: bv32)
    ensures SetHour(GetHour(r)) == r & 0x003F_0000 <==> Digit(r, 16)
    ensures SetMinute(GetMinute(r)) == r & 0x0000_7F00 <==> Digit(r, 8)
    ensures SetSecond(GetSecond(r)) == r & 0x0000_007F <==> Digit(r, 0)
  {
  }

  /** And each field of DR; the week always. */
  lemma DateFieldsBack(r: bv32)
    ensures SetYear(GetYear(r)) == r & 0x00FF_0000 <==> Digit(r, 16)
    ensures SetMonth(GetMonth(r)) == r & 0x0000_1F00 <==> Digit(r, 8)
    ensures SetDay(GetDay(r)) == r & 0x0000_003F <==> Digit(r, 0)
    ensures SetWdu(GetWdu(r)) == r & 0x001F_E000
  {
  }

  /** Decoding and encoding again gives the fields of TR back when their units are decimal digits. */
  lemma TimeRegisterBack(r: bv32)
    requires Digit(r, 16) && Digit(r, 8) && Digit(r, 0)
    ensures TimeRegister(GetHour(r), GetMinute(r), GetSecond(r)) == r & TR_FIELDS
  {
    TimeFieldsBack(r);
  }

  /** The same for DR, although the week is read back with five bits of the year in it: setting it puts
      them where they were. */
  lemma DateRegisterBack(r: bv32)
    requires Digit(r, 16) && Digit(r, 8) && Digit(r, 0)
    ensures DateRegister(GetYear(r), GetWdu(r), GetMonth(r), GetDay(r)) == r & DR_FIELDS
  {
    DateFieldsBack(r);
  }

  /** The values a calendar can hold. */
  predicate InCalendar(dt: DateTime) {
    && 1980 <= dt.year <= 2079 && dt.month <= 12 && dt.day <= 31
    && dt.hour <= 23 && dt.minute <= 59 && dt.seconds <= 59
  }

  lemma SmallWeek(w: bv8)
    ensures w >> 3 == 0 <==> w <= 7
  {
  }

  lemma YearBack(year: bv16, y: bv8)
    requires 1980 <= year <= 2079
    ensures (y as bv16) + BSD_START_YEAR == year <==> y == YearOffset(year)
  {
  }

  class Rtc {
    var tr: bv32
    var dr: bv32
    var initialized: bool

    constructor ()
      ensures initialized
    {
      tr, dr, initialized := 0, 0, true;
    }

    /** set_datetime_rtc */
    method SetDatetime(dt: DateTime) returns (status: int)
      modifies `tr, `dr
      ensures status == if YearOffset(dt.year) > BSD_MAX_YEAR then -2 else 0
      ensures status == 0 ==>
                && tr == TimeRegister(dt.hour, dt.minute, dt.seconds)
                && dr == DateRegister(YearOffset(dt.year), dt.week, dt.month, dt.day)
      ensures status != 0 ==> tr == old(tr) && dr == old(dr)
    {
      var year := YearOffset(dt.year);
      if year > BSD_MAX_YEAR {
        return -2;
      }
      tr := SetHour(dt.hour) | SetMinute(dt.minute) | SetSecond(dt.seconds);
      dr := SetYear(year) | SetWdu(dt.week) | SetMonth(dt.month) | SetDay(dt.day);
      status := 0;
    }

    /** get_datetime_rtc, with the clock not ticking */
    method GetDatetime() returns (status: int, dt: DateTime)
      ensures status == if initialized then 0 else -1
      ensures status == 0 ==>
                && dt.hour == GetHour(tr) && dt.minute == GetMinute(tr) && dt.seconds == GetSecond(tr)
                && dt.day == GetDay(dr) && dt.month == GetMonth(dr) && dt.week == GetWdu(dr)
                && dt.year == (GetYear(dr) as bv16) + BSD_START_YEAR
    {
      dt := DateTime(0, 0, 0, 0, 0, 0, 0);
      if !initialized {
        return -1, dt;
      }
      dt := DateTime((GetYear(dr) as bv16) + BSD_START_YEAR, GetMonth(dr), GetDay(dr), GetWdu(dr), GetHour(tr),
        GetMinute(tr), GetSecond(tr));
      status := 0;
    }

    /** Setting a calendar date and reading it back.  Time, day and month always return; the year
        returns iff the week leaves the year digits alone. */
    method RoundTrip(dt: DateTime) returns (back: DateTime)
      requires initialized && InCalendar(dt)
      modifies `tr, `dr
      ensures (back.hour, back.minute, back.seconds) == (dt.hour, dt.minute, dt.seconds)
      ensures (back.month, back.day) == (dt.month, dt.day)
      ensures back.year == dt.year <==> (dt.week >> 3) & !YearDigits(YearOffset(dt.year)) == 0
      ensures dt.week <= 7 ==> back.year == dt.year
    {
      var y := YearOffset(dt.year);
      AcceptedYears(dt.year);
      var status := SetDatetime(dt);
      TimeRoundTrip(dt.hour, dt.minute, dt.seconds);
      DayMonthRoundTrip(y, dt.week, dt.month, dt.day);
      YearRoundTrip(y, dt.week, dt.month, dt.day);
      status, back := GetDatetime();
      SmallWeek(dt.week);
      YearBack(dt.year, GetYear(dr));
    }
  }
}
