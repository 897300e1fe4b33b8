/**
 * The driver's enumerations, data structures and size constants, with the
 * facts that tie each enumeration code to the register bits it is written to.
 */
module DriverTypes {
  import opened Registers
  import Bcd

  /** Meridiem of an hour value; `H24` marks a 24-hour value. */
  datatype AmPm = AM | PM | H24 {
    function Code(): bv8 {
      match this
      case AM => 0
      case PM => 1
      case H24 => 2
    }
  }

  /** The 12/24-hour mode; its code is the value of the mode bit of Control_1. */
  datatype Mode = Mode24H | Mode12H {
    function Code(): bv8 {
      match this
      case Mode24H => 0
      case Mode12H => 1
    }
  }

  /** The mode a mode-bit value selects. */
  function ModeOfBit(bit: bv8): (m: Mode)
    ensures bit <= 1 ==> m.Code() == bit
  {
    if bit == Mode24H.Code() then Mode24H else Mode12H
  }

  /** Timer source clocks 4.096 kHz, 64 Hz, 1 Hz and 1/60 Hz. */
  datatype TimerClock = Timer1 | Timer2 | Timer3 | Timer4 {
    function Code(): bv8 {
      match this
      case Timer1 => 0
      case Timer2 => 1
      case Timer3 => 2
      case Timer4 => 3
    }
  }

  /** Alarm kinds, numbered from 1 in the order of the alarm registers. */
  datatype AlarmType = ASeconds | AMinute | AHour | ADay | AWeekday {
    function Code(): int {
      match this
      case ASeconds => 1
      case AMinute => 2
      case AHour => 3
      case ADay => 4
      case AWeekday => 5
    }
  }

  datatype WeekDay = Sunday | Monday | Tuesday | Wednesday | Thursday | Friday | Saturday {
    function Code(): bv8 {
      match this
      case Sunday => 0
      case Monday => 1
      case Tuesday => 2
      case Wednesday => 3
      case Thursday => 4
      case Friday => 5
      case Saturday => 6
    }
  }

  // Codes of the enumerations that are only ever shifted into a one-bit field.
  const rtcStart: bv8 := 0
  const rtcStop: bv8 := 1
  const intEnable: bv8 := 1
  const intDisable: bv8 := 0
  const intClear: bv8 := 0
  const timerFlag: bv8 := 0
  const pulse: bv8 := 1
  const normalOffsetMode: bv8 := 0
  const courseOffsetMode: bv8 := 1
  const capSel7pf: bv8 := 0
  const capSel12pf: bv8 := 1
  const normalMode: bv8 := 0
  const extTestMode: bv8 := 1

  /** The C `int32_t` range of the timer clock selector. */
  type Int32 = x: int | -0x8000_0000 <= x < 0x8000_0000

  /**
   * The value of a C `int8_t` held as its bit pattern; conversion to
   * `uint8_t` keeps the pattern.
   */
  function Signed8(b: bv8): (v: int)
    ensures -128 <= v < 128
    ensures 0 <= v <==> b < 0x80
  {
    if b < 0x80 then b as int else b as int - 256
  }

  /** The time structure: seven register bytes (decimal once decoded) and the meridiem. */
  datatype TimeData = TimeData(
    second: bv8, minutes: bv8, hours: bv8, days: bv8, weekdays: bv8, months: bv8, years: bv8,
    ampm: AmPm)

  /** The alarm structure: five register bytes (decimal once decoded) and the meridiem. */
  datatype AlarmData = AlarmData(
    second: bv8, minutes: bv8, hours: bv8, days: bv8, weekdays: bv8, ampm: AmPm)

  const TimeSizeByte: nat := 7
  const AlarmTimeSizeByte: nat := 5

  /** The field each byte of the time structure is read from, in structure order. */
  const TimeLayout := [Seconds, Minutes, Hours24, Days, Weekdays, Months, Years]
  /** The field each byte of the alarm structure is read from, in structure order. */
  const AlarmLayout := AlarmValues

  /** The value the default configuration writes to select 12-hour mode. */
  const TwelveHourModeDefault: bv8 := 0x04

  lemma StructLayouts()
    ensures |TimeLayout| == TimeSizeByte
    ensures forall i :: 0 <= i < |TimeLayout| ==> TimeLayout[i].reg == SecondReg + i
    ensures |AlarmLayout| == AlarmTimeSizeByte
    ensures forall i :: 0 <= i < |AlarmLayout| ==> AlarmLayout[i].reg == SecondAlarmReg + i
  {
  }

  /** PM shifted to the AM/PM position is exactly the bit the 24-hour mask adds to the 12-hour one. */
  lemma MeridiemBit()
    ensures PM.Code() << AmPmShift == 0x20 == Hours24.mask & !Hours12.mask
    ensures AM.Code() << AmPmShift == 0
  {
  }

  lemma EnumCodesMatchBits()
    ensures Mode12H.Code() << Mode1224.shift == Mode1224.mask
    ensures Mode24H.Code() << Mode1224.shift == 0
    ensures rtcStop << Stop.shift == Stop.mask && rtcStart << Stop.shift == 0
    ensures intEnable == 1 && intDisable == intClear == 0
    ensures forall t: TimerClock :: Fits(Tcf, t.Code())
    ensures Timer1.Code() == 0 && Timer2.Code() == 1 && Timer3.Code() == 2 && Timer4.Code() == 3
  {
  }

  /** The default 12-hour value shares no bit with the mode field: it is the CIE bit. */
  lemma DefaultTwelveHourValueMissesModeBit()
    ensures TwelveHourModeDefault & Mode1224.mask == 0
    ensures TwelveHourModeDefault == Cie.mask
  {
  }

  /** Alarm type k names the k-th alarm register, second to weekday. */
  lemma AlarmTypeOrder()
    ensures forall t: AlarmType :: 1 <= t.Code() <= 5
    ensures forall t: AlarmType :: AlarmEnables[t.Code() - 1].reg == SecondAlarmReg + t.Code() - 1
  {
  }

  lemma WeekDayCodesFit()
    ensures forall d: WeekDay :: d.Code() < 8 && d.Code() & Weekdays.mask == d.Code()
    ensures forall d: WeekDay :: Bcd.DecimalToBcd(d.Code()) == d.Code()
  {
  }
}
