/**
 * The PCF85063AT register map: register addresses and, for each register,
 * the layout of its bit fields as mask and shift constants.
 */
module Registers {

  /** Internal register addresses, Control_1 (0x00) up to Timer_mode (0x11). */
  type Addr = a: int | 0 <= a < 0x12

  const Ctrl1: Addr := 0x00
  const Ctrl2: Addr := 0x01
  const OffsetReg: Addr := 0x02
  const RamByte: Addr := 0x03
  const SecondReg: Addr := 0x04
  const MinuteReg: Addr := 0x05
  const HourReg: Addr := 0x06
  const DayReg: Addr := 0x07
  const WeekdayReg: Addr := 0x08
  const MonthReg: Addr := 0x09
  const YearReg: Addr := 0x0A
  const SecondAlarmReg: Addr := 0x0B
  const MinuteAlarmReg: Addr := 0x0C
  const HourAlarmReg: Addr := 0x0D
  const DayAlarmReg: Addr := 0x0E
  const WeekdayAlarmReg: Addr := 0x0F
  const TimerValueReg: Addr := 0x10
  const TimerModeReg: Addr := 0x11

  /** A bit field: the register holding it, its mask and the index of its lowest bit. */
  datatype Field = Field(reg: Addr, mask: bv8, shift: nat)

  // Control_1
  const ExtTest := Field(Ctrl1, 0x80, 7)
  const Stop := Field(Ctrl1, 0x20, 5)
  const SoftReset := Field(Ctrl1, 0x10, 4)
  const Cie := Field(Ctrl1, 0x04, 2)
  const Mode1224 := Field(Ctrl1, 0x02, 1)
  const CapSel := Field(Ctrl1, 0x01, 0)

  // Control_2
  const Aie := Field(Ctrl2, 0x80, 7)
  const Af := Field(Ctrl2, 0x40, 6)
  const Mi := Field(Ctrl2, 0x20, 5)
  const Hmi := Field(Ctrl2, 0x10, 4)
  const Tf := Field(Ctrl2, 0x08, 3)
  const Cof := Field(Ctrl2, 0x07, 0)

  // Offset
  const Offset := Field(OffsetReg, 0x7F, 0)
  const OffsetMode := Field(OffsetReg, 0x80, 7)

  // RAM byte
  const Ram := Field(RamByte, 0xFF, 0)

  // Time registers; the hour register has a 6-bit (24h) and a 5-bit (12h) view.
  const Os := Field(SecondReg, 0x80, 7)
  const Seconds := Field(SecondReg, 0x7F, 0)
  const Minutes := Field(MinuteReg, 0x7F, 0)
  const Hours24 := Field(HourReg, 0x3F, 0)
  const Hours12 := Field(HourReg, 0x1F, 0)
  /** Bit 5 of an hour register is the AM/PM flag in 12-hour mode. */
  const AmPmShift: nat := 5
  const Days := Field(DayReg, 0x3F, 0)
  const Weekdays := Field(WeekdayReg, 0x07, 0)
  const Months := Field(MonthReg, 0x1F, 0)
  const Years := Field(YearReg, 0xFF, 0)

  // Alarm registers: an enable bit (0 = enabled) above a BCD value.
  // The header gives no shift for the alarm hour; that field starts at bit 0.
  const AenS := Field(SecondAlarmReg, 0x80, 7)
  const SecondsAlarm := Field(SecondAlarmReg, 0x7F, 0)
  const AenM := Field(MinuteAlarmReg, 0x80, 7)
  const MinutesAlarm := Field(MinuteAlarmReg, 0x7F, 0)
  const AenH := Field(HourAlarmReg, 0x80, 7)
  const HoursAlarm24 := Field(HourAlarmReg, 0x3F, 0)
  const HoursAlarm12 := Field(HourAlarmReg, 0x1F, 0)
  const AenD := Field(DayAlarmReg, 0x80, 7)
  const DaysAlarm := Field(DayAlarmReg, 0x3F, 0)
  const AenW := Field(WeekdayAlarmReg, 0x80, 7)
  const WeekdaysAlarm := Field(WeekdayAlarmReg, 0x07, 0)

  // Timer registers
  const TimerValue := Field(TimerValueReg, 0xFF, 0)
  const TiTp := Field(TimerModeReg, 0x01, 0)
  const Tie := Field(TimerModeReg, 0x02, 1)
  const Te := Field(TimerModeReg, 0x04, 2)
  const Tcf := Field(TimerModeReg, 0x18, 3)

  /** The field tables of the registers that hold more than one field. */
  const Control1Fields := [ExtTest, Stop, SoftReset, Cie, Mode1224, CapSel]
  const Control2Fields := [Aie, Af, Mi, Hmi, Tf, Cof]
  const OffsetFields := [Offset, OffsetMode]
  const TimerModeFields := [TiTp, Tie, Te, Tcf]
  const SecondFields := [Os, Seconds]
  /** Enable field and value field (24-hour view) of each alarm register, second to weekday. */
  const AlarmEnables := [AenS, AenM, AenH, AenD, AenW]
  const AlarmValues := [SecondsAlarm, MinutesAlarm, HoursAlarm24, DaysAlarm, WeekdaysAlarm]

  /** The shift names the lowest set bit of the mask. */
  predicate ShiftIsLowestBit(f: Field) {
    && f.shift < 8
    && (f.mask >> f.shift) & 1 == 1
    && f.mask & ((1 << f.shift) - 1) == 0
  }

  /** A field value `v` placed at the field's shift loses no bit and stays inside the mask. */
  predicate Fits(f: Field, v: bv8) {
    f.shift < 8 && (v << f.shift) & f.mask == v << f.shift && (v << f.shift) >> f.shift == v
  }

  predicate PairwiseDisjoint(fs: seq<Field>) {
    forall i, j :: 0 <= i < j < |fs| ==> fs[i].mask & fs[j].mask == 0
  }

  predicate SameRegister(fs: seq<Field>, a: Addr) {
    forall i :: 0 <= i < |fs| ==> fs[i].reg == a
  }

  /** The bits of a register claimed by any field of the table. */
  function Claimed(fs: seq<Field>): (r: bv8)
    ensures forall i :: 0 <= i < |fs| ==> fs[i].mask & r == fs[i].mask
  {
    if |fs| == 0 then 0 else fs[0].mask | Claimed(fs[1..])
  }

  lemma {:induction false} Control1Layout()
    ensures SameRegister(Control1Fields, Ctrl1)
    ensures PairwiseDisjoint(Control1Fields)
    ensures Claimed(Control1Fields) == 0xB7
    ensures Claimed(Control1Fields) & 0x48 == 0   // bits 3 and 6 are reserved
  {
    assert Claimed(Control1Fields[5..]) == 0x01;
    assert Claimed(Control1Fields[4..]) == 0x03;
    assert Claimed(Control1Fields[3..]) == 0x07;
    assert Claimed(Control1Fields[2..]) == 0x17;
    assert Claimed(Control1Fields[1..]) == 0x37;
  }

  lemma {:induction false} Control2Layout()
    ensures SameRegister(Control2Fields, Ctrl2)
    ensures PairwiseDisjoint(Control2Fields)
    ensures Claimed(Control2Fields) == 0xFF
  {
    assert Claimed(Control2Fields[5..]) == 0x07;
    assert Claimed(Control2Fields[4..]) == 0x0F;
    assert Claimed(Control2Fields[3..]) == 0x1F;
    assert Claimed(Control2Fields[2..]) == 0x3F;
    assert Claimed(Control2Fields[1..]) == 0x7F;
  }

  lemma {:induction false} OffsetAndTimerModeLayout()
    ensures SameRegister(OffsetFields, OffsetReg) && PairwiseDisjoint(OffsetFields)
    ensures Claimed(OffsetFields) == 0xFF
    ensures SameRegister(TimerModeFields, TimerModeReg) && PairwiseDisjoint(TimerModeFields)
    ensures Claimed(TimerModeFields) == 0x1F   // bits 5 to 7 are reserved
  {
    assert Claimed(OffsetFields[1..]) == 0x80;
    assert Claimed(TimerModeFields[3..]) == 0x18;
    assert Claimed(TimerModeFields[2..]) == 0x1C;
    assert Claimed(TimerModeFields[1..]) == 0x1E;
  }

  lemma AlarmFieldsLayout()
    ensures forall i :: 0 <= i < 5 ==>
      && AlarmEnables[i].reg == AlarmValues[i].reg == SecondAlarmReg + i
      && AlarmEnables[i].mask == 0x80
      && AlarmEnables[i].mask & AlarmValues[i].mask == 0
  {
  }

  lemma HourMasks()
    ensures Hours12.mask & Hours24.mask == Hours12.mask
    ensures (1 as bv8) << AmPmShift == Hours24.mask & !Hours12.mask
    ensures HoursAlarm12.mask & HoursAlarm24.mask == HoursAlarm12.mask
    ensures (1 as bv8) << AmPmShift == HoursAlarm24.mask & !HoursAlarm12.mask
  {
  }

  predicate AllShiftsLowest(fs: seq<Field>) {
    forall i :: 0 <= i < |fs| ==> ShiftIsLowestBit(fs[i])
  }

  lemma ShiftsAreLowestBits()
    ensures AllShiftsLowest(Control1Fields) && AllShiftsLowest(Control2Fields)
    ensures AllShiftsLowest(OffsetFields) && AllShiftsLowest(TimerModeFields)
    ensures AllShiftsLowest(SecondFields) && AllShiftsLowest(AlarmEnables) && AllShiftsLowest(AlarmValues)
    ensures AllShiftsLowest([Ram, Minutes, Hours24, Hours12, Days, Weekdays, Months, Years])
    ensures AllShiftsLowest([HoursAlarm12, TimerValue])
  {
  }

  /** The one-bit fields the driver writes with an enum code. */
  const OneBitFields := [ExtTest, Stop, Cie, Mode1224, CapSel, Aie, Af, Mi, Hmi, Tf, OffsetMode, TiTp, Tie, Te]
    + AlarmEnables

  /** One-bit fields take the codes 0 and 1, the timer clock field the codes 0 to 3. */
  lemma FieldCodesFit()
    ensures forall i, v: bv8 :: 0 <= i < |OneBitFields| && v <= 1 ==> Fits(OneBitFields[i], v)
    ensures forall v: bv8 :: v <= 3 ==> Fits(Tcf, v)
  {
  }

  /** The time registers run second..year and the alarm registers second..weekday, one address apart. */
  lemma AddressesContiguous()
    ensures [SecondReg, MinuteReg, HourReg, DayReg, WeekdayReg, MonthReg, YearReg]
      == seq(7, i => 0x04 + i)
    ensures [SecondAlarmReg, MinuteAlarmReg, HourAlarmReg, DayAlarmReg, WeekdayAlarmReg]
      == seq(5, i => 0x0B + i)
  {
  }
}
