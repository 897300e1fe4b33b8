/**
 * Setting the time (or alarm) and reading it back: in the ranges the demo
 * accepts, and with a meridiem that agrees with the chip's mode bit, the
 * read returns exactly the values that were set.
 */
module RoundTrip {
  import opened Wrappers
  import opened Registers
  import opened Bcd
  import opened DriverTypes
  import opened Transport
  import opened Device
  import opened TimeCodec
  import opened DemoApp
  import Control

  /** A decimal value that survives its mask both as decimal and as BCD is read back from a masked write. */
  lemma ValueRoundTrip(raw: bv8, prior: bv8, v: bv8, mask: bv8)
    requires mask != 0 && v < 100 && v & mask == v && DecimalToBcd(v) & mask == DecimalToBcd(v)
    requires raw == Merge(prior, DecimalToBcd(v & mask), mask)
    ensures BcdToDecimal(raw & mask) == v
  {
    DecimalToBcdRoundTrip(v);
    assert raw & mask == DecimalToBcd(v);
  }

  /** The mode the chip's Control_1 byte selects. */
  function ModeOf(regs: RegFile): Mode {
    ModeOfBit(ReadField(regs[Ctrl1], Mode1224))
  }

  /** After a successful time setting, each time register holds its write merged into the old byte. */
  lemma SetTimeRegisters(h: Option<Handle>, t: TimeData, bus: Bus)
    requires Guard(h, true).None? && AcksNext(bus, 7)
    ensures var r := SetTime(h, Some(t), bus); var ws := TimeWrites(t);
      && r.status == Ok
      && forall i :: 0 <= i < 7 ==> r.bus.regs[ws[i].reg] == Merge(bus.regs[ws[i].reg], ws[i].value, ws[i].mask)
  {
    var ws := TimeWrites(t);
    SetTimeSpans(bus, ws);
    ApplyAllDistinct(bus.regs, ws);
  }

  /** The decimal values of a time, in register order. */
  function TimeValues(t: TimeData): (vs: seq<bv8>)
    ensures |vs| == |TimeLayout|
  {
    [t.second, t.minutes, t.hours, t.days, t.weekdays, t.months, t.years]
  }

  /** A BCD time register other than the hour reads back the value written to it. */
  lemma TimeByteBack(raw: bv8, prior: bv8, t: TimeData, mode: Mode, i: nat)
    requires i < 7 && i != 2 && TimeAccepted(t, mode)
    requires raw == Merge(prior, TimeWrites(t)[i].value, TimeWrites(t)[i].mask)
    ensures BcdToDecimal(raw & TimeLayout[i].mask) == TimeValues(t)[i]
  {
    var v := TimeValues(t)[i];
    DecimalToBcdBounds(v);
    ValueRoundTrip(raw, prior, v, TimeLayout[i].mask);
  }

  /** The bytes a successful time setting leaves decode to the time that was set. */
  lemma DecodeWrittenTime(raw: seq<bv8>, prior: seq<bv8>, t: TimeData, mode: Mode)
    requires |raw| == 7 && |prior| == 7
    requires forall i :: 0 <= i < 7 ==> raw[i] == Merge(prior[i], TimeWrites(t)[i].value, TimeWrites(t)[i].mask)
    requires TimeAccepted(t, mode) && Agrees(t.ampm, mode)
    ensures DecodeTime(raw, mode) == t
  {
    TimeByteBack(raw[0], prior[0], t, mode, 0);
    TimeByteBack(raw[1], prior[1], t, mode, 1);
    HourRoundTrip(prior[2], t.hours, t.ampm, mode);
    TimeByteBack(raw[3], prior[3], t, mode, 3);
    TimeByteBack(raw[4], prior[4], t, mode, 4);
    TimeByteBack(raw[5], prior[5], t, mode, 5);
    TimeByteBack(raw[6], prior[6], t, mode, 6);
  }

  /** The time registers, second to year. */
  function TimeBytes(regs: RegFile): (bs: seq<bv8>)
    ensures |bs| == TimeSizeByte
    ensures forall i :: 0 <= i < |bs| ==> bs[i] == regs[TimeLayout[i].reg]
  {
    seq(7, i requires 0 <= i < 7 => regs[SecondReg + i])
  }

  /**
   * When the block read and the mode read succeed, time reading returns
   * the time registers decoded in the mode the chip is in, and changes no
   * register.
   */
  lemma GetTimeDecodes(h: Option<Handle>, time: TimeData, stale: Mode, partial: TimeData, bus: Bus)
    requires Guard(h, true).None? && AcksNext(bus, 2)
    ensures GetTime(h, true, Some(time), stale, partial, bus)
      == Transfer(Ok, Some(DecodeTime(TimeBytes(bus.regs), ModeOf(bus.regs))), bus.(issued := bus.issued + 2))
  {
    AcksNextSplit(bus, 1, 1);
    var rd := ReadData(h, Some(TimeReadList), true, bus);
    assert rd.bytes == TimeBytes(bus.regs);
    var m := Control.ModeGet(h, true, rd.bus);
    assert m.mode == Some(ModeOf(bus.regs));
  }

  /**
   * Setting a time the demo accepts, with a meridiem that agrees with the
   * chip's mode, and then reading it back yields the same time, provided
   * the seven writes, the block read and the mode read all succeed.
   */
  lemma TimeRoundTrip(h: Option<Handle>, t: TimeData, stale: Mode, partial: TimeData, bus: Bus)
    requires Guard(h, true).None? && AcksNext(bus, 9)
    requires TimeAccepted(t, ModeOf(bus.regs)) && Agrees(t.ampm, ModeOf(bus.regs))
    ensures var s := SetTime(h, Some(t), bus);
      && s.status == Ok && s.data.Some?
      && var g := GetTime(h, true, s.data, stale, partial, s.bus);
      && g.status == Ok
      && g.data == Some(t)
  {
    AcksNextSplit(bus, 7, 2);
    var s := SetTime(h, Some(t), bus);
    SetTimeRegisters(h, t, bus);
    assert s.bus.regs[Ctrl1] == bus.regs[Ctrl1];
    GetTimeDecodes(h, s.data.value, stale, partial, s.bus);
    DecodeWrittenTime(TimeBytes(s.bus.regs), TimeBytes(bus.regs), t, ModeOf(bus.regs));
  }

  /** After a successful alarm setting, each alarm register holds its write merged into the old byte. */
  lemma SetAlarmRegisters(h: Option<Handle>, al: AlarmData, bus: Bus)
    requires Guard(h, true).None? && AcksNext(bus, 5)
    ensures var r := SetAlarmTime(h, Some(al), bus); var ws := AlarmWrites(al);
      && r.status == Ok
      && forall i :: 0 <= i < 5 ==> r.bus.regs[ws[i].reg] == Merge(bus.regs[ws[i].reg], ws[i].value, ws[i].mask)
  {
    var ws := AlarmWrites(al);
    SetAlarmSpans(bus, ws);
    ApplyAllDistinct(bus.regs, ws);
  }

  /** Alarm setting keeps the enable bit of every alarm register. */
  lemma SetAlarmKeepsEnables(h: Option<Handle>, al: AlarmData, bus: Bus)
    requires Guard(h, true).None? && AcksNext(bus, 5)
    ensures var r := SetAlarmTime(h, Some(al), bus);
      forall i :: 0 <= i < 5 ==> r.bus.regs[AlarmEnables[i].reg] & 0x80 == bus.regs[AlarmEnables[i].reg] & 0x80
  {
    SetAlarmRegisters(h, al, bus);
    AlarmFieldsLayout();
  }

  /** The decimal values of an alarm, in register order. */
  function AlarmDecimals(al: AlarmData): (vs: seq<bv8>)
    ensures |vs| == |AlarmLayout|
  {
    [al.second, al.minutes, al.hours, al.days, al.weekdays]
  }

  /** A BCD alarm register other than the hour reads back the value written to it. */
  lemma AlarmByteBack(raw: bv8, prior: bv8, al: AlarmData, mode: Mode, i: nat)
    requires i < 5 && i != 2 && AlarmAccepted(al, mode)
    requires raw == Merge(prior, AlarmWrites(al)[i].value, AlarmWrites(al)[i].mask)
    ensures BcdToDecimal(raw & AlarmLayout[i].mask) == AlarmDecimals(al)[i]
  {
    var v := AlarmDecimals(al)[i];
    DecimalToBcdBounds(v);
    ValueRoundTrip(raw, prior, v, AlarmLayout[i].mask);
  }

  /** The bytes a successful alarm setting leaves decode to the alarm that was set. */
  lemma DecodeWrittenAlarm(raw: seq<bv8>, prior: seq<bv8>, al: AlarmData, mode: Mode)
    requires |raw| == 5 && |prior| == 5
    requires forall i :: 0 <= i < 5 ==> raw[i] == Merge(prior[i], AlarmWrites(al)[i].value, AlarmWrites(al)[i].mask)
    requires AlarmAccepted(al, mode) && Agrees(al.ampm, mode)
    ensures DecodeAlarm(raw, mode) == al
  {
    AlarmByteBack(raw[0], prior[0], al, mode, 0);
    AlarmByteBack(raw[1], prior[1], al, mode, 1);
    HourRoundTrip(prior[2], al.hours, al.ampm, mode);
    AlarmByteBack(raw[3], prior[3], al, mode, 3);
    AlarmByteBack(raw[4], prior[4], al, mode, 4);
  }

  /** The alarm registers, second to weekday. */
  function AlarmBytes(regs: RegFile): (bs: seq<bv8>)
    ensures |bs| == AlarmTimeSizeByte
    ensures forall i :: 0 <= i < |bs| ==> bs[i] == regs[AlarmLayout[i].reg]
  {
    seq(5, i requires 0 <= i < 5 => regs[SecondAlarmReg + i])
  }

  /** When both reads succeed, alarm reading returns the alarm registers decoded in the chip's mode. */
  lemma GetAlarmDecodes(h: Option<Handle>, alarm: AlarmData, stale: Mode, partial: AlarmData, bus: Bus)
    requires Guard(h, true).None? && AcksNext(bus, 2)
    ensures GetAlarmTime(h, true, Some(alarm), stale, partial, bus)
      == Transfer(Ok, Some(DecodeAlarm(AlarmBytes(bus.regs), ModeOf(bus.regs))), bus.(issued := bus.issued + 2))
  {
    AcksNextSplit(bus, 1, 1);
    var rd := ReadData(h, Some(AlarmReadList), true, bus);
    assert rd.bytes == AlarmBytes(bus.regs);
    var m := Control.ModeGet(h, true, rd.bus);
    assert m.mode == Some(ModeOf(bus.regs));
  }

  /** The alarm counterpart of the time round trip: five writes, the block read and the mode read. */
  lemma AlarmRoundTrip(h: Option<Handle>, al: AlarmData, stale: Mode, partial: AlarmData, bus: Bus)
    requires Guard(h, true).None? && AcksNext(bus, 7)
    requires AlarmAccepted(al, ModeOf(bus.regs)) && Agrees(al.ampm, ModeOf(bus.regs))
    ensures var s := SetAlarmTime(h, Some(al), bus);
      && s.status == Ok && s.data.Some?
      && var g := GetAlarmTime(h, true, s.data, stale, partial, s.bus);
      && g.status == Ok
      && g.data == Some(al)
  {
    AcksNextSplit(bus, 5, 2);
    var s := SetAlarmTime(h, Some(al), bus);
    SetAlarmRegisters(h, al, bus);
    assert s.bus.regs[Ctrl1] == bus.regs[Ctrl1];
    GetAlarmDecodes(h, s.data.value, stale, partial, s.bus);
    DecodeWrittenAlarm(AlarmBytes(s.bus.regs), AlarmBytes(bus.regs), al, ModeOf(bus.regs));
  }

  /**
   * A PM time set while the chip is in 24-hour mode does not come back: the
   * PM flag is read as a tens digit, so 1 PM reads as hour 21.
   */
  lemma MismatchedMeridiemBreaksRoundTrip(h: Option<Handle>, stale: Mode, partial: TimeData, bus: Bus)
    requires Guard(h, true).None? && AcksNext(bus, 9) && ModeOf(bus.regs) == Mode24H
    ensures var t := TimeData(0, 0, 1, 1, 0, 1, 0, PM);
      var s := SetTime(h, Some(t), bus);
      && s.status == Ok && s.data.Some?
      && var g := GetTime(h, true, s.data, stale, partial, s.bus);
      && g.status == Ok && g.data.Some?
      && g.data.value.hours == 21 && g.data.value.ampm == H24
  {
    var t := TimeData(0, 0, 1, 1, 0, 1, 0, PM);
    AcksNextSplit(bus, 7, 2);
    var s := SetTime(h, Some(t), bus);
    SetTimeRegisters(h, t, bus);
    assert s.bus.regs[Ctrl1] == bus.regs[Ctrl1];
    GetTimeDecodes(h, s.data.value, stale, partial, s.bus);
    assert TimeBytes(s.bus.regs)[2] == Merge(bus.regs[HourReg], EncodeHour(1, PM), Hours24.mask);
    HourMismatch();
  }
}
