/**
 * Time and alarm transfer: the hour byte with its AM/PM bit, the register
 * write sequences of time and alarm setting, the block reads of time and
 * alarm reading, and their decoding under the 12/24-hour mode.
 */
module TimeCodec {
  import opened Wrappers
  import opened Registers
  import opened Bcd
  import opened DriverTypes
  import opened Transport
  import opened Device
  import Control

  /** The hour byte for a decimal hour: BCD with bit 5 as the PM flag in 12-hour form. */
  function EncodeHour(hours: bv8, ampm: AmPm): (r: bv8)
    ensures ampm == AM ==> r & 0x20 == 0
    ensures ampm == PM ==> r & 0x20 == 0x20
    ensures ampm != H24 ==> r & 0x1F == DecimalToBcd(hours & 0x1F) & 0x1F
    ensures ampm != H24 && hours & 0x1F < 20 ==> r & 0xC0 == 0
    ensures ampm == H24 && hours & 0x3F < 40 ==> r & 0xC0 == 0
  {
    DecimalToBcdBounds(hours & Hours12.mask);
    DecimalToBcdBounds(hours & Hours24.mask);
    match ampm
    case AM => DecimalToBcd(hours & Hours12.mask) & !(PM.Code() << AmPmShift)
    case PM => DecimalToBcd(hours & Hours12.mask) | (PM.Code() << AmPmShift)
    case H24 => DecimalToBcd(hours & Hours24.mask)
  }

  /** A decoded hour: the decimal value and its meridiem. */
  datatype Hour = Hour(hours: bv8, ampm: AmPm)

  /** Reads an hour byte in the given mode: 24-hour values use six bits, 12-hour values five plus the PM bit. */
  function DecodeHour(raw: bv8, mode: Mode): (r: Hour)
    ensures mode == Mode24H <==> r.ampm == H24
    ensures mode == Mode12H ==> (r.ampm == PM <==> raw & 0x20 != 0)
    ensures r.hours == (if mode == Mode24H then BcdToDecimal(raw & 0x3F) else BcdToDecimal(raw & 0x1F))
  {
    if mode == Mode24H then Hour(BcdToDecimal(raw & Hours24.mask), H24)
    else Hour(BcdToDecimal(raw & Hours12.mask), if (raw >> AmPmShift) & 0x01 != 0 then PM else AM)
  }

  /** The meridiem agrees with the mode: `H24` exactly in 24-hour mode. */
  predicate Agrees(ampm: AmPm, mode: Mode) {
    (ampm == H24) <==> (mode == Mode24H)
  }

  /** An hour the mode can hold: 0 to 23 in 24-hour mode, 1 to 12 in 12-hour mode. */
  predicate HourFor(hours: bv8, mode: Mode) {
    if mode == Mode24H then hours <= 23 else 1 <= hours <= 12
  }

  /**
   * Written with the 24-hour mask, an encoded hour reads back as the same
   * hour and meridiem when the meridiem agrees with the mode.
   */
  lemma HourRoundTrip(prior: bv8, hours: bv8, ampm: AmPm, mode: Mode)
    requires HourFor(hours, mode) && Agrees(ampm, mode)
    ensures DecodeHour(Merge(prior, EncodeHour(hours, ampm), Hours24.mask), mode) == Hour(hours, ampm)
  {
    DecimalToBcdRoundTrip(hours);
    DecimalToBcdBounds(hours);
  }

  /** A 12-hour value read in 24-hour mode comes back with the PM flag as a tens digit of 2. */
  lemma HourMismatch()
    ensures DecodeHour(EncodeHour(1, PM), Mode24H) == Hour(21, H24)
  {
  }

  /** The seven writes of time setting, in register order. */
  function TimeWrites(t: TimeData): (ws: seq<RegWrite>)
    ensures |ws| == |TimeLayout|
    ensures forall i :: 0 <= i < |ws| ==> ws[i].reg == TimeLayout[i].reg && ws[i].mask == TimeLayout[i].mask
    ensures DistinctTargets(ws)
  {
    [ RegWrite(SecondReg, DecimalToBcd(t.second & Seconds.mask), Seconds.mask),
      RegWrite(MinuteReg, DecimalToBcd(t.minutes & Minutes.mask), Minutes.mask),
      RegWrite(HourReg, EncodeHour(t.hours, t.ampm), Hours24.mask),
      RegWrite(DayReg, DecimalToBcd(t.days & Days.mask), Days.mask),
      RegWrite(WeekdayReg, DecimalToBcd(t.weekdays & Weekdays.mask), Weekdays.mask),
      RegWrite(MonthReg, DecimalToBcd(t.months & Months.mask), Months.mask),
      RegWrite(YearReg, DecimalToBcd(t.years & Years.mask), Years.mask) ]
  }

  /** A time or alarm operation's status, the caller's structure afterwards, and the bus. */
  datatype Transfer<T> = Transfer(status: Status, data: Option<T>, bus: Bus)

  /**
   * Time setting: seconds and minutes, then the hour byte (which also
   * replaces the caller's decimal hour), then day, weekday, month and year;
   * the first failed write ends the operation.
   */
  function SetTime(h: Option<Handle>, time: Option<TimeData>, bus: Bus): (r: Transfer<TimeData>)
    ensures Guard(h, time.Some?).Some? ==> r == Transfer(Guard(h, time.Some?).value, time, bus)
    ensures Guard(h, time.Some?).None? ==>
      && (r.status == Ok <==> AcksNext(bus, 7))
      && (r.status == Ok ==> r.bus.issued == bus.issued + 7)
      && r.bus.nacks == bus.nacks
      && (r.status != Ok ==> r.status == WriteError)
      && r.data == (if AcksNext(bus, 2) then Some(time.value.(hours := EncodeHour(time.value.hours, time.value.ampm))) else time)
      && forall a: Addr :: !(SecondReg <= a <= YearReg) ==> r.bus.regs[a] == bus.regs[a]
  {
    match Guard(h, time.Some?)
    case Some(err) => Transfer(err, time, bus)
    case None =>
      var t := time.value;
      var ws := TimeWrites(t);
      SetTimeSpans(bus, ws);
      var first := WriteList(bus, ws[..2]);
      if !first.ok then Transfer(WriteError, time, first.bus)
      else
        var t' := t.(hours := EncodeHour(t.hours, t.ampm));
        var rest := WriteList(first.bus, ws[2..]);
        Transfer(WriteStatus(rest), Some(t'), rest.bus)
  }

  /** Both parts of time setting together are one run of the whole write list. */
  lemma SetTimeSpans(bus: Bus, ws: seq<RegWrite>)
    requires |ws| == 7
    requires forall i :: 0 <= i < 7 ==> SecondReg <= ws[i].reg <= YearReg
    ensures var s1 := WriteList(bus, ws[..2]);
      && (s1.ok ==> WriteList(s1.bus, ws[2..]) == WriteList(bus, ws))
      && (s1.ok <==> AcksNext(bus, 2))
      && (s1.ok && WriteList(s1.bus, ws[2..]).ok <==> AcksNext(bus, 7))
      && forall a: Addr :: !(SecondReg <= a <= YearReg) ==> WriteList(bus, ws).bus.regs[a] == bus.regs[a]
  {
    WriteListSplit(bus, ws, 2);
    forall a: Addr | !(SecondReg <= a <= YearReg)
      ensures !Targets(ws, a)
    {
    }
  }

  /** The register block a time read covers. */
  const TimeReadList := [ReadSpan(SecondReg, TimeSizeByte)]
  const AlarmReadList := [ReadSpan(SecondAlarmReg, AlarmTimeSizeByte)]

  /** A read operation's status, the bytes read, and the bus. */
  datatype DataRead = DataRead(status: Status, bytes: seq<bv8>, bus: Bus)

  /** The register read routine: entry check, then the read list; a failed read is a read error. */
  function ReadData(h: Option<Handle>, list: Option<seq<ReadSpan>>, bufferPresent: bool, bus: Bus): (r: DataRead)
    requires list.Some? ==> InMap(list.value)
    ensures Guard(h, list.Some? && bufferPresent).Some? ==> r == DataRead(Guard(h, list.Some? && bufferPresent).value, [], bus)
    ensures r.bus.regs == bus.regs && r.bus.nacks == bus.nacks
    ensures r.status == Ok <==> Guard(h, list.Some? && bufferPresent).None? && AcksNext(bus, |list.value|)
    ensures Guard(h, list.Some? && bufferPresent).None? && r.status != Ok ==> r.status == ReadError
    ensures r.status == Ok ==> r.bytes == Gather(bus.regs, list.value) && r.bus.issued == bus.issued + |list.value|
  {
    match Guard(h, list.Some? && bufferPresent)
    case Some(err) => DataRead(err, [], bus)
    case None =>
      var rd := ReadList(bus, list.value);
      DataRead(if rd.ok then Ok else ReadError, rd.bytes, rd.bus)
  }

  /** The bytes of a time read decoded as decimal values in the given mode. */
  function DecodeTime(raw: seq<bv8>, mode: Mode): (t: TimeData)
    requires |raw| == TimeSizeByte
    ensures Agrees(t.ampm, mode)
    ensures t.weekdays < 8
  {
    var hour := DecodeHour(raw[2], mode);
    TimeData(
      BcdToDecimal(raw[0] & Seconds.mask), BcdToDecimal(raw[1] & Minutes.mask), hour.hours,
      BcdToDecimal(raw[3] & Days.mask), BcdToDecimal(raw[4] & Weekdays.mask),
      BcdToDecimal(raw[5] & Months.mask), BcdToDecimal(raw[6]), hour.ampm)
  }

  /**
   * The mode a read uses: the register's when the mode read succeeds, else
   * `stale`, the value the caller's uninitialised local happens to hold.
   */
  function ModeOrStale(m: Control.ModeRead, stale: Mode): Mode {
    if m.mode.Some? then m.mode.value else stale
  }

  /**
   * Time reading: the seven time registers in one read, then the mode read
   * (whose status is ignored), then decoding. Any failure is reported as a
   * write error. A missing read list stops the read before the transport is
   * called, so the caller's structure is kept; after a failed transport read
   * the seven bytes of the structure hold whatever the transport left, given
   * as `partial`, and the meridiem, which the read does not reach, is kept.
   */
  function GetTime(h: Option<Handle>, listPresent: bool, time: Option<TimeData>, stale: Mode, partial: TimeData, bus: Bus): (r: Transfer<TimeData>)
    ensures Guard(h, time.Some?).Some? ==> r == Transfer(Guard(h, time.Some?).value, time, bus)
    ensures r.bus.regs == bus.regs
    ensures Guard(h, time.Some?).None? ==>
      && (r.status == Ok <==> listPresent && bus.issued !in bus.nacks)
      && (r.status != Ok ==> r.status == WriteError)
      && (!listPresent ==> r.data == time)
      && (listPresent && r.status != Ok ==> r.data == Some(partial.(ampm := time.value.ampm)))
      && (r.status == Ok ==> r.data.Some? && Agrees(r.data.value.ampm, ModeOrStale(Control.ModeGet(h, true, bus.(issued := bus.issued + 1)), stale)))
  {
    match Guard(h, time.Some?)
    case Some(err) => Transfer(err, time, bus)
    case None =>
      var list := if listPresent then Some(TimeReadList) else None;
      var rd := ReadData(h, list, true, bus);
      if rd.status != Ok then
        Transfer(WriteError, if listPresent then Some(partial.(ampm := time.value.ampm)) else time, rd.bus)
      else
        assert AcksNext(bus, 1) ==> rd.bytes == SpanBytes(bus.regs, TimeReadList[0]);
        var m := Control.ModeGet(h, true, rd.bus);
        Transfer(Ok, Some(DecodeTime(rd.bytes, ModeOrStale(m, stale))), m.bus)
  }

  /** The five writes of alarm setting, in register order; the enable bits are outside every mask. */
  function AlarmWrites(al: AlarmData): (ws: seq<RegWrite>)
    ensures |ws| == |AlarmLayout|
    ensures forall i :: 0 <= i < |ws| ==> ws[i].reg == AlarmLayout[i].reg && ws[i].mask == AlarmLayout[i].mask
    ensures forall i :: 0 <= i < |ws| ==> ws[i].mask & 0x80 == 0 && ws[i].mask != 0
    ensures DistinctTargets(ws)
  {
    [ RegWrite(SecondAlarmReg, DecimalToBcd(al.second & SecondsAlarm.mask), SecondsAlarm.mask),
      RegWrite(MinuteAlarmReg, DecimalToBcd(al.minutes & MinutesAlarm.mask), MinutesAlarm.mask),
      RegWrite(HourAlarmReg, EncodeHour(al.hours, al.ampm), HoursAlarm24.mask),
      RegWrite(DayAlarmReg, DecimalToBcd(al.days & DaysAlarm.mask), DaysAlarm.mask),
      RegWrite(WeekdayAlarmReg, DecimalToBcd(al.weekdays & WeekdaysAlarm.mask), WeekdaysAlarm.mask) ]
  }

  /** Alarm setting: the five alarm values in order, keeping every enable bit; the first failed write ends it. */
  function SetAlarmTime(h: Option<Handle>, alarm: Option<AlarmData>, bus: Bus): (r: Transfer<AlarmData>)
    ensures Guard(h, alarm.Some?).Some? ==> r == Transfer(Guard(h, alarm.Some?).value, alarm, bus)
    ensures Guard(h, alarm.Some?).None? ==>
      && (r.status == Ok <==> AcksNext(bus, 5))
      && (r.status == Ok ==> r.bus.issued == bus.issued + 5)
      && r.bus.nacks == bus.nacks
      && (r.status != Ok ==> r.status == WriteError)
      && r.data == (if AcksNext(bus, 2) then Some(alarm.value.(hours := EncodeHour(alarm.value.hours, alarm.value.ampm))) else alarm)
      && forall a: Addr :: !(SecondAlarmReg <= a <= WeekdayAlarmReg) ==> r.bus.regs[a] == bus.regs[a]
  {
    match Guard(h, alarm.Some?)
    case Some(err) => Transfer(err, alarm, bus)
    case None =>
      var al := alarm.value;
      var ws := AlarmWrites(al);
      SetAlarmSpans(bus, ws);
      var first := WriteList(bus, ws[..2]);
      if !first.ok then Transfer(WriteError, alarm, first.bus)
      else
        var al' := al.(hours := EncodeHour(al.hours, al.ampm));
        var rest := WriteList(first.bus, ws[2..]);
        Transfer(WriteStatus(rest), Some(al'), rest.bus)
  }

  lemma SetAlarmSpans(bus: Bus, ws: seq<RegWrite>)
    requires |ws| == 5
    requires forall i :: 0 <= i < 5 ==> SecondAlarmReg <= ws[i].reg <= WeekdayAlarmReg
    ensures var s1 := WriteList(bus, ws[..2]);
      && (s1.ok ==> WriteList(s1.bus, ws[2..]) == WriteList(bus, ws))
      && (s1.ok <==> AcksNext(bus, 2))
      && (s1.ok && WriteList(s1.bus, ws[2..]).ok <==> AcksNext(bus, 5))
      && forall a: Addr :: !(SecondAlarmReg <= a <= WeekdayAlarmReg) ==> WriteList(bus, ws).bus.regs[a] == bus.regs[a]
  {
    WriteListSplit(bus, ws, 2);
    forall a: Addr | !(SecondAlarmReg <= a <= WeekdayAlarmReg)
      ensures !Targets(ws, a)
    {
    }
  }

  /** The bytes of an alarm read decoded as decimal values in the given mode. */
  function DecodeAlarm(raw: seq<bv8>, mode: Mode): (al: AlarmData)
    requires |raw| == AlarmTimeSizeByte
    ensures Agrees(al.ampm, mode)
    ensures al.weekdays < 8
  {
    var hour := DecodeHour(raw[2], mode);
    AlarmData(
      BcdToDecimal(raw[0] & SecondsAlarm.mask), BcdToDecimal(raw[1] & MinutesAlarm.mask), hour.hours,
      BcdToDecimal(raw[3] & DaysAlarm.mask), BcdToDecimal(raw[4] & WeekdaysAlarm.mask), hour.ampm)
  }

  /**
   * Alarm reading: the five alarm registers in one read, the mode read, then
   * decoding, with the failure cases of time reading.
   */
  function GetAlarmTime(h: Option<Handle>, listPresent: bool, alarm: Option<AlarmData>, stale: Mode, partial: AlarmData, bus: Bus): (r: Transfer<AlarmData>)
    ensures Guard(h, alarm.Some?).Some? ==> r == Transfer(Guard(h, alarm.Some?).value, alarm, bus)
    ensures r.bus.regs == bus.regs
    ensures Guard(h, alarm.Some?).None? ==>
      && (r.status == Ok <==> listPresent && bus.issued !in bus.nacks)
      && (r.status != Ok ==> r.status == WriteError)
      && (!listPresent ==> r.data == alarm)
      && (listPresent && r.status != Ok ==> r.data == Some(partial.(ampm := alarm.value.ampm)))
      && (r.status == Ok ==> r.data.Some? && Agrees(r.data.value.ampm, ModeOrStale(Control.ModeGet(h, true, bus.(issued := bus.issued + 1)), stale)))
  {
    match Guard(h, alarm.Some?)
    case Some(err) => Transfer(err, alarm, bus)
    case None =>
      var list := if listPresent then Some(AlarmReadList) else None;
      var rd := ReadData(h, list, true, bus);
      if rd.status != Ok then
        Transfer(WriteError, if listPresent then Some(partial.(ampm := alarm.value.ampm)) else alarm, rd.bus)
      else
        assert AcksNext(bus, 1) ==> rd.bytes == SpanBytes(bus.regs, AlarmReadList[0]);
        var m := Control.ModeGet(h, true, rd.bus);
        Transfer(Ok, Some(DecodeAlarm(rd.bytes, ModeOrStale(m, stale))), m.bus)
  }
}
