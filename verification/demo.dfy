/**
 * The parts of the demo application the codec depends on: the ranges its
 * prompts accept, the meridiem choice, the stop-set-start sequence of time
 * setting, the alarm kind prompt, and the offset sign conversion.
 */
module DemoApp {
  import opened Wrappers
  import opened Registers
  import opened DriverTypes
  import opened Transport
  import opened Device
  import opened TimeCodec
  import Control

  /** The values the time prompts accept before the time is set. */
  predicate TimeAccepted(t: TimeData, mode: Mode) {
    && 1 <= t.days <= 31 && 1 <= t.months <= 12 && t.years <= 99 && t.weekdays <= 6
    && HourFor(t.hours, mode) && t.minutes <= 59 && t.second <= 59
  }

  /** The values the alarm prompts accept before the alarm is set. */
  predicate AlarmAccepted(al: AlarmData, mode: Mode) {
    && 1 <= al.days <= 31 && al.weekdays <= 6
    && HourFor(al.hours, mode) && al.minutes <= 59 && al.second <= 59
  }

  /** The time prompt re-asks for the meridiem until the choice is 0, 1 or 2. */
  predicate TimeMeridiemAccepted(choice: int) {
    0 <= choice <= 2
  }

  /**
   * The meridiem the prompts leave in the structure: in 12-hour mode choice 1
   * is AM and 2 is PM, any other choice keeps the previous value; 24-hour
   * mode forces `H24`.
   */
  function MeridiemChoice(mode: Mode, choice: int, previous: AmPm): (r: AmPm)
    ensures Agrees(r, mode) <==> mode == Mode24H || choice == 1 || choice == 2 || Agrees(previous, mode)
    ensures r != previous ==> r == H24 || choice == 1 || choice == 2
    ensures mode == Mode24H ==> r == H24
    ensures mode == Mode12H && choice == 1 ==> r == AM
    ensures mode == Mode12H && choice == 2 ==> r == PM
    ensures mode == Mode12H && choice != 1 && choice != 2 ==> r == previous
  {
    if mode == Mode24H then H24
    else if choice == 1 then AM
    else if choice == 2 then PM
    else previous
  }

  /** Choice 0 passes the time prompt's check but keeps a 24-hour meridiem left from an earlier read. */
  lemma AcceptedChoiceCanDisagree()
    ensures TimeMeridiemAccepted(0) && !Agrees(MeridiemChoice(Mode12H, 0, H24), Mode12H)
  {
  }

  /** The result of the demo's time setting: whether it reported an error, the time structure and the bus. */
  datatype FlowResult = FlowResult(error: bool, time: Option<TimeData>, bus: Bus)

  /** Stop the clock, set the time, start the clock; the first failing step ends the sequence with an error. */
  function SetTimeFlow(h: Option<Handle>, t: TimeData, bus: Bus): FlowResult {
    var stop := Control.Run(h, Control.RtcStop, bus);
    if stop.status != Ok then FlowResult(true, Some(t), stop.bus)
    else
      var written := SetTime(h, Some(t), stop.bus);
      if written.status != Ok then FlowResult(true, written.data, written.bus)
      else
        var start := Control.Run(h, Control.RtcStart, written.bus);
        FlowResult(start.status != Ok, written.data, start.bus)
  }

  /** The sequence reports no error exactly when the entry check passes and all nine transactions succeed. */
  lemma SetTimeFlowSucceeds(h: Option<Handle>, t: TimeData, bus: Bus)
    ensures !SetTimeFlow(h, t, bus).error <==> Guard(h, true).None? && AcksNext(bus, 9)
  {
    if Guard(h, true).None? && AcksNext(bus, 9) {
      FlowAllAcked(h, t, bus);
    } else if Guard(h, true).None? {
      FlowSomeFailure(h, t, bus);
    }
  }

  lemma FlowAllAcked(h: Option<Handle>, t: TimeData, bus: Bus)
    requires Guard(h, true).None? && AcksNext(bus, 9)
    ensures !SetTimeFlow(h, t, bus).error
  {
    AcksNextSplit(bus, 1, 8);
    var stop := Control.Run(h, Control.RtcStop, bus);
    StepAcked(h, Control.RtcStop, bus);
    AcksNextSplit(stop.bus, 7, 1);
    var w := SetTime(h, Some(t), stop.bus);
    StepAcked(h, Control.RtcStart, w.bus);
  }

  /** A start or stop whose transaction is acknowledged reports success. */
  lemma StepAcked(h: Option<Handle>, c: Control.Command, bus: Bus)
    requires Guard(h, true).None? && bus.issued !in bus.nacks
    requires c == Control.RtcStop || c == Control.RtcStart
    ensures Control.Run(h, c, bus).status == Ok
    ensures Control.Run(h, c, bus).bus.issued == bus.issued + 1
    ensures Control.Run(h, c, bus).bus.nacks == bus.nacks
  {
  }

  lemma FlowSomeFailure(h: Option<Handle>, t: TimeData, bus: Bus)
    requires Guard(h, true).None? && !AcksNext(bus, 9)
    ensures SetTimeFlow(h, t, bus).error
  {
    AcksNextSplit(bus, 1, 8);
    var stop := Control.Run(h, Control.RtcStop, bus);
    if stop.status == Ok {
      AcksNextSplit(stop.bus, 7, 1);
      var w := SetTime(h, Some(t), stop.bus);
      if w.status == Ok {
        assert w.bus.issued == bus.issued + 8;
      }
    }
  }

  /** A failed stop ends the sequence: no time register is written and the clock is not restarted. */
  lemma SetTimeFlowStopsAtStop(h: Option<Handle>, t: TimeData, bus: Bus)
    requires Guard(h, true).Some? || bus.issued in bus.nacks
    ensures SetTimeFlow(h, t, bus).error
    ensures SetTimeFlow(h, t, bus).bus.regs == bus.regs
    ensures SetTimeFlow(h, t, bus).time == Some(t)
  {
  }

  /** When the time writes fail after the clock was stopped, the clock is left stopped. */
  lemma FailedSetLeavesClockStopped(h: Option<Handle>, t: TimeData, bus: Bus)
    requires Guard(h, true).None? && bus.issued !in bus.nacks
    requires !AcksNext(bus.(issued := bus.issued + 1), 7)
    ensures SetTimeFlow(h, t, bus).error
    ensures SetTimeFlow(h, t, bus).bus.regs[Ctrl1] & Stop.mask == Stop.mask
  {
    assert Control.Target(Control.RtcStop) == Ctrl1;
    var stop := Control.Run(h, Control.RtcStop, bus);
    assert stop.bus.regs[Ctrl1] & Stop.mask == Stop.mask;
    var w := SetTime(h, Some(t), stop.bus);
    assert w.status != Ok;
    assert w.bus.regs[Ctrl1] == stop.bus.regs[Ctrl1];
  }

  /** A successful sequence leaves the clock running with the rest of Control_1 as it was, and touches only the time registers besides. */
  lemma SetTimeFlowRegisters(h: Option<Handle>, t: TimeData, bus: Bus)
    requires Guard(h, true).None? && AcksNext(bus, 9)
    ensures var r := SetTimeFlow(h, t, bus);
      && r.bus.regs[Ctrl1] == bus.regs[Ctrl1] & 0xDF
      && forall a: Addr :: a != Ctrl1 && !(SecondReg <= a <= YearReg) ==> r.bus.regs[a] == bus.regs[a]
  {
    AcksNextSplit(bus, 1, 8);
    var stop := Control.Run(h, Control.RtcStop, bus);
    Control.StartStopBit(h, bus);
    AcksNextSplit(stop.bus, 7, 1);
    var w := SetTime(h, Some(t), stop.bus);
    Control.StartStopBit(h, w.bus);
    StopThenStart(bus.regs[Ctrl1]);
  }

  lemma StopThenStart(c: bv8)
    ensures (c | 0x20) & 0xDF == c & 0xDF
  {
  }

  /** The outcomes of one pass of the alarm kind prompt. */
  datatype KeyOutcome = Chosen(kind: int) | FallsOff | Retry

  /**
   * The alarm kind prompt: the key code minus '0' in an unsigned byte; 1 to
   * 4 are returned, values above 5 ask again, and 0 and 5 leave the loop
   * without a return statement.
   */
  function AlarmTypeKey(key: bv8): (r: KeyOutcome)
    ensures r.Chosen? <==> '1' as bv8 <= key <= '4' as bv8
    ensures r.Chosen? ==> r.kind == (key - '0' as bv8) as int
    ensures r == FallsOff <==> key == '0' as bv8 || key == '5' as bv8
  {
    var v := key - 48;
    if 1 <= v <= 4 then Chosen(v as int)
    else if v > 5 then Retry
    else FallsOff
  }

  /** The weekday alarm (kind 5) is offered but never chosen. */
  lemma WeekdayAlarmUnreachable(key: bv8)
    ensures AlarmTypeKey(key) != Chosen(AWeekday.Code())
    ensures AlarmTypeKey('5' as bv8) == FallsOff
  {
  }

  /** The evidently intended prompt: every offered kind 1 to 5 is returned. */
  function AlarmTypeKeyIntended(key: bv8): (r: KeyOutcome)
    ensures r.Chosen? <==> '1' as bv8 <= key <= '5' as bv8
    ensures r.Chosen? ==> exists t: AlarmType :: r.kind == t.Code()
    ensures !r.Chosen? ==> r == Retry
  {
    var v := key - 48;
    if 1 <= v <= 5 then
      assert v as int == [ASeconds, AMinute, AHour, ADay, AWeekday][v - 1].Code();
      Chosen(v as int)
    else Retry
  }

  /** The offset prompt leaves its loop only for values from -64 to 63. */
  predicate OffsetAccepted(v: bv8) {
    -64 <= Signed8(v) <= 63
  }

  /** The offset prompt warns about values below -64 or above +64. */
  predicate OffsetWarned(v: bv8) {
    Signed8(v) < -64 || Signed8(v) > 64
  }

  /** 64 is asked for again without a warning. */
  lemma SixtyFourSilentlyRejected()
    ensures !OffsetAccepted(64) && !OffsetWarned(64)
    ensures forall v: bv8 :: OffsetWarned(v) ==> !OffsetAccepted(v)
  {
  }

  /**
   * The value handed to the offset write: an accepted value outside 0 to 63
   * is replaced by `(~v) + 1` in 8 bits, its two's complement negation.
   */
  function OffsetArgument(v: bv8): (r: bv8)
    ensures 0 <= Signed8(v) <= 63 ==> r == v
    ensures -64 <= Signed8(v) < 0 ==> Signed8(r) == -Signed8(v)
  {
    if 0 <= Signed8(v) <= 63 then v else !v + 1
  }

  /** The offset field of a register byte read as a 7-bit two's complement number. */
  function DecodeOffset(b: bv8): (v: int)
    ensures -64 <= v <= 63
    ensures v < 0 <==> b & 0x40 != 0
  {
    var m := (b & 0x7F) as int;
    if m >= 64 then m - 128 else m
  }

  /** Every offset from -64 to 63 survives the 7-bit field unchanged. */
  lemma OffsetFieldRoundTrip(v: bv8)
    requires OffsetAccepted(v)
    ensures DecodeOffset(v & Offset.mask) == Signed8(v)
  {
  }

  /** The offset mode command of the menu choice: normal or coarse. */
  function ModeCommand(course: bool): Control.Command {
    if course then Control.CourseOffsetMode else Control.NormalOffsetMode
  }

  /** The offset mode write sets bit 7 of the offset register to the choice. */
  lemma OffsetModeStep(h: Option<Handle>, course: bool, bus: Bus)
    requires Guard(h, true).None? && bus.issued !in bus.nacks
    ensures var m := Control.Run(h, ModeCommand(course), bus).bus;
      && m.regs[OffsetReg] & 0x80 == (if course then 0x80 else 0)
      && m.regs[OffsetReg] & 0x7F == bus.regs[OffsetReg] & 0x7F
      && m.issued == bus.issued + 1 && m.nacks == bus.nacks
  {
    assert Control.Target(ModeCommand(course)) == OffsetReg;
  }

  /** The offset write replaces the low seven bits of the offset register and keeps the mode bit. */
  lemma OffsetValueStep(h: Option<Handle>, v: bv8, bus: Bus)
    requires Guard(h, true).None? && bus.issued !in bus.nacks
    ensures var b := Control.Run(h, Control.SetOffset(v), bus).bus;
      && b.regs[OffsetReg] & 0x7F == v & 0x7F
      && b.regs[OffsetReg] & 0x80 == bus.regs[OffsetReg] & 0x80
  {
    assert Control.Target(Control.SetOffset(v)) == OffsetReg;
  }

  /** The offset mode choice followed by the offset write; the statuses are only reported, not acted on. */
  function SetOffsetFlow(h: Option<Handle>, course: bool, v: bv8, bus: Bus): (b: Bus)
    ensures b.nacks == bus.nacks
    ensures forall a: Addr :: a != OffsetReg ==> b.regs[a] == bus.regs[a]
  {
    assert Control.Target(ModeCommand(course)) == OffsetReg;
    var m := Control.Run(h, ModeCommand(course), bus);
    var oc := Control.SetOffset(OffsetArgument(v));
    assert Control.Target(oc) == OffsetReg;
    Control.Run(h, oc, m.bus).bus
  }

  /** After both writes the offset register holds the mode bit and the low seven bits of the argument. */
  lemma OffsetWrite(h: Option<Handle>, course: bool, v: bv8, bus: Bus)
    requires Guard(h, true).None? && AcksNext(bus, 2)
    ensures SetOffsetFlow(h, course, v, bus).regs[OffsetReg] & 0x7F == OffsetArgument(v) & 0x7F
    ensures SetOffsetFlow(h, course, v, bus).regs[OffsetReg] & 0x80 == (if course then 0x80 else 0)
  {
    OffsetModeStep(h, course, bus);
    OffsetValueStep(h, OffsetArgument(v), Control.Run(h, ModeCommand(course), bus).bus);
  }

  /**
   * A negative offset -k (k from 1 to 63) is stored as +k: the correction
   * has the wrong sign. -64 is negated to +64 (0x40), which the 7-bit offset
   * field reads back as -64, so only that value keeps its sign.
   */
  lemma OffsetSignLost(h: Option<Handle>, course: bool, v: bv8, bus: Bus)
    requires Guard(h, true).None? && AcksNext(bus, 2)
    requires -63 <= Signed8(v) <= -1
    ensures DecodeOffset(SetOffsetFlow(h, course, v, bus).regs[OffsetReg]) == -Signed8(v)
    ensures DecodeOffset(SetOffsetFlow(h, course, 0xC0, bus).regs[OffsetReg]) == Signed8(0xC0) == -64
  {
    OffsetWrite(h, course, v, bus);
    OffsetWrite(h, course, 0xC0, bus);
    DecodeOffsetLowBits(SetOffsetFlow(h, course, v, bus).regs[OffsetReg]);
    DecodeOffsetLowBits(SetOffsetFlow(h, course, 0xC0, bus).regs[OffsetReg]);
  }

  /** The evidently intended flow: the offset is written as entered. */
  function SetOffsetIntended(h: Option<Handle>, course: bool, v: bv8, bus: Bus): (b: Bus)
    ensures b.nacks == bus.nacks
    ensures forall a: Addr :: a != OffsetReg ==> b.regs[a] == bus.regs[a]
  {
    assert Control.Target(ModeCommand(course)) == OffsetReg;
    var m := Control.Run(h, ModeCommand(course), bus);
    var oc := Control.SetOffset(v);
    assert Control.Target(oc) == OffsetReg;
    Control.Run(h, oc, m.bus).bus
  }

  /** With the intended flow the chip reads back the signed offset that was entered, with the chosen mode bit. */
  lemma IntendedOffsetReadsBack(h: Option<Handle>, course: bool, v: bv8, bus: Bus)
    requires Guard(h, true).None? && AcksNext(bus, 2) && OffsetAccepted(v)
    ensures DecodeOffset(SetOffsetIntended(h, course, v, bus).regs[OffsetReg]) == Signed8(v)
    ensures SetOffsetIntended(h, course, v, bus).regs[OffsetReg] & 0x80 == (if course then 0x80 else 0)
  {
    OffsetModeStep(h, course, bus);
    OffsetValueStep(h, v, Control.Run(h, ModeCommand(course), bus).bus);
    DecodeOffsetLowBits(SetOffsetIntended(h, course, v, bus).regs[OffsetReg]);
    OffsetFieldRoundTrip(v);
  }

  lemma DecodeOffsetLowBits(b: bv8)
    ensures DecodeOffset(b) == DecodeOffset(b & 0x7F)
  {
  }
}
