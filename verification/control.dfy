/**
 * The driver entry points that write one register once: start/stop, reset,
 * 12/24-hour mode, oscillator and test bits, interrupt enables and flags,
 * timer and offset settings; the one-register reads that report a field;
 * the register write list routines; the timer clock selector; and the
 * alarm interrupt enable with its alarm-kind switch.
 */
module Control {
  import opened Wrappers
  import opened Registers
  import opened DriverTypes
  import opened Transport
  import opened Device

  /**
   * The single-write driver entry points. The countdown value and the offset
   * are the bit patterns of the C `int32_t` and `int8_t` arguments.
   */
  datatype Command =
    | RtcStart | RtcStop | SwRst | ModeSet(mode: Mode)
    | CapSel7 | CapSel12 | NormalMode | ExtTestMode
    | ClearMinHalfMinCTInt | MinIntEnable | MinIntDisable | HalfMinIntEnable | HalfMinIntDisable
    | ClearAlarmInt | AlarmIntDisable
    | TimerIntEnable | TimerIntDisable | TiTpEnable | TiTpDisable
    | TestFreeRamByte | NormalOffsetMode | CourseOffsetMode
    | CiEnable | CiDisable | TimerEnable | TimerDisable
    | CountdownTimerValue(ct: bv32) | SetOffset(offset: bv8)

  /** What a command stores: a code in one field, or a whole byte. */
  datatype Effect = FieldWrite(field: Field, code: bv8) | ByteWrite(reg: Addr, value: bv8)

  function EffectOf(c: Command): (e: Effect)
    ensures e.FieldWrite? ==> e.field.shift < 8 && e.field.mask != 0
  {
    match c
    case RtcStart => FieldWrite(Stop, rtcStart)
    case RtcStop => FieldWrite(Stop, rtcStop)
    case SwRst => ByteWrite(Ctrl1, 0x58)
    case ModeSet(m) => FieldWrite(Mode1224, m.Code())
    case CapSel7 => FieldWrite(CapSel, capSel7pf)
    case CapSel12 => FieldWrite(CapSel, capSel12pf)
    case NormalMode => FieldWrite(ExtTest, normalMode)
    case ExtTestMode => FieldWrite(ExtTest, extTestMode)
    case ClearMinHalfMinCTInt => FieldWrite(Tf, intClear)
    case MinIntEnable => FieldWrite(Mi, intEnable)
    case MinIntDisable => FieldWrite(Mi, intDisable)
    case HalfMinIntEnable => FieldWrite(Hmi, intEnable)
    case HalfMinIntDisable => FieldWrite(Hmi, intDisable)
    case ClearAlarmInt => FieldWrite(Af, intClear)
    case AlarmIntDisable => FieldWrite(Aie, intDisable)
    case TimerIntEnable => FieldWrite(Tie, intEnable)
    case TimerIntDisable => FieldWrite(Tie, intDisable)
    case TiTpEnable => FieldWrite(TiTp, pulse)
    case TiTpDisable => FieldWrite(TiTp, timerFlag)
    case TestFreeRamByte => ByteWrite(RamByte, 0x3C)
    case NormalOffsetMode => FieldWrite(OffsetMode, normalOffsetMode)
    case CourseOffsetMode => FieldWrite(OffsetMode, courseOffsetMode)
    case CiEnable => FieldWrite(Cie, intEnable)
    case CiDisable => FieldWrite(Cie, intDisable)
    case TimerEnable => FieldWrite(Te, intEnable)
    case TimerDisable => FieldWrite(Te, intDisable)
    case CountdownTimerValue(ct) => FieldWrite(TimerValue, (ct & 0xFF) as bv8)
    case SetOffset(offset) => FieldWrite(Offset, offset)
  }

  /** The transport write an effect becomes; a whole byte is written with mask 0. */
  function Encoding(e: Effect): (w: RegWrite)
    requires e.FieldWrite? ==> e.field.shift < 8 && e.field.mask != 0
    ensures e.FieldWrite? ==> w.reg == e.field.reg && w.mask == e.field.mask && w.mask != 0
    ensures e.ByteWrite? ==> w == RegWrite(e.reg, e.value, 0)
  {
    match e
    case FieldWrite(f, v) => Place(f, v)
    case ByteWrite(a, v) => RegWrite(a, v, 0)
  }

  /** The entry points whose success path reaches the end of the function without a return statement. */
  predicate MissingReturn(c: Command) {
    c == MinIntEnable || c == HalfMinIntEnable || c == TimerIntEnable || c == TiTpEnable
  }

  /** The register a command writes. */
  function Target(c: Command): Addr {
    Encoding(EffectOf(c)).reg
  }

  /** A single-write entry point: entry check, one transaction, status. */
  function Run(h: Option<Handle>, c: Command, bus: Bus): (o: Outcome)
    ensures Guard(h, true).Some? ==> o == Outcome(Guard(h, true).value, bus)
    ensures Guard(h, true).None? ==>
      && o.bus.issued == bus.issued + 1 && o.bus.nacks == bus.nacks
      && (o.status == WriteError <==> bus.issued in bus.nacks)
      && (bus.issued !in bus.nacks ==> o.status == (if MissingReturn(c) then NoReturn else Ok))
    ensures Guard(h, true).None? && bus.issued in bus.nacks ==> o.bus.regs == bus.regs
    ensures Guard(h, true).None? && bus.issued !in bus.nacks ==>
      o.bus.regs == bus.regs[Target(c) := Merge(bus.regs[Target(c)], Encoding(EffectOf(c)).value, Encoding(EffectOf(c)).mask)]
    ensures forall a: Addr :: a != Target(c) ==> o.bus.regs[a] == bus.regs[a]
  {
    match Guard(h, true)
    case Some(err) => Outcome(err, bus)
    case None =>
      var s := Write(bus, Encoding(EffectOf(c)));
      if !s.ok then Outcome(WriteError, s.bus)
      else Outcome(if MissingReturn(c) then NoReturn else Ok, s.bus)
  }

  /** A successful single write leaves every register outside its target untouched. */
  predicate OnlyTarget(before: RegFile, after: RegFile, w: RegWrite) {
    forall a: Addr :: a != w.reg ==> after[a] == before[a]
  }

  /**
   * A command that stores a code in a field leaves that code in the field,
   * keeps the other bits of the register and changes no other register.
   */
  lemma FieldCommandEffect(h: Option<Handle>, c: Command, bus: Bus)
    requires Guard(h, true).None? && bus.issued !in bus.nacks
    requires EffectOf(c).FieldWrite? && Fits(EffectOf(c).field, EffectOf(c).code)
    ensures var f := EffectOf(c).field; var r := Run(h, c, bus).bus.regs;
      && ReadField(r[f.reg], f) == EffectOf(c).code
      && r[f.reg] & !f.mask == bus.regs[f.reg] & !f.mask
      && forall a: Addr :: a != f.reg ==> r[a] == bus.regs[a]
  {
  }

  /** Every command's code fits its field, except the offset. */
  lemma CodesFit(c: Command)
    requires EffectOf(c).FieldWrite? && !c.SetOffset?
    ensures Fits(EffectOf(c).field, EffectOf(c).code)
  {
    FieldCodesFit();
    match c
    case ModeSet(m) =>
      assert m.Code() <= 1;
      assert OneBitFields[3] == Mode1224;
    case CountdownTimerValue(ct) =>
    case _ =>
  }

  /** A negative offset reaches the transport with its sign bit, which lies outside the 7-bit offset field. */
  lemma OffsetCodeFits(v: bv8)
    ensures Fits(Offset, v) <==> 0 <= Signed8(v)
  {
  }

  /** Commands that set and clear the same one-bit field. */
  predicate Toggles(on: Command, off: Command) {
    || (on, off) == (RtcStop, RtcStart)
    || (on, off) == (ModeSet(Mode12H), ModeSet(Mode24H))
    || (on, off) == (CapSel12, CapSel7)
    || (on, off) == (ExtTestMode, NormalMode)
    || (on, off) == (MinIntEnable, MinIntDisable)
    || (on, off) == (HalfMinIntEnable, HalfMinIntDisable)
    || (on, off) == (TimerIntEnable, TimerIntDisable)
    || (on, off) == (TiTpEnable, TiTpDisable)
    || (on, off) == (CourseOffsetMode, NormalOffsetMode)
    || (on, off) == (CiEnable, CiDisable)
    || (on, off) == (TimerEnable, TimerDisable)
  }

  /** Each pair writes 1 and 0 to the same one-bit field. */
  lemma TogglesShareField(on: Command, off: Command)
    requires Toggles(on, off)
    ensures EffectOf(on).FieldWrite? && EffectOf(off).FieldWrite?
    ensures EffectOf(on).field == EffectOf(off).field
    ensures EffectOf(on).code == 1 && EffectOf(off).code == 0
    ensures EffectOf(on).field.mask == 1 << EffectOf(on).field.shift
  {
  }

  /**
   * Setting a one-bit field that was clear and then clearing it again
   * restores every register.
   */
  lemma ToggleRestores(h: Option<Handle>, on: Command, off: Command, bus: Bus)
    requires Guard(h, true).None? && AcksNext(bus, 2)
    requires Toggles(on, off)
    requires bus.regs[EffectOf(on).field.reg] & EffectOf(on).field.mask == 0
    ensures Run(h, off, Run(h, on, bus).bus).bus.regs == bus.regs
  {
    TogglesShareField(on, off);
    SetClearRestores(h, on, off, bus);
  }

  lemma SetClearRestores(h: Option<Handle>, on: Command, off: Command, bus: Bus)
    requires Guard(h, true).None? && AcksNext(bus, 2)
    requires EffectOf(on).FieldWrite? && EffectOf(off).FieldWrite?
    requires EffectOf(on).field == EffectOf(off).field
    requires EffectOf(on).code == 1 && EffectOf(off).code == 0
    requires EffectOf(on).field.mask == 1 << EffectOf(on).field.shift
    requires bus.regs[EffectOf(on).field.reg] & EffectOf(on).field.mask == 0
    ensures Run(h, off, Run(h, on, bus).bus).bus.regs == bus.regs
  {
    var f := EffectOf(on).field;
    RunField(h, on, bus);
    RunField(h, off, Run(h, on, bus).bus);
    WriteThenClear(bus, f);
  }

  /** A field command under a passing entry check is one write of its code into its field. */
  lemma RunField(h: Option<Handle>, c: Command, bus: Bus)
    requires Guard(h, true).None? && EffectOf(c).FieldWrite?
    ensures Run(h, c, bus).bus == Write(bus, Place(EffectOf(c).field, EffectOf(c).code)).bus
  {
  }

  /** Two acknowledged writes that set and then clear a clear one-bit field leave every register as it was. */
  lemma WriteThenClear(bus: Bus, f: Field)
    requires AcksNext(bus, 2)
    requires f.shift < 8 && f.mask == 1 << f.shift
    requires bus.regs[f.reg] & f.mask == 0
    ensures Write(Write(bus, Place(f, 1)).bus, Place(f, 0)).bus.regs == bus.regs
  {
    var b1 := Write(bus, Place(f, 1)).bus;
    var b2 := Write(b1, Place(f, 0)).bus;
    assert b2.regs[f.reg] == Merge(Merge(bus.regs[f.reg], 1 << f.shift, f.mask), 0 << f.shift, f.mask);
    SetThenClear(bus.regs[f.reg], f.shift, f.mask);
    assert forall a: Addr :: b2.regs[a] == bus.regs[a];
  }

  /** Setting a clear one-bit field and clearing it again restores the byte. */
  lemma SetThenClear(p: bv8, shift: nat, mask: bv8)
    requires shift < 8 && mask == 1 << shift && p & mask == 0
    ensures Merge(Merge(p, 1 << shift, mask), 0 << shift, mask) == p
  {
  }

  /** The stop command sets exactly the STOP bit; start clears it. */
  lemma StartStopBit(h: Option<Handle>, bus: Bus)
    requires Guard(h, true).None? && bus.issued !in bus.nacks
    ensures Run(h, RtcStop, bus).bus.regs[Ctrl1] == bus.regs[Ctrl1] | 0x20
    ensures Run(h, RtcStart, bus).bus.regs[Ctrl1] == bus.regs[Ctrl1] & 0xDF
  {
  }

  /** The software reset writes the reset pattern over the whole of Control_1. */
  lemma SoftwareResetPattern(h: Option<Handle>, bus: Bus)
    requires Guard(h, true).None? && bus.issued !in bus.nacks
    ensures Run(h, SwRst, bus).bus.regs[Ctrl1] == 0x58
    ensures 0x58 & (SoftReset.mask | Mode1224.mask) == SoftReset.mask
  {
  }

  /** A one-register read's status, field value and bus. */
  datatype Probe = Probe(status: Status, value: Option<bv8>, bus: Bus)

  /** Reads one register in one transaction and reports the value of field `f`. */
  function ReadFieldOf(h: Option<Handle>, outPresent: bool, f: Field, bus: Bus): (p: Probe)
    requires f.shift < 8
    ensures Guard(h, outPresent).Some? ==> p == Probe(Guard(h, outPresent).value, None, bus)
    ensures Guard(h, outPresent).None? ==>
      && p.bus == bus.(issued := bus.issued + 1)
      && (p.status == Ok <==> bus.issued !in bus.nacks)
      && (p.status != Ok ==> p.status == ReadError && p.value.None?)
      && (p.status == Ok ==> p.value == Some(ReadField(bus.regs[f.reg], f)))
  {
    match Guard(h, outPresent)
    case Some(err) => Probe(err, None, bus)
    case None =>
      var r := ReadBlock(bus, f.reg, 1);
      if !r.ok then Probe(ReadError, None, r.bus)
      else Probe(Ok, Some(ReadField(r.bytes[0], f)), r.bus)
  }

  /** The timer flag (minute, half-minute or countdown interrupt). */
  function CheckMinHalfMinCTInt(h: Option<Handle>, outPresent: bool, bus: Bus): (p: Probe)
    ensures p.value.Some? ==> p.value.value == (bus.regs[Ctrl2] & 0x08) >> 3 && p.value.value <= 1
  {
    ReadFieldOf(h, outPresent, Tf, bus)
  }

  /** The alarm flag. */
  function CheckAlarmInt(h: Option<Handle>, outPresent: bool, bus: Bus): (p: Probe)
    ensures p.value.Some? ==> p.value.value == (bus.regs[Ctrl2] & 0x40) >> 6 && p.value.value <= 1
  {
    ReadFieldOf(h, outPresent, Af, bus)
  }

  /** The timer interrupt mode bit (flag or pulse). */
  function CheckTiTp(h: Option<Handle>, outPresent: bool, bus: Bus): (p: Probe)
    ensures p.value.Some? ==> p.value.value == bus.regs[TimerModeReg] & 0x01
  {
    ReadFieldOf(h, outPresent, TiTp, bus)
  }

  /** The mode read: status, the mode when the read succeeded, and the bus. */
  datatype ModeRead = ModeRead(status: Status, mode: Option<Mode>, bus: Bus)

  function ModeGet(h: Option<Handle>, outPresent: bool, bus: Bus): (r: ModeRead)
    ensures r.status == Ok <==> Guard(h, outPresent).None? && bus.issued !in bus.nacks
    ensures r.mode.Some? <==> r.status == Ok
    ensures r.status == Ok ==> (r.mode.value == Mode12H <==> bus.regs[Ctrl1] & 0x02 != 0)
    ensures r.status == Ok ==> r.bus == bus.(issued := bus.issued + 1)
    ensures r.status != Ok ==> r.bus.regs == bus.regs && r.bus.nacks == bus.nacks
  {
    var p := ReadFieldOf(h, outPresent, Mode1224, bus);
    ModeRead(p.status, if p.value.Some? then Some(ModeOfBit(p.value.value)) else None, p.bus)
  }

  /** Setting a mode and reading it back returns that mode. */
  lemma ModeSetThenGet(h: Option<Handle>, m: Mode, bus: Bus)
    requires Guard(h, true).None? && AcksNext(bus, 2)
    ensures var b := Run(h, ModeSet(m), bus).bus; ModeGet(h, true, b).mode == Some(m)
    ensures var b := Run(h, ModeSet(m), bus).bus;
      forall a: Addr :: a != Ctrl1 ==> b.regs[a] == bus.regs[a]
  {
    CodesFit(ModeSet(m));
    FieldCommandEffect(h, ModeSet(m), bus);
  }

  /** The timer clock selector: 1 to 4 choose a source clock, anything else writes nothing. */
  function SetTimerClockFreq(h: Option<Handle>, tcf: Int32, bus: Bus): (o: Outcome)
    ensures Guard(h, true).Some? ==> o == Outcome(Guard(h, true).value, bus)
    ensures Guard(h, true).None? && !(1 <= tcf <= 4) ==> o == Outcome(NoReturn, bus)
    ensures Guard(h, true).None? && 1 <= tcf <= 4 ==>
      && o.bus.issued == bus.issued + 1
      && (o.status == Ok <==> bus.issued !in bus.nacks)
      && (o.status != Ok ==> o.status == WriteError && o.bus.regs == bus.regs)
      && (o.status == Ok ==>
           && ReadField(o.bus.regs[TimerModeReg], Tcf) as int == tcf - 1
           && o.bus.regs[TimerModeReg] & !Tcf.mask == bus.regs[TimerModeReg] & !Tcf.mask
           && forall a: Addr :: a != TimerModeReg ==> o.bus.regs[a] == bus.regs[a])
  {
    match Guard(h, true)
    case Some(err) => Outcome(err, bus)
    case None =>
      if 1 <= tcf <= 4 then
        var clock := ClockOf(tcf);
        assert Fits(Tcf, clock.Code());
        var s := Write(bus, Place(Tcf, clock.Code()));
        Outcome(WriteStatus(s), s.bus)
      else Outcome(NoReturn, bus)
  }

  /** The source clock a selector value 1 to 4 names. */
  function ClockOf(tcf: int): (t: TimerClock)
    requires 1 <= tcf <= 4
    ensures t.Code() as int == tcf - 1
  {
    if tcf == 1 then Timer1 else if tcf == 2 then Timer2 else if tcf == 3 then Timer3 else Timer4
  }

  /** The register write list routines: entry check, then the list in order. */
  function WriteData(h: Option<Handle>, list: Option<seq<RegWrite>>, bus: Bus): (o: Outcome)
    ensures Guard(h, list.Some?).Some? ==> o == Outcome(Guard(h, list.Some?).value, bus)
    ensures Guard(h, list.Some?).None? ==>
      && (o.status == Ok <==> AcksNext(bus, |list.value|))
      && (o.status != Ok ==> o.status == WriteError)
      && (o.status == Ok ==> o.bus.regs == ApplyAll(bus.regs, list.value))
      && forall a: Addr :: !Targets(list.value, a) ==> o.bus.regs[a] == bus.regs[a]
  {
    match Guard(h, list.Some?)
    case Some(err) => Outcome(err, bus)
    case None =>
      var s := WriteList(bus, list.value);
      Outcome(WriteStatus(s), s.bus)
  }

  /** Configuration applies a write list exactly as the write routine does. */
  function Configure(h: Option<Handle>, list: Option<seq<RegWrite>>, bus: Bus): (o: Outcome)
    ensures o == WriteData(h, list, bus)
  {
    match Guard(h, list.Some?)
    case Some(err) => Outcome(err, bus)
    case None =>
      var s := WriteList(bus, list.value);
      Outcome(if s.ok then Ok else WriteError, s.bus)
  }

  /** The demo's configuration list, meant to select 12-hour mode. */
  const DefaultConfig := [RegWrite(Ctrl1, TwelveHourModeDefault, Mode1224.mask)]

  /** The list that stores the 12-hour code in the mode field. */
  const IntendedConfig := [Place(Mode1224, Mode12H.Code())]

  /** As written, the default configuration clears the mode bit: the chip runs in 24-hour mode. */
  lemma DefaultConfigSelects24h(h: Option<Handle>, bus: Bus)
    requires Guard(h, true).None? && bus.issued !in bus.nacks
    ensures var o := Configure(h, Some(DefaultConfig), bus);
      o.status == Ok && ModeOfBit(ReadField(o.bus.regs[Ctrl1], Mode1224)) == Mode24H
  {
    var o := Configure(h, Some(DefaultConfig), bus);
    assert AcksNext(bus, 1);
    assert o.bus.regs[Ctrl1] == Merge(bus.regs[Ctrl1], 0x04, 0x02);
  }

  /** The corrected list selects 12-hour mode and touches no other bit. */
  lemma IntendedConfigSelects12h(h: Option<Handle>, bus: Bus)
    requires Guard(h, true).None? && bus.issued !in bus.nacks
    ensures var o := Configure(h, Some(IntendedConfig), bus);
      && o.status == Ok
      && ModeOfBit(ReadField(o.bus.regs[Ctrl1], Mode1224)) == Mode12H
      && o.bus.regs[Ctrl1] & !Mode1224.mask == bus.regs[Ctrl1] & !Mode1224.mask
  {
    var o := Configure(h, Some(IntendedConfig), bus);
    assert AcksNext(bus, 1);
    assert o.bus.regs[Ctrl1] == Merge(bus.regs[Ctrl1], 0x02, 0x02);
  }

  /**
   * The switch of the alarm interrupt enable falls through: kind `k` reaches
   * the enable writes of kind `k` and of every later kind.
   */
  predicate Reached(k: int, i: int) {
    1 <= k <= 5 && k - 1 <= i < 5
  }

  /** Enabling alarm field `i` writes 0 to its AEN bit and keeps the value bits. */
  lemma EnableWrite(i: int)
    requires 0 <= i < 5
    ensures Place(AlarmEnables[i], 0) == RegWrite(AlarmEnables[i].reg, 0, 0x80)
    ensures AlarmEnables[i].reg == SecondAlarmReg + i
    ensures forall x: bv8 :: Merge(x, 0, 0x80) == x & 0x7F
  {
  }

  /**
   * Alarm interrupt enable as written: sets AIE, then clears the AEN bit
   * (which enables the alarm) of the chosen kind and, through the missing
   * `break`s, of every later kind. A kind outside 1 to 5 matches no case. No
   * path after the AIE write returns a status on success.
   */
  method AlarmIntEnable(h: Option<Handle>, alarmType: int, bus: Bus) returns (o: Outcome)
    ensures Guard(h, true).Some? ==> o == Outcome(Guard(h, true).value, bus)
    ensures Guard(h, true).None? ==> o.status == WriteError || o.status == NoReturn
    ensures Guard(h, true).None? ==> o.bus.nacks == bus.nacks
    ensures Guard(h, true).None? ==> (o.status == NoReturn <==> AcksNext(bus, 1 + FallCount(alarmType)))
    ensures o.status == NoReturn ==> o.bus.issued == bus.issued + 1 + FallCount(alarmType)
    ensures Guard(h, true).None? && bus.issued in bus.nacks ==> o.status == WriteError && o.bus.regs == bus.regs
    ensures o.status == NoReturn ==>
      && o.bus.regs[Ctrl2] == bus.regs[Ctrl2] | 0x80
      && forall i :: 0 <= i < 5 ==>
           o.bus.regs[AlarmEnables[i].reg] == (if Reached(alarmType, i) then bus.regs[AlarmEnables[i].reg] & 0x7F else bus.regs[AlarmEnables[i].reg])
    ensures forall a: Addr :: a != Ctrl2 && !(SecondAlarmReg <= a <= WeekdayAlarmReg) ==> o.bus.regs[a] == bus.regs[a]
    ensures forall i :: 0 <= i < 5 ==> o.bus.regs[AlarmEnables[i].reg] & 0x7F == bus.regs[AlarmEnables[i].reg] & 0x7F
  {
    match Guard(h, true)
    case Some(err) =>
      return Outcome(err, bus);
    case None =>
    var s := Write(bus, Place(Aie, intEnable));
    if !s.ok {
      AcksNextBroken(bus, 1 + FallCount(alarmType), bus.issued);
      return Outcome(WriteError, s.bus);
    }
    AlarmFieldsLayout();
    var first := 5 - FallCount(alarmType);
    var ok, b := EnableFrom(first, s.bus);
    AcksNextSplit(bus, 1, FallCount(alarmType));
    if !ok {
      return Outcome(WriteError, b);
    }
    return Outcome(NoReturn, b);
  }

  /**
   * The enable writes the fallthrough reaches from alarm field `first` on, in
   * register order, stopping at the first failed write.
   */
  method EnableFrom(first: nat, bus: Bus) returns (ok: bool, b: Bus)
    requires first <= 5
    ensures b.nacks == bus.nacks
    ensures ok <==> AcksNext(bus, 5 - first)
    ensures ok ==> b.issued == bus.issued + (5 - first)
    ensures forall a: Addr :: !(SecondAlarmReg <= a <= WeekdayAlarmReg) ==> b.regs[a] == bus.regs[a]
    ensures forall j :: 0 <= j < 5 ==> b.regs[AlarmEnables[j].reg] & 0x7F == bus.regs[AlarmEnables[j].reg] & 0x7F
    ensures ok ==> forall j :: 0 <= j < 5 ==>
      b.regs[AlarmEnables[j].reg] == (if first <= j then bus.regs[AlarmEnables[j].reg] & 0x7F else bus.regs[AlarmEnables[j].reg])
  {
    AlarmFieldsLayout();
    b := bus;
    var i := first;
    while i < 5
      invariant first <= i <= 5
      invariant b.nacks == bus.nacks
      invariant b.issued == bus.issued + (i - first)
      invariant AcksNext(bus, i - first)
      invariant forall a: Addr :: !(SecondAlarmReg <= a <= WeekdayAlarmReg) ==> b.regs[a] == bus.regs[a]
      invariant forall j :: 0 <= j < 5 ==>
        b.regs[AlarmEnables[j].reg] == (if first <= j < i then bus.regs[AlarmEnables[j].reg] & 0x7F else bus.regs[AlarmEnables[j].reg])
    {
      EnableWrite(i);
      var w := Write(b, Place(AlarmEnables[i], 0));
      if !w.ok {
        AcksNextBroken(bus, 5 - first, b.issued);
        return false, w.bus;
      }
      AcksNextExtend(bus, i - first);
      b := w.bus;
      i := i + 1;
    }
    return true, b;
  }

  /** The number of alarm enable writes kind `k` reaches through the fallthrough. */
  function FallCount(k: int): (n: nat)
    ensures n <= 5 && forall i :: 0 <= i < 5 ==> (Reached(k, i) <==> 5 - n <= i)
  {
    if 1 <= k <= 5 then 6 - k else 0
  }

  /**
   * The as-written enable with the seconds alarm chosen and all six writes
   * acknowledged: every alarm field ends up enabled, not only the seconds.
   */
  method SecondsAlarmEnablesAll(h: Option<Handle>, bus: Bus) returns (o: Outcome)
    requires Guard(h, true).None? && AcksNext(bus, 6)
    ensures o.status == NoReturn
    ensures o.bus.regs[Ctrl2] & Aie.mask == Aie.mask
    ensures forall a: Addr :: SecondAlarmReg <= a <= WeekdayAlarmReg ==> o.bus.regs[a] & 0x80 == 0
  {
    o := AlarmIntEnable(h, ASeconds.Code(), bus);
    AlarmFieldsLayout();
    forall a: Addr | SecondAlarmReg <= a <= WeekdayAlarmReg
      ensures o.bus.regs[a] & 0x80 == 0
    {
      var i := a as int - SecondAlarmReg as int;
      assert AlarmEnables[i].reg == a;
      assert Reached(ASeconds.Code(), i);
    }
  }

  /**
   * The evidently intended enable: sets AIE, enables only the chosen alarm
   * kind, and reports success.
   */
  function AlarmIntEnableOnly(h: Option<Handle>, kind: AlarmType, bus: Bus): (o: Outcome)
    ensures Guard(h, true).Some? ==> o == Outcome(Guard(h, true).value, bus)
    ensures Guard(h, true).None? ==> (o.status == Ok <==> AcksNext(bus, 2))
    ensures Guard(h, true).None? ==> o.status == Ok || o.status == WriteError
    ensures o.status == Ok ==>
      && o.bus.regs[Ctrl2] == bus.regs[Ctrl2] | 0x80
      && forall i :: 0 <= i < 5 ==>
           o.bus.regs[AlarmEnables[i].reg] == (if i == kind.Code() - 1 then bus.regs[AlarmEnables[i].reg] & 0x7F else bus.regs[AlarmEnables[i].reg])
    ensures forall a: Addr :: a != Ctrl2 && !(SecondAlarmReg <= a <= WeekdayAlarmReg) ==> o.bus.regs[a] == bus.regs[a]
  {
    match Guard(h, true)
    case Some(err) => Outcome(err, bus)
    case None =>
      var s := Write(bus, Place(Aie, intEnable));
      if !s.ok then Outcome(WriteError, s.bus)
      else
        var k := kind.Code() - 1;
        EnableWrite(k);
        AlarmFieldsLayout();
        var w := Write(s.bus, Place(AlarmEnables[k], 0));
        Outcome(WriteStatus(w), w.bus)
  }
}
