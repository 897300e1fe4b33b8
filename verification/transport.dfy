/**
 * The register transport the driver is written against. One call of the
 * register write or read routine is one bus transaction. A masked write is a
 * read-modify-write of one register; mask 0 writes the whole byte. Which
 * transactions fail is a parameter of the bus: a failed transaction changes no
 * register.
 */
module Transport {
  import opened Registers

  /** The chip's eighteen registers, every address present. */
  type RegFile = m: map<Addr, bv8> | forall a: Addr :: a in m
    witness map a: Addr | 0 <= a < 0x12 :: 0 as bv8

  /** Registers, the number of transactions issued so far, and the numbers of those that fail. */
  datatype Bus = Bus(regs: RegFile, issued: nat, nacks: set<nat>)

  /** No transaction among the next `k` fails. */
  predicate AcksNext(bus: Bus, k: nat) {
    forall t: nat :: bus.issued <= t < bus.issued + k ==> t !in bus.nacks
  }

  /** The next `j + k` transactions succeed exactly when the next `j` and the `k` after them do. */
  lemma AcksNextSplit(bus: Bus, j: nat, k: nat)
    ensures AcksNext(bus, j + k) <==> AcksNext(bus, j) && AcksNext(bus.(issued := bus.issued + j), k)
  {
  }

  /** An acknowledged run followed by one more acknowledged transaction is one longer. */
  lemma AcksNextExtend(bus: Bus, n: nat)
    requires AcksNext(bus, n) && bus.issued + n !in bus.nacks
    ensures AcksNext(bus, n + 1)
  {
  }

  /** A failed transaction inside the next `n` breaks the run. */
  lemma AcksNextBroken(bus: Bus, n: nat, t: nat)
    requires bus.issued <= t < bus.issued + n && t in bus.nacks
    ensures !AcksNext(bus, n)
  {
  }

  /** The byte a masked write leaves in a register that held `prior`. */
  function Merge(prior: bv8, value: bv8, mask: bv8): (r: bv8)
    ensures mask != 0 ==> r & !mask == prior & !mask && r & mask == value & mask
    ensures mask == 0 ==> r == value
  {
    if mask == 0 then value else (prior & !mask) | (value & mask)
  }

  /** The value of a field within a register byte. */
  function ReadField(b: bv8, f: Field): bv8
    requires f.shift < 8
  {
    (b & f.mask) >> f.shift
  }

  /** One masked register write, as the driver hands it to the transport. */
  datatype RegWrite = RegWrite(reg: Addr, value: bv8, mask: bv8)

  /** The write that stores code `v` in field `f`. */
  function Place(f: Field, v: bv8): (w: RegWrite)
    requires f.shift < 8
    ensures w.reg == f.reg && w.mask == f.mask
    ensures Fits(f, v) && f.mask != 0 ==> forall prior: bv8 :: ReadField(Merge(prior, w.value, w.mask), f) == v
  {
    RegWrite(f.reg, v << f.shift, f.mask)
  }

  /** A transaction's result: whether it was acknowledged, and the bus after it. */
  datatype Step = Step(ok: bool, bus: Bus)

  function Write(bus: Bus, w: RegWrite): (s: Step)
    ensures s.bus.issued == bus.issued + 1 && s.bus.nacks == bus.nacks
    ensures s.ok <==> bus.issued !in bus.nacks
    ensures s.bus.regs[w.reg] == (if s.ok then Merge(bus.regs[w.reg], w.value, w.mask) else bus.regs[w.reg])
    ensures forall a: Addr :: a != w.reg ==> s.bus.regs[a] == bus.regs[a]
  {
    var next := bus.(issued := bus.issued + 1);
    if bus.issued in bus.nacks then Step(false, next)
    else Step(true, next.(regs := bus.regs[w.reg := Merge(bus.regs[w.reg], w.value, w.mask)]))
  }

  /** A block read's result: whether it was acknowledged, the bytes, and the bus after it. */
  datatype Read = Read(ok: bool, bytes: seq<bv8>, bus: Bus)

  /** Reads `n` consecutive registers starting at `from` in one transaction. */
  function ReadBlock(bus: Bus, from: Addr, n: nat): (r: Read)
    requires from + n <= 0x12
    ensures r.bus == bus.(issued := bus.issued + 1)
    ensures r.ok <==> bus.issued !in bus.nacks
    ensures r.ok ==> |r.bytes| == n && forall i :: 0 <= i < n ==> r.bytes[i] == bus.regs[from + i]
  {
    var next := bus.(issued := bus.issued + 1);
    if bus.issued in bus.nacks then Read(false, [], next)
    else Read(true, seq(n, i requires 0 <= i < n => bus.regs[from + i]), next)
  }

  /** The registers after every write of `ws` has been applied, in order. */
  function ApplyAll(regs: RegFile, ws: seq<RegWrite>): RegFile
    decreases |ws|
  {
    if |ws| == 0 then regs
    else ApplyAll(regs[ws[0].reg := Merge(regs[ws[0].reg], ws[0].value, ws[0].mask)], ws[1..])
  }

  /** Some write of `ws` targets `a`. */
  predicate Targets(ws: seq<RegWrite>, a: Addr) {
    exists i :: 0 <= i < |ws| && ws[i].reg == a
  }

  /**
   * A register write list applied in order, one transaction per entry,
   * stopping at the first failure.
   */
  function WriteList(bus: Bus, ws: seq<RegWrite>): (s: Step)
    ensures s.bus.nacks == bus.nacks
    ensures s.ok <==> AcksNext(bus, |ws|)
    ensures s.ok ==> s.bus.issued == bus.issued + |ws| && s.bus.regs == ApplyAll(bus.regs, ws)
    ensures forall a: Addr :: !Targets(ws, a) ==> s.bus.regs[a] == bus.regs[a]
    decreases |ws|
  {
    if |ws| == 0 then Step(true, bus)
    else
      var s0 := Write(bus, ws[0]);
      if !s0.ok then s0
      else
        TargetsTail(ws);
        WriteList(s0.bus, ws[1..])
  }

  lemma TargetsTail(ws: seq<RegWrite>)
    requires |ws| > 0
    ensures forall a: Addr :: !Targets(ws, a) ==> !Targets(ws[1..], a) && a != ws[0].reg
  {
    forall a: Addr | Targets(ws[1..], a)
      ensures Targets(ws, a)
    {
      var i :| 0 <= i < |ws[1..]| && ws[1..][i].reg == a;
      assert ws[i + 1].reg == a;
    }
  }

  /** The register of each write in `ws` differs from that of every other. */
  predicate DistinctTargets(ws: seq<RegWrite>) {
    forall i, j :: 0 <= i < j < |ws| ==> ws[i].reg != ws[j].reg
  }

  /** When no two writes share a register, each register ends up merged with its own write only. */
  lemma {:induction false} ApplyAllDistinct(regs: RegFile, ws: seq<RegWrite>)
    requires DistinctTargets(ws)
    ensures forall i :: 0 <= i < |ws| ==>
      ApplyAll(regs, ws)[ws[i].reg] == Merge(regs[ws[i].reg], ws[i].value, ws[i].mask)
    ensures forall a: Addr :: !Targets(ws, a) ==> ApplyAll(regs, ws)[a] == regs[a]
    decreases |ws|
  {
    if |ws| > 0 {
      var w := ws[0];
      var regs1 := regs[w.reg := Merge(regs[w.reg], w.value, w.mask)];
      assert DistinctTargets(ws[1..]);
      ApplyAllDistinct(regs1, ws[1..]);
      TargetsTail(ws);
      forall i | 0 <= i < |ws|
        ensures ApplyAll(regs, ws)[ws[i].reg] == Merge(regs[ws[i].reg], ws[i].value, ws[i].mask)
      {
        if i > 0 {
          assert ws[1..][i - 1] == ws[i];
        }
      }
    }
  }

  /**
   * Splitting a write list in two: the second part runs only when the first
   * succeeded, and the result is that of the whole list.
   */
  lemma {:induction false} WriteListSplit(bus: Bus, ws: seq<RegWrite>, k: nat)
    requires k <= |ws|
    ensures var s1 := WriteList(bus, ws[..k]);
      WriteList(bus, ws) == if s1.ok then WriteList(s1.bus, ws[k..]) else s1
    decreases k
  {
    if k > 0 {
      var s0 := Write(bus, ws[0]);
      assert ws[..k][0] == ws[0];
      if s0.ok {
        assert ws[..k][1..] == ws[1..][..k - 1];
        assert ws[k..] == ws[1..][k - 1..];
        WriteListSplit(s0.bus, ws[1..], k - 1);
      }
    } else {
      assert ws[..0] == [] && ws[0..] == ws;
    }
  }

  /** A block of registers named in a read list. */
  datatype ReadSpan = ReadSpan(from: Addr, count: nat)

  /** The bytes of span `r`. */
  function SpanBytes(regs: RegFile, r: ReadSpan): seq<bv8>
    requires r.from + r.count <= 0x12
  {
    seq(r.count, i requires 0 <= i < r.count => regs[r.from + i])
  }

  predicate InMap(list: seq<ReadSpan>) {
    forall i :: 0 <= i < |list| ==> list[i].from + list[i].count <= 0x12
  }

  /** The bytes of a read list, span after span. */
  function Gather(regs: RegFile, list: seq<ReadSpan>): seq<bv8>
    requires InMap(list)
    decreases |list|
  {
    if |list| == 0 then [] else SpanBytes(regs, list[0]) + Gather(regs, list[1..])
  }

  /** A read list read span by span, one transaction each, stopping at the first failure. */
  function ReadList(bus: Bus, list: seq<ReadSpan>): (r: Read)
    requires InMap(list)
    ensures r.bus.regs == bus.regs && r.bus.nacks == bus.nacks
    ensures r.ok <==> AcksNext(bus, |list|)
    ensures r.ok ==> r.bus.issued == bus.issued + |list| && r.bytes == Gather(bus.regs, list)
    decreases |list|
  {
    if |list| == 0 then Read(true, [], bus)
    else
      var r0 := ReadBlock(bus, list[0].from, list[0].count);
      if !r0.ok then r0
      else
        var rest := ReadList(r0.bus, list[1..]);
        assert r0.bytes == SpanBytes(bus.regs, list[0]);
        Read(rest.ok, if rest.ok then r0.bytes + rest.bytes else [], rest.bus)
  }

  /** Writing the same masked value twice leaves the same byte as writing it once. */
  lemma MergeIdempotent(prior: bv8, value: bv8, mask: bv8)
    ensures Merge(Merge(prior, value, mask), value, mask) == Merge(prior, value, mask)
  {
  }

  /** A second masked write to the same bits overrides the first. */
  lemma MergeOverrides(prior: bv8, v1: bv8, v2: bv8, mask: bv8)
    ensures Merge(Merge(prior, v1, mask), v2, mask) == Merge(prior, v2, mask)
  {
  }

  /** Writes to disjoint bits of one register commute. */
  lemma MergeDisjointCommute(prior: bv8, v1: bv8, m1: bv8, v2: bv8, m2: bv8)
    requires m1 != 0 && m2 != 0 && m1 & m2 == 0
    ensures Merge(Merge(prior, v1, m1), v2, m2) == Merge(Merge(prior, v2, m2), v1, m1)
  {
  }

  /** Writing back a field's current bits changes nothing. */
  lemma MergeSameBits(prior: bv8, value: bv8, mask: bv8)
    requires mask != 0 && value & mask == prior & mask
    ensures Merge(prior, value, mask) == prior
  {
  }
}
