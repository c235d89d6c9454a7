/** What single registers do, by their offsets and bit weights: control, interrupts, ring bases, identity, storage. */
module Registers {
  import opened Words
  import opened GuestRam
  import opened Nic
  import V = GuestView

  lemma ToCommand(s: State, v: u32, size: nat)
    requires InWindow(0x37, size)
    ensures MmioWrite(s, 0x37, v, size) == WriteChipCmd(s, v)
  {
    hide WriteChipCmd;
  }

  lemma ToPoll(s: State, v: u32, size: nat)
    requires InWindow(0x38, size)
    ensures MmioWrite(s, 0x38, v, size) == WriteTxPoll(s, v)
  {
    hide WriteTxPoll;
  }

  lemma ToMask(s: State, v: u32, size: nat)
    requires InWindow(0x3c, size)
    ensures MmioWrite(s, 0x3c, v, size) == WriteIntrMask(s, v)
  {
    hide WriteIntrMask;
  }

  lemma ToStatus(s: State, v: u32, size: nat)
    requires InWindow(0x3e, size)
    ensures MmioWrite(s, 0x3e, v, size) == WriteIntrStatus(s, v)
  {
    hide WriteIntrStatus;
  }

  lemma ToUnlock(s: State, v: u32, size: nat)
    requires InWindow(0x50, size)
    ensures MmioWrite(s, 0x50, v, size) == WriteCfg(s, v)
  {
    hide WriteCfg;
  }

  /** Reset (bit 4) stops the device and forgets causes, mask and ring positions; else bits 2 and 3 enable the rings. */
  lemma CommandRegister(s: State, v: u32, size: nat)
    requires InWindow(0x37, size)
    ensures var t := MmioWrite(s, 0x37, v, size);
            if (v / 0x10) % 2 == 1 then
              && t.chipCmd == 0 && t.txCur == 0 && t.rxCur == 0 && t.intr.status == 0 && t.intr.mask == 0
                  && !t.intr.line
              && t == s.(chipCmd := 0, txCur := 0, rxCur := 0, intr := t.intr)
            else
              && (V.TxEnabled(t) <==> (v / 4) % 2 == 1 && s.gate.fwLoaded && s.txBase != 0)
              && (V.RxEnabled(t) <==> (v / 8) % 2 == 1 && s.gate.fwLoaded && s.rxBase != 0)
              && MmioRead(t, 0x37, 1) == (v / 4) % 4 * 4
              && t == s.(chipCmd := t.chipCmd)
  {
    hide MmioWrite, MmioRead, WriteChipCmd;
    ToCommand(s, v, size);
    CommandWrite(s, v);
    EnableBits(v);
  }

  /** Two neighbouring bits as one number. */
  lemma TwoBits(q: nat)
    ensures q % 4 == q % 2 + (q / 2) % 2 * 2
  {
  }

  lemma QuarterHalved(v: u32)
    ensures v / 8 == v / 4 / 2 && v / 0x80 == v / 0x40 / 2
  {
  }

  /** What the two enable bits leave in the command register, and how they read there. */
  lemma EnableBits(v: u32)
    ensures var c := (v / 4) % 4 * 4;
            && c == (if Bit(v, 4) then 4 else 0) + (if Bit(v, 8) then 8 else 0)
            && (c / 4) % 2 == (v / 4) % 2 && (c / 8) % 2 == (v / 8) % 2
  {
    QuarterHalved(v);
    TwoBits(v / 4);
  }

  lemma CommandWrite(s: State, v: u32)
    ensures var t := WriteChipCmd(s, v);
            if Bit(v, 0x10) then
              && t.intr.status == 0 && t.intr.mask == 0 && !t.intr.line
              && t == s.(chipCmd := 0, txCur := 0, rxCur := 0, intr := t.intr)
            else
              && t == s.(chipCmd := (v / 4) % 4 * 4) && MmioRead(t, 0x37, 1) == t.chipCmd
  {
    hide Overlap, Bit;
    EnableBits(v);
    NoOverlap();
  }

  lemma NoOverlap()
    ensures !Overlap(0, 0)
  {
  }

  /** A poll write sends when bit 6 or bit 7 is set, and does nothing else. */
  lemma PollRegister(s: State, v: u32, size: nat)
    requires InWindow(0x38, size)
    ensures MmioWrite(s, 0x38, v, size) == if (v / 0x40) % 2 == 1 || (v / 0x80) % 2 == 1 then Transmit(s) else s
  {
    hide Transmit, MmioWrite;
    ToPoll(s, v, size);
  }

  // The three operations on causes, one lemma each.

  lemma AndNot(a: bv16, b: bv16)
    ensures WithoutBits(a, b) == a & !b
  {
  }

  lemma Or(a: bv16, b: bv16)
    ensures WithBits(a, b) == a | b
  {
  }

  lemma And(a: bv16, b: bv16)
    ensures Overlap(a, b) <==> a & b != 0
  {
  }

  lemma LowHalf(v: u32)
    ensures Low16bv(v) == (v % 0x1_0000) as bv16
  {
  }

  /** Writing a status bit acknowledges that cause and no other; the line follows. */
  lemma StatusRegister(s: State, v: u32, size: nat)
    requires InWindow(0x3e, size)
    ensures var t := MmioWrite(s, 0x3e, v, size);
            && t == s.(intr := t.intr)
            && t.intr.status == WithoutBits(s.intr.status, Low16bv(v)) && t.intr.mask == s.intr.mask
            && (t.intr.line <==> Overlap(t.intr.status, t.intr.mask))
  {
    hide MmioWrite, Low16bv, WithoutBits, Overlap;
    ToStatus(s, v, size);
  }

  /** A mask write takes effect at once, and delivers a pending link change it unmasks. */
  lemma MaskRegister(s: State, v: u32, size: nat)
    requires InWindow(0x3c, size)
    ensures var t, bits := MmioWrite(s, 0x3c, v, size), Low16bv(v);
            && t == s.(intr := t.intr, gate := t.gate)
            && t.intr.mask == bits && (t.intr.line <==> Overlap(t.intr.status, t.intr.mask))
            && t.intr.status == (if Overlap(bits, 0x0020) && s.gate.linkChgPending then WithBits(s.intr.status, 0x0020)
                                 else s.intr.status)
  {
    hide MmioWrite, Low16bv, WithBits, Overlap;
    ToMask(s, v, size);
  }

  /** Mask and status read as they are, at offsets 0x3c and 0x3e. */
  lemma InterruptReads(s: State)
    ensures MmioRead(s, 0x3c, 2) == s.intr.mask as int && MmioRead(s, 0x3e, 2) == s.intr.status as int
  {
  }

  // ---- ring bases ----

  lemma RingDispatch(s: State, v: u32)
    ensures MmioWrite(s, 0x20, v, 4) == WriteRing(s, 0x20, v) && MmioWrite(s, 0x24, v, 4) == WriteRing(s, 0x24, v)
    ensures MmioWrite(s, 0xe4, v, 4) == WriteRing(s, 0xe4, v) && MmioWrite(s, 0xe8, v, 4) == WriteRing(s, 0xe8, v)
  {
    hide WriteRing;
  }

  lemma RingReads(s: State)
    ensures MmioRead(s, 0x20, 4) == s.txBase % 0x1_0000_0000 && MmioRead(s, 0x24, 4) == s.txBase / 0x1_0000_0000
    ensures MmioRead(s, 0xe4, 4) == s.rxBase % 0x1_0000_0000 && MmioRead(s, 0xe8, 4) == s.rxBase / 0x1_0000_0000
  {
  }

  /** Splitting a 64-bit address into its halves and putting them together again. */
  lemma Halves(base: Addr, lo: u32, hi: u32)
    ensures var x := base / TWO32 * TWO32 + lo; x % TWO32 == lo && x / TWO32 == base / TWO32
    ensures var x := hi * TWO32 + base % TWO32; x % TWO32 == base % TWO32 && x / TWO32 == hi
    ensures var x := hi * TWO32 + lo; x % TWO32 == lo && x / TWO32 == hi
  {
  }

  /** The two halves written in either order make up a ring's base, read back as written; the ring starts over. */
  lemma TxRingBase(s: State, lo: u32, hi: u32)
    ensures var t := s.(txBase := hi * 0x1_0000_0000 + lo, txCur := 0);
            && MmioWrite(MmioWrite(s, 0x20, lo, 4), 0x24, hi, 4) == t
            && MmioWrite(MmioWrite(s, 0x24, hi, 4), 0x20, lo, 4) == t
            && MmioRead(t, 0x20, 4) == lo && MmioRead(t, 0x24, 4) == hi
  {
    hide MmioWrite, MmioRead, WriteRing;
    TxHalves(s, lo, hi);
    RingDispatch(s, lo);
    RingDispatch(s, hi);
    RingDispatch(WriteRing(s, 0x20, lo), hi);
    RingDispatch(WriteRing(s, 0x24, hi), lo);
    RingReads(s.(txBase := hi * 0x1_0000_0000 + lo, txCur := 0));
    Halves(s.txBase, lo, hi);
  }

  lemma TxHalves(s: State, lo: u32, hi: u32)
    ensures var t := s.(txBase := hi * 0x1_0000_0000 + lo, txCur := 0);
            WriteRing(WriteRing(s, 0x20, lo), 0x24, hi) == t && WriteRing(WriteRing(s, 0x24, hi), 0x20, lo) == t
  {
    Halves(s.txBase, lo, hi);
  }

  lemma RxRingBase(s: State, lo: u32, hi: u32)
    ensures var t := s.(rxBase := hi * 0x1_0000_0000 + lo, rxCur := 0);
            && MmioWrite(MmioWrite(s, 0xe4, lo, 4), 0xe8, hi, 4) == t
            && MmioWrite(MmioWrite(s, 0xe8, hi, 4), 0xe4, lo, 4) == t
            && MmioRead(t, 0xe4, 4) == lo && MmioRead(t, 0xe8, 4) == hi
  {
    hide MmioWrite, MmioRead, WriteRing;
    RxHalves(s, lo, hi);
    RingDispatch(s, lo);
    RingDispatch(s, hi);
    RingDispatch(WriteRing(s, 0xe4, lo), hi);
    RingDispatch(WriteRing(s, 0xe8, hi), lo);
    RingReads(s.(rxBase := hi * 0x1_0000_0000 + lo, rxCur := 0));
    Halves(s.rxBase, lo, hi);
  }

  lemma RxHalves(s: State, lo: u32, hi: u32)
    ensures var t := s.(rxBase := hi * 0x1_0000_0000 + lo, rxCur := 0);
            WriteRing(WriteRing(s, 0xe4, lo), 0xe8, hi) == t && WriteRing(WriteRing(s, 0xe8, hi), 0xe4, lo) == t
  {
    Halves(s.rxBase, lo, hi);
  }

  // ---- identity ----

  /** Two bits unlock the configuration registers and the MAC; what is written while they are locked is lost. */
  lemma UnlockRegister(s: State, v: u32, size: nat)
    requires InWindow(0x50, size)
    ensures var t := MmioWrite(s, 0x50, v, size);
            && t == s.(cfgUnlocked := (v / 0x40) % 4 == 3)
            && MmioRead(t, 0x50, 1) == if (v / 0x40) % 4 == 3 then 0xc0 else 0
  {
    hide MmioWrite, MmioRead, WriteCfg;
    ToUnlock(s, v, size);
    UnlockWrite(s, v);
  }

  lemma UnlockWrite(s: State, v: u32)
    ensures var t := WriteCfg(s, v);
            t == s.(cfgUnlocked := (v / 0x40) % 4 == 3) && MmioRead(t, 0x50, 1) == if t.cfgUnlocked then 0xc0 else 0
  {
    QuarterHalved(v);
    TwoBits(v / 0x40);
  }

  lemma MacRoundTrip(s: State, lo: u32, hi: u32)
    ensures var t := MmioWrite(MmioWrite(s, 0x00, lo, 4), 0x04, hi, 4);
            if !s.cfgUnlocked then t == s
            else MmioRead(t, 0x00, 4) == lo && MmioRead(t, 0x04, 4) == hi % 0x1_0000
                 && (forall k: nat | k < 6 :: t.regs[k] == t.mac[k])
  {
    hide Join32;
    var t1 := MmioWrite(s, 0x00, lo, 4);
    if s.cfgUnlocked {
      JoinBytes32(lo);
      var t := MmioWrite(t1, 0x04, hi, 4);
      assert t.mac == Bytes32(lo) + Bytes16(Low16(hi));
    }
  }

  lemma ConfigRegisters(s: State, addr: nat, v: u32)
    requires 0x51 <= addr <= 0x56
    ensures var t := MmioWrite(s, addr, v, 1);
            if s.cfgUnlocked then MmioRead(t, addr, 1) == v % 0x100 else t == s
  {
  }

  /** What the drivers recognise the chip by, and the link that is always reported up. */
  lemma FixedReads(s: State)
    ensures MmioRead(s, 0x40, 4) == 0x509 * 0x10_0000 + 0x800 && MmioRead(s, 0x44, 4) == 0xe70e
    ensures MmioRead(s, 0x6c, 1) == 0x1f && MmioRead(s, 0xd3, 1) == 0x32 && MmioRead(s, 0xe0, 2) == 0
  {
  }

  /**
   * A device reset: rings, causes, mask and locks cleared, the MAC readable bytewise, every plain
   * byte zero; memory, frames sent and the MAC stay.
   */
  lemma AfterReset(s: State)
    ensures var t := Reset(s);
            && t.ram == s.ram && t.sent == s.sent && t.mac == s.mac && t.txCur == 0 && t.rxCur == 0
            && !V.TxEnabled(t) && !V.RxEnabled(t)
            && (forall k: nat | k < 6 :: t.regs[k] == s.mac[k]) && (forall k: nat | 6 <= k < 0x100 :: t.regs[k] == 0)
            && MmioRead(t, 0x37, 1) == 0 && MmioRead(t, 0x3c, 2) == 0 && MmioRead(t, 0x3e, 2) == 0
            && MmioRead(t, 0x50, 1) == 0 && t.txBase == 0 && t.rxBase == 0
  {
  }

  // ---- indirect access and plain storage ----

  lemma StoredThere(r: RegFile, a: nat, v: u32)
    requires a + 4 <= 0x100
    ensures GetL(PutL(r, a, v), a) == v
  {
    JoinBytes32(v);
  }

  /** Registers whose writes do more than store. */
  predicate Special(a: nat) {
    || a in {0x00, 0x04, 0x10, 0x20, 0x24, 0x37, 0x38, 0x3c, 0x3e}
    || a in {0x50, 0x60, 0x74, 0xb4, 0xb8, 0xe4, 0xe8}
  }

  /** How many bytes a write stores at a: fixed for the registers that have a width of their own. */
  function Width(a: nat, size: nat, unlocked: bool): nat {
    if a in {0x08, 0x0c, 0x44, 0x64, 0x68, 0x70, 0x80, 0xb0} then 4
    else if a in {0xda, 0xe0, 0xe2} then 2
    else if 0x51 <= a <= 0x56 then (if unlocked then 1 else 0)
    else if a == 0x40 then 0
    else if a == 0xec then 1
    else size
  }

  function ByteOf(v: u32, k: nat): nat {
    if k == 0 then v % 0x100
    else if k == 1 then v / 0x100 % 0x100
    else if k == 2 then v / 0x1_0000 % 0x100
    else v / 0x100_0000
  }

  lemma ToStore(s: State, a: nat, v: u32, size: nat)
    requires InWindow(a, size) && !Special(a)
    ensures MmioWrite(s, a, v, size) == StorePlain(s, a, v, size)
  {
    hide StorePlain;
  }

  lemma PutAt(r: RegFile, a: nat, b: Bytes, k: nat)
    requires a + |b| <= 0x100 && k < 0x100
    ensures Put(r, a, b)[k] == if a <= k < a + |b| then b[k - a] else r[k]
  {
  }

  lemma LongBytes(v: u32)
    ensures |Bytes32(v)| == 4 && forall k | 0 <= k < 4 :: Bytes32(v)[k] == ByteOf(v, k)
  {
  }

  lemma HalfOf(v: nat, h: nat, low: nat)
    requires v == 0x1_0000 * h + low && low < 0x1_0000
    ensures v % 0x1_0000 == low
  {
  }

  lemma ByteSplits(low: nat, m: nat, b: nat)
    requires low == 0x100 * m + b && b < 0x100
    ensures low % 0x100 == b && low / 0x100 == m
  {
  }

  lemma HalfSplits(v: nat)
    ensures v % 0x1_0000 % 0x100 == v % 0x100 && v % 0x1_0000 / 0x100 == v / 0x100 % 0x100
  {
    var q, b := v / 0x100, v % 0x100;
    var h, m := q / 0x100, q % 0x100;
    HalfOf(v, h, 0x100 * m + b);
    ByteSplits(0x100 * m + b, m, b);
  }

  lemma ShortBytes(v: u32)
    ensures |Bytes16(Low16(v))| == 2 && forall k | 0 <= k < 2 :: Bytes16(Low16(v))[k] == ByteOf(v, k)
  {
    HalfSplits(v);
  }

  lemma StoredLow(r: RegFile, a: nat, v: u32, n: nat, k: nat)
    requires n in {1, 2, 4} && a + n <= 0x100 && k < 0x100
    ensures var t := if n == 4 then PutL(r, a, v) else if n == 2 then PutW(r, a, v) else Put(r, a, [v % 0x100]);
            t[k] == if a <= k < a + n then ByteOf(v, k - a) else r[k]
  {
    hide Put, Bytes32, Bytes16;
    LongBytes(v);
    ShortBytes(v);
    PutAt(r, a, if n == 4 then Bytes32(v) else if n == 2 then Bytes16(Low16(v)) else [v % 0x100], k);
  }

  /** A plain write stores the low bytes of the value, as many as the register is wide, and nothing else. */
  lemma PlainWrite(s: State, a: nat, v: u32, size: nat, k: nat)
    requires InWindow(a, size) && !Special(a) && k < 0x100
    ensures var t, n := MmioWrite(s, a, v, size), Width(a, size, s.cfgUnlocked);
            t == s.(regs := t.regs) && t.regs[k] == if a <= k < a + n then ByteOf(v, k - a) else s.regs[k]
  {
    hide MmioWrite, PutL, PutW, Put, ByteOf;
    ToStore(s, a, v, size);
    var n := Width(a, size, s.cfgUnlocked);
    if n > 0 {
      StoredLow(s.regs, a, v, n, k);
    }
  }

  /** Where a word write stores its four bytes and nothing else is read from there. */
  lemma WordStored(s: State, a: nat, v: u32)
    requires a in {0x08, 0x0c, 0x68, 0x70, 0x74, 0x80, 0xb0, 0xb4}
    ensures MmioWrite(s, a, v, 4).regs == PutL(s.regs, a, v)
  {
    hide PutL, CountWrite;
  }

  lemma WordRead(s: State, a: nat)
    requires a in {0x08, 0x0c, 0x10, 0x70}
    ensures MmioRead(s, a, 4) == GetL(s.regs, a)
  {
    hide GetL;
  }

  lemma CommandRead(s: State, a: nat)
    requires a in {0x68, 0x80}
    ensures MmioRead(s, a, 4) == if GetL(s.regs, a) >= 0x8000_0000 then GetL(s.regs, a) - 0x8000_0000 else 0x8000_0000
  {
    hide GetL;
  }

  lemma OcpRead(s: State)
    ensures MmioRead(s, 0xb4, 4) == 0x8000_0000 + GetL(s.regs, 0xb4) % 0x8000_0000
    ensures MmioRead(s, 0xb0, 4) == GetL(s.regs, 0xb0) % 0x8000_0000
  {
    hide GetL;
  }

  /** Command registers: a write command reads back finished (bit 31 clear), a read command answered (bit 31 set). */
  lemma CommandPolling(s: State, a: nat, v: u32)
    requires a == 0x68 || a == 0x80
    ensures MmioRead(MmioWrite(s, a, v, 4), a, 4) == if v >= 0x8000_0000 then v - 0x8000_0000 else 0x8000_0000
  {
    hide MmioWrite, MmioRead, GetL, PutL;
    WordStored(s, a, v);
    StoredThere(s.regs, a, v);
    CommandRead(MmioWrite(s, a, v, 4), a);
  }

  lemma OcpPolling(s: State, v: u32)
    ensures MmioRead(MmioWrite(s, 0xb4, v, 4), 0xb4, 4) == 0x8000_0000 + v % 0x8000_0000
    ensures MmioRead(MmioWrite(s, 0xb0, v, 4), 0xb0, 4) == v % 0x8000_0000
  {
    hide MmioWrite, MmioRead, GetL, PutL;
    WordStored(s, 0xb4, v);
    WordStored(s, 0xb0, v);
    StoredThere(s.regs, 0xb4, v);
    StoredThere(s.regs, 0xb0, v);
    OcpRead(MmioWrite(s, 0xb4, v, 4));
    OcpRead(MmioWrite(s, 0xb0, v, 4));
  }

  /** ERIAR answers a read command with the data register beside it. */
  lemma EriPolling(s: State, data: u32, v: u32)
    ensures var t := MmioWrite(MmioWrite(s, 0x70, data, 4), 0x74, v, 4);
            && MmioRead(t, 0x70, 4) == data
            && MmioRead(t, 0x74, 4) ==
               if v >= 0x8000_0000 then v - 0x8000_0000 else 0x8000_0000 + data % 0x8000_0000
  {
    hide MmioWrite, GetL, PutL;
    var t1 := MmioWrite(s, 0x70, data, 4);
    var r := t1.regs;
    WordStored(s, 0x70, data);
    WordStored(t1, 0x74, v);
    StoredThere(s.regs, 0x70, data);
    StoredThere(r, 0x74, v);
    BesideKept(r, v);
  }

  lemma BesideKept(r: RegFile, v: u32)
    ensures GetL(PutL(r, 0x74, v), 0x70) == GetL(r, 0x70)
  {
  }

  /** Multicast filter words read back as written. */
  lemma MulticastWords(s: State, a: nat, v: u32)
    requires a == 0x08 || a == 0x0c
    ensures MmioRead(MmioWrite(s, a, v, 4), a, 4) == v
  {
    hide MmioWrite, MmioRead, GetL, PutL;
    WordStored(s, a, v);
    StoredThere(s.regs, a, v);
    WordRead(MmioWrite(s, a, v, 4), a);
  }

  /** The counter address reads back without its two command bits: the commands finish at once. */
  lemma CounterCommands(s: State, v: u32)
    ensures MmioRead(MmioWrite(s, 0x10, v, 4), 0x10, 4) == v - v % 2 - (v / 8) % 2 * 8
  {
    hide MmioRead, GetL, PutL;
    StoredThere(s.regs, 0x10, v - v % 2 - (v / 8) % 2 * 8);
    WordRead(MmioWrite(s, 0x10, v, 4), 0x10);
  }

  lemma Halfwords(s: State, a: nat, v: u32)
    requires a == 0xda || a == 0xe2
    ensures MmioRead(MmioWrite(s, a, v, 2), a, 2) == v % 0x1_0000
  {
  }
}
