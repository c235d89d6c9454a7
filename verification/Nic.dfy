/**
 * The RTL8168 NIC as a state machine on values: what one register write, one received packet
 * or one guest store does to the whole device. Class Rtl8168 (Rtl8168.dfy) is the in-place form.
 */
module Nic {
  import opened Words
  import opened GuestRam

  const REG_MAC0 := 0x00
  const REG_MAC4 := 0x04
  const REG_MAR0 := 0x08
  const REG_MAR4 := 0x0c
  const REG_COUNTERADDR_LO := 0x10
  const REG_TXDESC_LO := 0x20
  const REG_TXDESC_HI := 0x24
  const REG_CHIPCMD := 0x37
  const REG_TXPOLL := 0x38
  const REG_INTRMASK := 0x3c
  const REG_INTRSTATUS := 0x3e
  const REG_TXCONFIG := 0x40
  const REG_RXCONFIG := 0x44
  const REG_CFG9346 := 0x50
  const REG_CONFIG0 := 0x51
  const REG_CONFIG5 := 0x56
  const REG_PHYAR := 0x60
  const REG_CSIDR := 0x64
  const REG_CSIAR := 0x68
  const REG_PHYSTATUS := 0x6c
  const REG_ERIDR := 0x70
  const REG_ERIAR := 0x74
  const REG_EPHYAR := 0x80
  const REG_OCPDR := 0xb0
  const REG_OCPAR := 0xb4
  const REG_GPHY_OCP := 0xb8
  const REG_MCU := 0xd3
  const REG_RXMAXSIZE := 0xda
  const REG_CPLUSCMD := 0xe0
  const REG_INTRMITIGATE := 0xe2
  const REG_RXDESC_LO := 0xe4
  const REG_RXDESC_HI := 0xe8
  const REG_MAXTXPKTSIZE := 0xec

  const INTR_ROK: bv16 := 0x0001
  const INTR_TOK: bv16 := 0x0004
  const INTR_RDU: bv16 := 0x0010
  const INTR_LINK_CHG: bv16 := 0x0020

  const TXCONFIG_VER42: u32 := 0x5090_0800
  const MCU_READY_BITS: u32 := 0x32
  const PHYSTATUS_UP: u32 := 0x1f

  const NUM_DESC := 256
  const DESC_SIZE := 16
  const RING_BYTES := 4096
  const MAX_FRAME := 9000
  const FW_PHY_WRITE_THRESHOLD := 30

  const OCP_PHY_BASE := 0xa400
  const PHY_INSR := 0x13

  type RegFile = r: seq<u8> | |r| == 0x100 witness seq(0x100, _ => 0)
  type Mac = a: seq<u8> | |a| == 6 witness [0, 0, 0, 0, 0, 0]
  type PhyFile = r: seq<u16> | |r| == 32 witness seq(32, _ => 0)
  type Slot = i: int | 0 <= i < NUM_DESC

  /** Interrupt mask, cause register and the level of the line. */
  datatype Intr = Intr(mask: bv16, status: bv16, line: bool)

  /** The firmware gate: open, driver seen, uint32 write counter, link change waiting for a mask. */
  datatype Gate = Gate(fwLoaded: bool, gphySeen: bool, phyWrites: u32, linkChgPending: bool)

  datatype State = State(
    regs: RegFile, mac: Mac, phy: PhyFile, cfgUnlocked: bool, chipCmd: u8,
    txBase: Addr, rxBase: Addr, txCur: Slot, rxCur: Slot,
    intr: Intr, gate: Gate,
    ram: Ram, sent: seq<Bytes>)

  // ---- register bytes ----

  function Put(r: RegFile, a: nat, b: Bytes): RegFile
    requires a + |b| <= 0x100
  {
    r[..a] + b + r[a + |b|..]
  }

  function PutL(r: RegFile, a: nat, v: u32): RegFile
    requires a + 4 <= 0x100
  {
    Put(r, a, Bytes32(v))
  }

  function PutW(r: RegFile, a: nat, v: u32): RegFile
    requires a + 2 <= 0x100
  {
    Put(r, a, Bytes16(Low16(v)))
  }

  function GetL(r: RegFile, a: nat): u32
    requires a + 4 <= 0x100
  {
    Join32(r[a], r[a + 1], r[a + 2], r[a + 3])
  }

  function GetW(r: RegFile, a: nat): u32
    requires a + 2 <= 0x100
  {
    Join16(r[a], r[a + 1])
  }

  // ---- interrupts and the firmware gate ----

  predicate LineLaw(i: Intr) {
    i.line == Overlap(i.status, i.mask)
  }

  function UpdateIrq(i: Intr): (r: Intr)
    ensures LineLaw(r)
  {
    i.(line := Overlap(i.status, i.mask))
  }

  function SetIntr(i: Intr, bits: bv16): (r: Intr)
    ensures LineLaw(r)
  {
    UpdateIrq(i.(status := WithBits(i.status, bits)))
  }

  function ClearIntr(i: Intr, bits: bv16): (r: Intr)
    ensures LineLaw(r)
  {
    UpdateIrq(i.(status := WithoutBits(i.status, bits)))
  }

  function CheckFw(g: Gate): Gate {
    if !g.fwLoaded && g.phyWrites >= FW_PHY_WRITE_THRESHOLD
    then g.(fwLoaded := true, linkChgPending := true)
    else g
  }

  /** One counted PHY-side write; the counter is a uint32. */
  function CountWrite(g: Gate): Gate {
    CheckFw(g.(phyWrites := (g.phyWrites + 1) % TWO32))
  }

  // ---- descriptor rings ----

  function SlotAddr(base: Addr, i: Slot): Addr {
    At(base, DESC_SIZE * i)
  }

  function Opts1(m: Ram, base: Addr, i: Slot): u32 {
    Word(m, SlotAddr(base, i))
  }

  predicate Owned(m: Ram, base: Addr, i: Slot) {
    Opts1(m, base, i) >= TWO31
  }

  predicate Eor(m: Ram, base: Addr, i: Slot) {
    Bit(Opts1(m, base, i), TWO30)
  }

  function FrameLen(m: Ram, base: Addr, i: Slot): int {
    Opts1(m, base, i) % TWO14
  }

  function Buffer(m: Ram, base: Addr, i: Slot): Addr {
    Word(m, At(SlotAddr(base, i), 12)) * TWO32 + Word(m, At(SlotAddr(base, i), 8))
  }

  function NextSlot(m: Ram, base: Addr, i: Slot): Slot {
    if Eor(m, base, i) then 0 else (i + 1) % NUM_DESC
  }

  // ---- transmit ----

  /** The frame a descriptor asks for, or none when its length is out of range. */
  function FrameOf(m: Ram, base: Addr, i: Slot): seq<Bytes> {
    var len := FrameLen(m, base, i);
    if 0 < len <= MAX_FRAME then [ReadBytes(m, Buffer(m, base, i), len)] else []
  }

  function ClearOwn(m: Ram, base: Addr, i: Slot): Ram {
    SetWord(m, SlotAddr(base, i), if Eor(m, base, i) then TWO30 else 0)
  }

  datatype TxProgress = TxProgress(ram: Ram, cur: Slot, sent: seq<Bytes>)

  function TxLoop(t: TxProgress, base: Addr, n: nat): TxProgress
    decreases n
  {
    if n == 0 || !Owned(t.ram, base, t.cur) then t
    else TxLoop(TxProgress(ClearOwn(t.ram, base, t.cur), NextSlot(t.ram, base, t.cur),
                           t.sent + FrameOf(t.ram, base, t.cur)), base, n - 1)
  }

  predicate TxOpen(s: State) {
    Bit(s.chipCmd, 4) && s.gate.fwLoaded && s.txBase != 0
  }

  function AfterTx(s: State, t: TxProgress): State {
    s.(ram := t.ram, txCur := t.cur, sent := t.sent, intr := SetIntr(s.intr, INTR_TOK))
  }

  function Transmit(s: State): State {
    if TxOpen(s)
    then AfterTx(s, TxLoop(TxProgress(s.ram, s.txCur, s.sent), s.txBase, NUM_DESC))
    else s
  }

  // ---- receive ----

  predicate RxOpen(s: State) {
    Bit(s.chipCmd, 8) && s.gate.fwLoaded && s.rxBase != 0
  }

  type Packet = p: Bytes | |p| < TWO64

  /** EOR kept, FS and LS set, and the length with its four CRC bytes. */
  function RxOpts1(eor: bool, size: nat): u32 {
    (if eor then TWO30 else 0) + 0x3000_0000 + (size + 4) % TWO14
  }

  function Deliver(m: Ram, base: Addr, i: Slot, p: Packet): Ram {
    WriteBytes(WriteBytes(m, Buffer(m, base, i), p),
               SlotAddr(base, i), Bytes32(RxOpts1(Eor(m, base, i), |p|)) + Bytes32(0))
  }

  datatype RxResult = RxResult(state: State, code: int)

  /** code is -1 when the device is closed, 0 when no descriptor is free, else the size. */
  function Receive(s: State, p: Packet): RxResult {
    if !RxOpen(s) then RxResult(s, -1)
    else if !Owned(s.ram, s.rxBase, s.rxCur) then RxResult(s.(intr := SetIntr(s.intr, INTR_RDU)), 0)
    else RxResult(
           s.(ram := Deliver(s.ram, s.rxBase, s.rxCur, p),
              rxCur := NextSlot(s.ram, s.rxBase, s.rxCur),
              intr := SetIntr(s.intr, INTR_ROK)),
           |p|)
  }

  // ---- PHY registers ----

  const PHY_DEFAULTS: PhyFile :=
    [0x1140, 0x796d, 0x001c, 0xc912, 0x01e1, 0xc5e1, 0x000f, 0, 0, 0x0200, 0x3c00, 0, 0, 0, 0, 0x3000,
     0, 0, 0, 0, 0, 0, 0, 0, 0, 0, 0, 0, 0, 0, 0, 0]

  /** What a PHY register keeps of a written value: BMCR clears reset and restart itself. */
  function Kept(reg: int, data: u16): u16 {
    if reg == 0 then Mask16(data, 0x7dff) else data
  }

  function PhyarReg(v: u32): (r: int)
    ensures 0 <= r < 32
  {
    (v / TWO16) % 32
  }

  function OcpAddr(v: u32): u16 {
    (v / TWO15) % TWO16
  }

  predicate OcpIsPhy(ocp: int) {
    OCP_PHY_BASE <= ocp < OCP_PHY_BASE + 64
  }

  function OcpReg(ocp: int): (r: int)
    requires OcpIsPhy(ocp)
    ensures 0 <= r < 32
  {
    (ocp - OCP_PHY_BASE) / 2
  }

  // ---- register writes ----

  function WritePhyar(s: State, v: u32): State {
    var s1 := s.(regs := PutL(s.regs, REG_PHYAR, v));
    if Flag(v) then s1.(phy := s1.phy[PhyarReg(v) := Kept(PhyarReg(v), Low16(v))]) else s1
  }

  /** The first flagged GPHY_OCP write closes the gate and restores the PHY. */
  function FirstGphy(s: State): State {
    if s.gate.gphySeen then s
    else s.(gate := Gate(false, true, 0, s.gate.linkChgPending), phy := PHY_DEFAULTS)
  }

  function StoreOcp(phy: PhyFile, v: u32): PhyFile {
    var ocp := OcpAddr(v);
    if OcpIsPhy(ocp) then phy[OcpReg(ocp) := Kept(OcpReg(ocp), Low16(v))] else phy
  }

  function WriteGphy(s: State, v: u32): State {
    var s1 := s.(regs := PutL(s.regs, REG_GPHY_OCP, v));
    if !Flag(v) then s1
    else
      var s2 := FirstGphy(s1);
      s2.(phy := StoreOcp(s2.phy, v), gate := CountWrite(s2.gate))
  }

  function WriteCounted(s: State, addr: nat, v: u32): State
    requires addr + 4 <= 0x100
  {
    s.(regs := PutL(s.regs, addr, v),
       gate := if Flag(v) && s.gate.gphySeen then CountWrite(s.gate) else s.gate)
  }

  function WriteChipCmd(s: State, v: u32): State {
    if Bit(v, 0x10)
    then s.(chipCmd := 0, txCur := 0, rxCur := 0, intr := UpdateIrq(s.intr.(status := 0, mask := 0)))
    else s.(chipCmd := (if Bit(v, 4) then 4 else 0) + (if Bit(v, 8) then 8 else 0))
  }

  /** Unmasking the link change is what delivers a pending one. */
  function WriteIntrMask(s: State, v: u32): State {
    var i := s.intr.(mask := Low16bv(v));
    if Overlap(Low16bv(v), INTR_LINK_CHG) && s.gate.linkChgPending
    then s.(gate := s.gate.(linkChgPending := false), intr := UpdateIrq(SetIntr(i, INTR_LINK_CHG)))
    else s.(intr := UpdateIrq(i))
  }

  function WriteIntrStatus(s: State, v: u32): State {
    s.(intr := ClearIntr(s.intr, Low16bv(v)))
  }

  function WriteMac(s: State, addr: nat, v: u32): State
    requires addr == REG_MAC0 || addr == REG_MAC4
  {
    if !s.cfgUnlocked then s
    else if addr == REG_MAC0
    then s.(mac := Bytes32(v) + s.mac[4..], regs := PutL(s.regs, 0, v))
    else s.(mac := s.mac[..4] + Bytes16(Low16(v)), regs := PutW(s.regs, 4, v))
  }

  predicate IsRingReg(addr: nat) {
    addr == REG_TXDESC_LO || addr == REG_TXDESC_HI || addr == REG_RXDESC_LO || addr == REG_RXDESC_HI
  }

  /** The four ring-base halves; a new low half restarts the ring. */
  function WriteRing(s: State, addr: nat, v: u32): State
    requires IsRingReg(addr)
  {
    if addr == REG_TXDESC_LO then s.(txBase := s.txBase / TWO32 * TWO32 + v, txCur := 0)
    else if addr == REG_TXDESC_HI then s.(txBase := v * TWO32 + s.txBase % TWO32)
    else if addr == REG_RXDESC_LO then s.(rxBase := s.rxBase / TWO32 * TWO32 + v, rxCur := 0)
    else s.(rxBase := v * TWO32 + s.rxBase % TWO32)
  }

  predicate IsLongReg(addr: nat) {
    || addr == REG_MAR0 || addr == REG_MAR4 || addr == REG_RXCONFIG || addr == REG_OCPDR
    || addr == REG_ERIDR || addr == REG_CSIAR || addr == REG_CSIDR || addr == REG_EPHYAR
  }

  predicate IsShortReg(addr: nat) {
    addr == REG_RXMAXSIZE || addr == REG_CPLUSCMD || addr == REG_INTRMITIGATE
  }

  predicate InWindow(addr: nat, size: nat) {
    (size == 1 || size == 2 || size == 4) && addr + size <= 0x100
  }

  /** Registers that are nothing but bytes: the register file after the store. */
  function Stored(r: RegFile, unlocked: bool, addr: nat, v: u32, size: nat): RegFile
    requires InWindow(addr, size)
  {
    if addr == REG_COUNTERADDR_LO then PutL(r, addr, v - v % 2 - (if Bit(v, 8) then 8 else 0))
    else if IsLongReg(addr) then PutL(r, addr, v)
    else if IsShortReg(addr) then PutW(r, addr, v)
    else if addr == REG_TXCONFIG || (REG_CONFIG0 <= addr <= REG_CONFIG5 && !unlocked) then r
    else if REG_CONFIG0 <= addr <= REG_CONFIG5 || addr == REG_MAXTXPKTSIZE || size == 1 then
      Put(r, addr, [v % 0x100])
    else if size == 2 then PutW(r, addr, v)
    else PutL(r, addr, v)
  }

  function StorePlain(s: State, addr: nat, v: u32, size: nat): State
    requires InWindow(addr, size)
  {
    s.(regs := Stored(s.regs, s.cfgUnlocked, addr, v, size))
  }

  function WriteCfg(s: State, v: u32): State {
    s.(cfgUnlocked := Bit(v, 0x80) && Bit(v, 0x40))
  }

  function WriteTxPoll(s: State, v: u32): State {
    if Bit(v, 0x80) || Bit(v, 0x40) then Transmit(s) else s
  }

  function MmioWrite(s: State, addr: nat, v: u32, size: nat): State
    requires InWindow(addr, size)
  {
    if addr == REG_MAC0 || addr == REG_MAC4 then WriteMac(s, addr, v)
    else if addr == REG_CHIPCMD then WriteChipCmd(s, v)
    else if addr == REG_TXPOLL then WriteTxPoll(s, v)
    else if addr == REG_INTRMASK then WriteIntrMask(s, v)
    else if addr == REG_INTRSTATUS then WriteIntrStatus(s, v)
    else if addr == REG_CFG9346 then WriteCfg(s, v)
    else if addr == REG_PHYAR then WritePhyar(s, v)
    else if IsRingReg(addr) then WriteRing(s, addr, v)
    else if addr == REG_OCPAR || addr == REG_ERIAR then WriteCounted(s, addr, v)
    else if addr == REG_GPHY_OCP then WriteGphy(s, v)
    else StorePlain(s, addr, v, size)
  }

  // ---- register reads ----

  /** Flag set: a finished write command. Flag clear: a read command, answered with `data`. */
  function Answer(command: u32, data: int): int {
    if Flag(command) then command - TWO31 else TWO31 + data
  }

  function ReadGphyData(s: State, ocp: u16): u16 {
    if !OcpIsPhy(ocp) then 0
    else
      var data := s.phy[OcpReg(ocp)];
      if OcpReg(ocp) == PHY_INSR && s.gate.fwLoaded && s.gate.gphySeen then Or16(data, 0x6400) else data
  }

  function MmioRead(s: State, addr: nat, size: nat): int
    requires InWindow(addr, size)
  {
    if addr == REG_MAC0 then Join32(s.mac[0], s.mac[1], s.mac[2], s.mac[3])
    else if addr == REG_MAC4 then Join16(s.mac[4], s.mac[5])
    else if addr == REG_CHIPCMD then s.chipCmd
    else if addr == REG_TXCONFIG then TXCONFIG_VER42
    else if addr == REG_RXCONFIG then 0xe70e
    else if addr == REG_INTRMASK then s.intr.mask as int
    else if addr == REG_INTRSTATUS then s.intr.status as int
    else if addr == REG_PHYAR then
      var v := GetL(s.regs, addr);
      Answer(v, s.phy[PhyarReg(v)])
    else if addr == REG_PHYSTATUS then PHYSTATUS_UP
    else if addr == REG_CFG9346 then (if s.cfgUnlocked then 0xc0 else 0)
    else if REG_CONFIG0 <= addr <= REG_CONFIG5 then s.regs[addr]
    else if addr == REG_CPLUSCMD then 0
    else if addr == REG_RXMAXSIZE || addr == REG_INTRMITIGATE then GetW(s.regs, addr)
    else if addr == REG_MAXTXPKTSIZE then s.regs[addr]
    else if addr == REG_TXDESC_LO then s.txBase % TWO32
    else if addr == REG_TXDESC_HI then s.txBase / TWO32
    else if addr == REG_RXDESC_LO then s.rxBase % TWO32
    else if addr == REG_RXDESC_HI then s.rxBase / TWO32
    else if addr == REG_OCPDR then GetL(s.regs, addr) % TWO31
    else if addr == REG_OCPAR then TWO31 + GetL(s.regs, addr) % TWO31
    else if addr == REG_GPHY_OCP then
      var v := GetL(s.regs, addr);
      Answer(v, ReadGphyData(s, OcpAddr(v)))
    else if addr == REG_MCU then MCU_READY_BITS
    else if addr == REG_ERIAR then
      // A pending ERIAR read ORs the flag into ERIDR rather than adding it.
      Answer(GetL(s.regs, addr), GetL(s.regs, REG_ERIDR) % TWO31)
    else if addr == REG_ERIDR then GetL(s.regs, addr)
    else if addr == REG_CSIAR || addr == REG_EPHYAR then Answer(GetL(s.regs, addr), 0)
    else if size == 1 then s.regs[addr]
    else if size == 2 then GetW(s.regs, addr)
    else GetL(s.regs, addr)
  }

  // ---- runs ----

  /** Every register byte zero but for the MAC. */
  function BlankRegs(mac: Mac): RegFile {
    mac + seq(0xfa, _ => 0)
  }

  /** A device reset keeps the MAC, guest memory, the frames already sent and the line level. */
  function Reset(s: State): State {
    s.(regs := BlankRegs(s.mac), chipCmd := 0, intr := s.intr.(mask := 0, status := 0),
       txBase := 0, rxBase := 0, txCur := 0, rxCur := 0,
       gate := Gate(true, false, 0, false), cfgUnlocked := false, phy := PHY_DEFAULTS)
  }

  /** What can happen to the device between resets; reads change nothing. */
  datatype Op =
    | Write(addr: nat, value: u32, size: nat)
    | Arrive(packet: Packet)
    | GuestStore(at: Addr, bytes: Bytes)

  predicate Legal(op: Op) {
    op.Write? ==> InWindow(op.addr, op.size)
  }

  predicate AllLegal(ops: seq<Op>) {
    forall op | op in ops :: Legal(op)
  }

  function Step(s: State, op: Op): State
    requires Legal(op)
  {
    match op
    case Write(addr, v, size) => MmioWrite(s, addr, v, size)
    case Arrive(p) => Receive(s, p).state
    case GuestStore(a, b) => s.(ram := WriteBytes(s.ram, a, b))
  }

  function Run(s: State, ops: seq<Op>): State
    requires AllLegal(ops)
    decreases |ops|
  {
    if ops == [] then s else Step(Run(s, ops[..|ops| - 1]), ops[|ops| - 1])
  }

  lemma RunSnoc(s: State, ops: seq<Op>, op: Op)
    requires AllLegal(ops) && Legal(op)
    ensures AllLegal(ops + [op]) && Run(s, ops + [op]) == Step(Run(s, ops), op)
  {
    assert (ops + [op])[..|ops|] == ops;
  }
}
