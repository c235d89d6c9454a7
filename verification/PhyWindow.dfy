/** The PHY registers behind their two indirect windows, PHYAR and GPHY_OCP. */
module PhyWindow {
  import opened Words
  import opened Nic
  import opened FirmwareGate

  /** A GPHY_OCP command as a driver forms it: flag, OCP address at bit 15, data in the low half. */
  function OcpWrite(ocp: int, v: u16): u32
    requires 0xa400 <= ocp < 0xa440 && ocp % 2 == 0
  {
    0x8000_0000 + ocp * 0x8000 + v
  }

  function OcpRead(ocp: int): u32
    requires 0xa400 <= ocp < 0xa440 && ocp % 2 == 0
  {
    ocp * 0x8000
  }

  function PhyarWrite(r: int, v: u16): u32
    requires 0 <= r < 32
  {
    0x8000_0000 + r * 0x1_0000 + v
  }

  function PhyarRead(r: int): u32
    requires 0 <= r < 32
  {
    r * 0x1_0000
  }

  lemma GetPut(regs: RegFile, a: nat, v: u32)
    requires a + 4 <= 0x100
    ensures GetL(PutL(regs, a, v), a) == v
  {
    JoinBytes32(v);
  }

  /** Bit 15 of the data spills into the address field and still names the same register. */
  lemma OcpDecodes(ocp: int, v: u16)
    requires 0xa400 <= ocp < 0xa440 && ocp % 2 == 0
    ensures var c := OcpWrite(ocp, v);
            && Flag(c) && Low16(c) == v && OcpIsPhy(OcpAddr(c)) && OcpReg(OcpAddr(c)) == (ocp - 0xa400) / 2
            && OcpAddr(c) == ocp + v / TWO15
    ensures !Flag(OcpRead(ocp)) && OcpAddr(OcpRead(ocp)) == ocp
  {
    var half := ocp / 2;
    assert ocp * TWO15 == half * TWO16;
    assert OcpWrite(ocp, v) / TWO15 == TWO16 + ocp + v / TWO15;
  }

  lemma PhyarDecodes(r: int, v: u16)
    requires 0 <= r < 32
    ensures var c := PhyarWrite(r, v); Flag(c) && Low16(c) == v && PhyarReg(c) == r
    ensures !Flag(PhyarRead(r)) && PhyarReg(PhyarRead(r)) == r
  {
  }

  // ---- what a step does to one PHY register ----

  /** A write command to register r, through PHYAR (register at bit 16) or GPHY_OCP (address at bit 15). */
  predicate WritesPhy(op: Op, r: int) {
    && op.Write? && op.value >= 0x8000_0000
    && ((op.addr == 0x60 && (op.value / 0x1_0000) % 32 == r)
        || (op.addr == 0xb8 && var ocp := (op.value / 0x8000) % 0x1_0000;
                               0xa400 <= ocp < 0xa440 && (ocp - 0xa400) / 2 == r))
  }

  function PhyAfter(s: State, op: Op, r: int): u16
    requires 0 <= r < 32
  {
    if WritesPhy(op, r) then SelfCleared(r, op.value % 0x1_0000)
    else if IsGphyCommand(op) && !s.gate.gphySeen then PowerOn(r)
    else s.phy[r]
  }

  lemma DefaultsView(r: int)
    requires 0 <= r < 32
    ensures PHY_DEFAULTS[r] == PowerOn(r)
  {
  }

  lemma GphyPhy(s: State, v: u32, size: nat, r: int)
    requires 0 <= r < 32
    ensures WriteGphy(s, v).phy[r] == PhyAfter(s, Write(REG_GPHY_OCP, v, size), r)
  {
    hide PutL, Kept, CountWrite, SelfCleared, PowerOn, PHY_DEFAULTS;
    KeptView(r, Low16(v));
    DefaultsView(r);
  }

  lemma PhyarPhy(s: State, v: u32, size: nat, r: int)
    requires 0 <= r < 32
    ensures WritePhyar(s, v).phy[r] == PhyAfter(s, Write(REG_PHYAR, v, size), r)
  {
    hide PutL, Kept, SelfCleared;
    KeptView(r, Low16(v));
  }

  lemma OtherWritesKeepPhy(s: State, addr: nat, v: u32, size: nat)
    requires InWindow(addr, size) && addr != REG_PHYAR && addr != REG_GPHY_OCP
    ensures MmioWrite(s, addr, v, size).phy == s.phy
  {
    hide PutL, PutW, Stored, Bit, Bytes16, Bytes32, Flag, CountWrite, UpdateIrq, SetIntr, Low16bv, TxLoop, TxOpen;
  }

  lemma StepPhy(s: State, op: Op, r: int)
    requires Legal(op) && 0 <= r < 32
    ensures Step(s, op).phy[r] == PhyAfter(s, op, r)
  {
    hide WriteGphy, WriteCounted, WriteChipCmd, WriteTxPoll, WriteIntrMask, WriteIntrStatus, WriteRing, WriteMac,
         WriteCfg, WritePhyar, StorePlain, Flag, PhyarReg, OcpAddr, Kept, Deliver, SetIntr, NextSlot, Owned, RxOpen,
         PHY_DEFAULTS, PowerOn, SelfCleared;
    match op
    case Write(addr, v, size) =>
      if addr == REG_GPHY_OCP {
        GphyPhy(s, v, size, r);
      } else if addr == REG_PHYAR {
        PhyarPhy(s, v, size, r);
      } else {
        OtherWritesKeepPhy(s, addr, v, size);
      }
    case Arrive(p) =>
    case GuestStore(a, b) =>
  }

  // ---- round trips across arbitrary traffic ----

  /** Nothing in `ops` writes register r, and no first GPHY_OCP command can reset the PHY. */
  predicate LeavesPhy(s: State, ops: seq<Op>, r: int) {
    && AllLegal(ops)
    && (forall op | op in ops :: !WritesPhy(op, r))
    && (s.gate.gphySeen || forall op | op in ops :: !IsGphyCommand(op))
  }

  lemma StepKeepsSeen(s: State, op: Op)
    requires Legal(op) && s.gate.gphySeen
    ensures Step(s, op).gate.gphySeen
  {
    hide Step, IsCounted, IsGphyCommand;
    StepGate(s, op);
  }

  lemma {:induction false} PhyPersists(s: State, ops: seq<Op>, r: int)
    requires 0 <= r < 32 && LeavesPhy(s, ops, r)
    ensures Run(s, ops).phy[r] == s.phy[r]
    ensures s.gate.gphySeen ==> Run(s, ops).gate.gphySeen
    decreases |ops|
  {
    hide Step, WritesPhy, IsGphyCommand, Legal;
    if ops == [] {
    } else {
      var init, op := ops[..|ops| - 1], ops[|ops| - 1];
      PhyPersists(s, init, r);
      StepPhy(Run(s, init), op, r);
      if s.gate.gphySeen {
        StepKeepsSeen(Run(s, init), op);
      }
    }
  }

  /** Reading register r through GPHY_OCP: a read command, then a register read. */
  function ReadViaOcp(s: State, r: int): int
    requires 0 <= r < 32
  {
    MmioRead(MmioWrite(s, 0xb8, OcpRead(0xa400 + 2 * r), 4), 0xb8, 4)
  }

  function ReadViaPhyar(s: State, r: int): int
    requires 0 <= r < 32
  {
    MmioRead(MmioWrite(s, 0x60, PhyarRead(r), 4), 0x60, 4)
  }

  /** The interrupt register reports a link change while a reopened gate is open. */
  function Seen(g: Gate, r: int, v: u16): u16 {
    if r == 0x13 && g.fwLoaded && g.gphySeen then ((v as bv16) | 0x6400) as int else v
  }

  /** What stays of a written value: register 0 clears reset (bit 15) and restart (bit 9) by itself. */
  function SelfCleared(r: int, v: u16): u16 {
    if r == 0 then ((v as bv16) & !0x8200) as int else v
  }

  lemma KeptView(r: int, v: u16)
    ensures Kept(r, v) == SelfCleared(r, v)
  {
    assert !(0x8200 as bv16) == 0x7dff;
  }

  lemma SeenView(g: Gate, r: int, v: u16)
    ensures Seen(g, r, v) == if r == PHY_INSR && g.fwLoaded && g.gphySeen then Or16(v, 0x6400) else v
  {
  }

  lemma OcpReadBack(s: State, r: int)
    requires 0 <= r < 32
    ensures ReadViaOcp(s, r) == TWO31 + Seen(s.gate, r, s.phy[r])
  {
    hide PutL, GetL, Or16, Seen, OcpAddr, OcpRead, Flag;
    SeenView(s.gate, r, s.phy[r]);
    OcpDecodes(0xa400 + 2 * r, 0);
    GetPut(s.regs, REG_GPHY_OCP, OcpRead(0xa400 + 2 * r));
  }

  lemma PhyarReadBack(s: State, r: int)
    requires 0 <= r < 32
    ensures ReadViaPhyar(s, r) == TWO31 + s.phy[r]
  {
    hide PutL, GetL, PhyarReg, PhyarRead, Flag;
    PhyarDecodes(r, 0);
    GetPut(s.regs, REG_PHYAR, PhyarRead(r));
  }

  /** The register an OCP address leads to, or 0 where there is none. */
  function Addressed(s: State, ocp: nat): u16 {
    if 0xa400 <= ocp < 0xa440 then Seen(s.gate, (ocp - 0xa400) / 2, s.phy[(ocp - 0xa400) / 2]) else 0
  }

  lemma GphyStored(s: State, v: u32)
    ensures var t := MmioWrite(s, 0xb8, v, 4);
            GetL(t.regs, 0xb8) == v && (v < 0x8000_0000 ==> t.gate == s.gate && t.phy == s.phy)
  {
    hide PutL, GetL, StoreOcp, CountWrite;
    GetPut(s.regs, REG_GPHY_OCP, v);
  }

  lemma GphyAnswers(s: State, v: u32)
    requires GetL(s.regs, 0xb8) == v
    ensures MmioRead(s, 0xb8, 4) ==
            if v >= 0x8000_0000 then v - 0x8000_0000 else 0x8000_0000 + ReadGphyData(s, OcpAddr(v))
  {
    hide GetL, ReadGphyData, OcpAddr;
  }

  lemma AddressedView(s: State, ocp: u16)
    ensures ReadGphyData(s, ocp) == Addressed(s, ocp)
  {
    hide Or16, Seen;
    if 0xa400 <= ocp < 0xa440 {
      SeenView(s.gate, (ocp - 0xa400) / 2, s.phy[(ocp - 0xa400) / 2]);
    }
  }

  /**
   * What the window at 0xb8 reads after any value was written there: a write command without its flag,
   * a read command answered, flag set, by what its address leads to.
   */
  lemma OcpWindowReads(s: State, v: u32)
    ensures MmioRead(MmioWrite(s, 0xb8, v, 4), 0xb8, 4) ==
            if v >= 0x8000_0000 then v - 0x8000_0000 else 0x8000_0000 + Addressed(s, v / 0x8000)
  {
    hide MmioRead, MmioWrite, GetL, ReadGphyData, Seen;
    var t := MmioWrite(s, 0xb8, v, 4);
    GphyStored(s, v);
    GphyAnswers(t, v);
    if v < 0x8000_0000 {
      AddressedView(t, OcpAddr(v));
      assert OcpAddr(v) == v / 0x8000;
    }
  }

  function NamedBy(s: State, command: int): u16
    requires 0 <= command
  {
    s.phy[(command / 0x1_0000) % 32]
  }

  /** And the window at 0x60, whose five address bits always lead to a register. */
  lemma PhyarWindowReads(s: State, v: u32)
    ensures MmioRead(MmioWrite(s, 0x60, v, 4), 0x60, 4) ==
            if v >= 0x8000_0000 then v - 0x8000_0000 else 0x8000_0000 + NamedBy(s, v)
  {
    hide PutL, GetL, Kept, Low16;
    GetPut(s.regs, REG_PHYAR, v);
  }

  lemma OcpWriteLands(s: State, r: int, v: u16)
    requires 0 <= r < 32
    ensures var s' := MmioWrite(s, REG_GPHY_OCP, OcpWrite(0xa400 + 2 * r, v), 4);
            s'.phy[r] == Kept(r, v) && s'.gate.gphySeen
  {
    KeptView(r, v);
    hide PutL, SelfCleared, OcpWrite, Kept, CountWrite, Low16;
    OcpDecodes(0xa400 + 2 * r, v);
    GphyPhy(s, OcpWrite(0xa400 + 2 * r, v), 4, r);
    CountKeepsSeen(s, OcpWrite(0xa400 + 2 * r, v));
  }

  lemma CountKeepsSeen(s: State, v: u32)
    requires Flag(v)
    ensures WriteGphy(s, v).gate.gphySeen
  {
    hide PutL, StoreOcp, Flag;
  }

  /**
   * What is written through GPHY_OCP is read back through either window, for all 32 registers and
   * all 16-bit values, after any traffic that does not itself write that register: bits 15 and 9 of
   * register 0 clear, every other bit as written, and 0x6400 added to register 0x13 while a reopened
   * gate is open.
   */
  lemma OcpRoundTrip(s: State, r: int, v: u16, mid: seq<Op>)
    requires 0 <= r < 32 && AllLegal(mid) && forall op | op in mid :: !WritesPhy(op, r)
    ensures var s' := Run(MmioWrite(s, 0xb8, OcpWrite(0xa400 + 2 * r, v), 4), mid);
            && ReadViaOcp(s', r) == 0x8000_0000 + Seen(s'.gate, r, SelfCleared(r, v))
            && ReadViaPhyar(s', r) == 0x8000_0000 + SelfCleared(r, v)
  {
    hide MmioWrite, Run, WritesPhy, Kept, SelfCleared, Seen, OcpWrite, ReadViaOcp, ReadViaPhyar, Legal;
    KeptView(r, v);
    var s1 := MmioWrite(s, REG_GPHY_OCP, OcpWrite(0xa400 + 2 * r, v), 4);
    OcpWriteLands(s, r, v);
    PhyPersists(s1, mid, r);
    OcpReadBack(Run(s1, mid), r);
    PhyarReadBack(Run(s1, mid), r);
  }

  /** PHYAR writes are read back the same way, as long as no first GPHY_OCP command comes between. */
  lemma PhyarRoundTrip(s: State, r: int, v: u16, mid: seq<Op>)
    requires 0 <= r < 32 && LeavesPhy(s, mid, r)
    ensures var s' := Run(MmioWrite(s, 0x60, PhyarWrite(r, v), 4), mid);
            && ReadViaPhyar(s', r) == 0x8000_0000 + SelfCleared(r, v)
            && ReadViaOcp(s', r) == 0x8000_0000 + Seen(s'.gate, r, SelfCleared(r, v))
  {
    KeptView(r, v);
    hide MmioWrite, Run, WritesPhy, Kept, SelfCleared, Seen, PhyarWrite, ReadViaOcp, ReadViaPhyar, Legal, IsGphyCommand;
    var s1 := MmioWrite(s, REG_PHYAR, PhyarWrite(r, v), 4);
    PhyarWriteLands(s, r, v);
    PhyPersists(s1, mid, r);
    OcpReadBack(Run(s1, mid), r);
    PhyarReadBack(Run(s1, mid), r);
  }

  lemma PhyarWriteLands(s: State, r: int, v: u16)
    requires 0 <= r < 32
    ensures var s' := MmioWrite(s, REG_PHYAR, PhyarWrite(r, v), 4);
            s'.phy[r] == Kept(r, v) && s'.gate == s.gate
  {
    hide PutL, PhyarReg, PhyarWrite, Flag, Kept, Low16;
    PhyarDecodes(r, v);
  }

  /** The register values a fresh PHY shows: 1 Gbit/s full duplex, link up and negotiated. */
  function PowerOn(r: int): u16 {
    match r
    case 0 => 0x1140
    case 1 => 0x796d
    case 2 => 0x001c
    case 3 => 0xc912
    case 4 => 0x01e1
    case 5 => 0xc5e1
    case 6 => 0x000f
    case 9 => 0x0200
    case 10 => 0x3c00
    case 15 => 0x3000
    case _ => 0
  }

  /** The first GPHY_OCP command forgets every PHYAR write: registers it does not name are defaults. */
  lemma FirstCommandForgetsPhyar(s: State, op: Op, r: int)
    requires Legal(op) && 0 <= r < 32 && IsGphyCommand(op) && !s.gate.gphySeen && !WritesPhy(op, r)
    ensures Step(s, op).phy[r] == PHY_DEFAULTS[r] == PowerOn(r)
  {
    hide Step, WritesPhy, IsGphyCommand;
    StepPhy(s, op, r);
  }
}
