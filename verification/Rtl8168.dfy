/** The device as its source keeps it: one object whose fields and register files change in place. */
module Rtl8168Device {
  import opened Words
  import opened GuestRam
  import opened Nic
  import TxRing

  class Rtl8168 {
    const regs: array<u8>
    const mac: array<u8>
    const phyRegs: array<u16>
    var txBase: Addr
    var rxBase: Addr
    var txCur: Slot
    var rxCur: Slot
    var intrMask: bv16
    var intrStatus: bv16
    var irq: bool
    var phyWriteCount: u32
    var fwLoaded: bool
    var gphySeen: bool
    var linkChgPending: bool
    var cfgUnlocked: bool
    var chipCmd: u8
    var ram: Ram
    var sent: seq<Bytes>

    predicate Valid() {
      && regs.Length == 0x100 && mac.Length == 6 && phyRegs.Length == 32
      && regs != mac && (phyRegs as object) != (regs as object) && (phyRegs as object) != (mac as object)
    }

    ghost function GateNow(): Gate
      reads this
    {
      Gate(fwLoaded, gphySeen, phyWriteCount, linkChgPending)
    }

    ghost function IntrNow(): Intr
      reads this
    {
      Intr(intrMask, intrStatus, irq)
    }

    /** The value the state-machine functions speak about. */
    ghost function Abs(): State
      reads this, regs, mac, phyRegs
      requires Valid()
    {
      State(regs[..], mac[..], phyRegs[..], cfgUnlocked, chipCmd, txBase, rxBase, txCur, rxCur,
            IntrNow(), GateNow(), ram, sent)
    }

    constructor (address: Mac)
      ensures Valid() && fresh(regs) && fresh(mac) && fresh(phyRegs)
      ensures mac[..] == address && ram == map[] && sent == [] && !irq
      ensures exists s: State :: Abs() == Reset(s)
    {
      regs := new u8[0x100](_ => 0);
      mac := new u8[6](i requires 0 <= i < 6 => address[i]);
      phyRegs := new u16[32](_ => 0);
      irq := false;
      ram, sent := map[], [];
      new;
      ghost var before := Abs();
      ResetDevice();
      assert Abs() == Reset(before);
    }

    // ---- register file ----

    method Stl(a: nat, v: u32)
      requires Valid() && a + 4 <= 0x100
      modifies regs
      ensures regs[..] == PutL(old(regs[..]), a, v)
    {
      regs[a], regs[a + 1], regs[a + 2], regs[a + 3] :=
        v % 0x100, (v / 0x100) % 0x100, (v / 0x1_0000) % 0x100, v / 0x100_0000;
    }

    method Stw(a: nat, v: u32)
      requires Valid() && a + 2 <= 0x100
      modifies regs
      ensures regs[..] == PutW(old(regs[..]), a, v)
    {
      var w := Low16(v);
      regs[a], regs[a + 1] := w % 0x100, w / 0x100;
    }

    method Stb(a: nat, v: u32)
      requires Valid() && a < 0x100
      modifies regs
      ensures regs[..] == Put(old(regs[..]), a, [v % 0x100])
    {
      regs[a] := v % 0x100;
    }

    // ---- interrupts and the gate ----

    method RefreshIrq()
      modifies this`irq
      ensures IntrNow() == UpdateIrq(old(IntrNow())) && GateNow() == old(GateNow())
    {
      irq := Overlap(intrStatus, intrMask);
    }

    method RaiseIntr(bits: bv16)
      modifies this`irq, this`intrStatus
      ensures IntrNow() == SetIntr(old(IntrNow()), bits) && GateNow() == old(GateNow())
    {
      hide UpdateIrq, WithBits;
      intrStatus := WithBits(intrStatus, bits);
      RefreshIrq();
    }

    method AcknowledgeIntr(bits: bv16)
      modifies this`irq, this`intrStatus
      ensures IntrNow() == ClearIntr(old(IntrNow()), bits) && GateNow() == old(GateNow())
    {
      hide UpdateIrq, WithoutBits;
      intrStatus := WithoutBits(intrStatus, bits);
      RefreshIrq();
    }

    method CountPhyWrite()
      modifies this`phyWriteCount, this`fwLoaded, this`linkChgPending
      ensures GateNow() == CountWrite(old(GateNow()))
    {
      phyWriteCount := (phyWriteCount + 1) % TWO32;
      if !fwLoaded && phyWriteCount >= FW_PHY_WRITE_THRESHOLD {
        fwLoaded := true;
        linkChgPending := true;
      }
    }

    method ClearPhy()
      requires Valid()
      modifies phyRegs
      ensures forall k | 0 <= k < 32 :: phyRegs[k] == 0
    {
      for i := 0 to 32
        invariant forall k | 0 <= k < i :: phyRegs[k] == 0
      {
        phyRegs[i] := 0;
      }
    }

    method InitPhy()
      requires Valid()
      modifies phyRegs
      ensures phyRegs[..] == PHY_DEFAULTS
    {
      ClearPhy();
      phyRegs[0], phyRegs[1], phyRegs[2], phyRegs[3] := 0x1140, 0x796d, 0x001c, 0xc912;
      phyRegs[4], phyRegs[5], phyRegs[6] := 0x01e1, 0xc5e1, 0x000f;
      phyRegs[9], phyRegs[10], phyRegs[15] := 0x0200, 0x3c00, 0x3000;
      assert phyRegs[..16] == PHY_DEFAULTS[..16] && phyRegs[16..] == PHY_DEFAULTS[16..];
    }

    /** All register bytes cleared, then the MAC copied in for byte-wise readers. */
    method InitRegs()
      requires Valid()
      modifies regs
      ensures regs[..] == BlankRegs(mac[..])
    {
      for i := 0 to 0x100
        invariant forall k | 0 <= k < i :: regs[k] == 0
      {
        regs[i] := 0;
      }
      for i := 0 to 6
        invariant forall k | 0 <= k < i :: regs[k] == mac[k]
        invariant forall k | i <= k < 0x100 :: regs[k] == 0
      {
        regs[i] := mac[i];
      }
    }

    method ClearIntrs()
      modifies this`intrStatus, this`intrMask
      ensures IntrNow() == old(IntrNow()).(status := 0, mask := 0) && GateNow() == old(GateNow())
    {
      intrStatus, intrMask := 0, 0;
    }

    method OpenGate()
      modifies this`fwLoaded, this`phyWriteCount, this`gphySeen, this`linkChgPending
      ensures GateNow() == Gate(true, false, 0, false) && IntrNow() == old(IntrNow())
    {
      fwLoaded, phyWriteCount, gphySeen, linkChgPending := true, 0, false, false;
    }

    method ClearRings()
      modifies this`chipCmd, this`txBase, this`rxBase, this`txCur, this`rxCur, this`cfgUnlocked
      ensures chipCmd == 0 && txBase == 0 && rxBase == 0 && txCur == 0 && rxCur == 0 && !cfgUnlocked
      ensures IntrNow() == old(IntrNow()) && GateNow() == old(GateNow())
    {
      chipCmd, txBase, rxBase, txCur, rxCur, cfgUnlocked := 0, 0, 0, 0, 0, false;
    }

    method ResetDevice()
      requires Valid()
      modifies regs, phyRegs, this`chipCmd, this`intrMask, this`intrStatus, this`txBase, this`rxBase, this`txCur,
        this`rxCur, this`fwLoaded, this`phyWriteCount, this`gphySeen, this`linkChgPending, this`cfgUnlocked
      ensures Abs() == Reset(old(Abs()))
    {
      hide PHY_DEFAULTS, Overlap, UpdateIrq, GateNow, IntrNow, BlankRegs;
      InitRegs();
      ClearIntrs();
      ClearRings();
      OpenGate();
      InitPhy();
      assert mac[..] == old(mac[..]);
    }

    // ---- transmit and receive ----

    /** Sends and gives back the descriptors from tx_cur on, until one is not owned. */
    method ServeRing()
      modifies this`ram, this`txCur, this`sent
      ensures TxProgress(ram, txCur, sent) == TxLoop(old(TxProgress(ram, txCur, sent)), txBase, NUM_DESC)
      ensures IntrNow() == old(IntrNow()) && GateNow() == old(GateNow())
    {
      hide TxLoop, Bit, ReadBytes, SetWord, Word, At;
      ghost var start := TxProgress(ram, txCur, sent);
      var i := 0;
      while i < NUM_DESC
        invariant 0 <= i <= NUM_DESC
        invariant TxLoop(TxProgress(ram, txCur, sent), txBase, NUM_DESC - i) == TxLoop(start, txBase, NUM_DESC)
      {
        var daddr := SlotAddr(txBase, txCur);
        var opts1, addrLo, addrHi := Word(ram, daddr), Word(ram, At(daddr, 8)), Word(ram, At(daddr, 12));
        if opts1 < TWO31 {
          TxRing.LoopStops(TxProgress(ram, txCur, sent), txBase, NUM_DESC - i);
          break;
        }
        TxRing.LoopStep(TxProgress(ram, txCur, sent), txBase, NUM_DESC - i);
        var len, eor := opts1 % TWO14, Bit(opts1, TWO30);
        assert FrameOf(ram, txBase, txCur) == [] ==> sent + FrameOf(ram, txBase, txCur) == sent;
        if len > 0 && len <= MAX_FRAME {
          sent := sent + [ReadBytes(ram, addrHi * TWO32 + addrLo, len)];
        }
        ram := SetWord(ram, daddr, if eor then TWO30 else 0);
        txCur := if eor then 0 else (txCur + 1) % NUM_DESC;
        i := i + 1;
      }
      if i == NUM_DESC {
        TxRing.LoopOut(TxProgress(ram, txCur, sent), txBase);
      }
    }

    method Tx()
      requires Valid()
      modifies this`ram, this`txCur, this`sent, this`irq, this`intrStatus
      ensures Abs() == Transmit(old(Abs()))
    {
      hide TxLoop, SetIntr, Bit, IntrNow, PHY_DEFAULTS;
      if !Bit(chipCmd, 4) || !fwLoaded || txBase == 0 {
        return;
      }
      ServeRing();
      RaiseIntr(INTR_TOK);
    }

    /** The packet and its header into the slot at rx_cur, and on to the next. */
    method FillSlot(p: Packet)
      modifies this`ram, this`rxCur
      ensures ram == Deliver(old(ram), rxBase, old(rxCur), p) && rxCur == NextSlot(old(ram), rxBase, old(rxCur))
      ensures IntrNow() == old(IntrNow()) && GateNow() == old(GateNow())
    {
      hide Bit, WriteBytes, Word, RxOpts1, At;
      var daddr := SlotAddr(rxBase, rxCur);
      var opts1, addrLo, addrHi := Word(ram, daddr), Word(ram, At(daddr, 8)), Word(ram, At(daddr, 12));
      var eor := Bit(opts1, TWO30);
      ram := WriteBytes(ram, addrHi * TWO32 + addrLo, p);
      ram := WriteBytes(ram, daddr, Bytes32(RxOpts1(eor, |p|)) + Bytes32(0));
      rxCur := if eor then 0 else (rxCur + 1) % NUM_DESC;
    }

    method ReceivePacket(p: Packet) returns (code: int)
      requires Valid()
      modifies this`ram, this`rxCur, this`irq, this`intrStatus
      ensures Abs() == Receive(old(Abs()), p).state && code == Receive(old(Abs()), p).code
    {
      hide SetIntr, Bit, Word, Deliver, NextSlot, IntrNow, PHY_DEFAULTS, At;
      if !Bit(chipCmd, 8) || !fwLoaded || rxBase == 0 {
        return -1;
      }
      if Word(ram, SlotAddr(rxBase, rxCur)) < TWO31 {
        RaiseIntr(INTR_RDU);
        return 0;
      }
      FillSlot(p);
      RaiseIntr(INTR_ROK);
      code := |p|;
    }

    // ---- register writes ----

    method PhyarWrite(v: u32)
      requires Valid()
      modifies regs, phyRegs
      ensures Abs() == WritePhyar(old(Abs()), v)
    {
      Stl(REG_PHYAR, v);
      if Flag(v) {
        var reg, data := (v / TWO16) % 32, Low16(v);
        phyRegs[reg] := data;
        if reg == 0 {
          phyRegs[0] := Mask16(data, 0x7dff);
        }
      }
    }

    method StartDriver()
      requires Valid()
      modifies phyRegs, this`gphySeen, this`fwLoaded, this`phyWriteCount
      ensures Abs() == FirstGphy(old(Abs()))
    {
      hide PHY_DEFAULTS, UpdateIrq;
      if !gphySeen {
        gphySeen, fwLoaded, phyWriteCount := true, false, 0;
        InitPhy();
        assert regs[..] == old(regs[..]) && mac[..] == old(mac[..]);
        assert GateNow() == Gate(false, true, 0, old(GateNow()).linkChgPending);
        assert IntrNow() == old(IntrNow());
      }
    }

    method StorePhy(v: u32)
      requires Valid()
      modifies phyRegs
      ensures phyRegs[..] == StoreOcp(old(phyRegs[..]), v)
    {
      hide OcpAddr, Mask16;
      var ocp := OcpAddr(v);
      if OcpIsPhy(ocp) {
        var reg, data := (ocp - OCP_PHY_BASE) / 2, Low16(v);
        phyRegs[reg] := data;
        if reg == 0 {
          phyRegs[0] := Mask16(data, 0x7dff);
        }
      }
    }

    method GphyWrite(v: u32)
      requires Valid()
      modifies regs, phyRegs, this`gphySeen, this`fwLoaded, this`phyWriteCount, this`linkChgPending
      ensures Abs() == WriteGphy(old(Abs()), v)
    {
      hide PutL, StoreOcp, CountWrite, FirstGphy;
      Stl(REG_GPHY_OCP, v);
      if Flag(v) {
        StartDriver();
        StorePhy(v);
        CountPhyWrite();
      }
    }

    method CountedWrite(addr: nat, v: u32)
      requires Valid() && addr + 4 <= 0x100
      modifies regs, this`fwLoaded, this`phyWriteCount, this`linkChgPending
      ensures Abs() == WriteCounted(old(Abs()), addr, v)
    {
      Stl(addr, v);
      if Flag(v) && gphySeen {
        CountPhyWrite();
      }
    }

    method StopRings()
      modifies this`chipCmd, this`txCur, this`rxCur
      ensures chipCmd == 0 && txCur == 0 && rxCur == 0
      ensures IntrNow() == old(IntrNow()) && GateNow() == old(GateNow())
    {
      chipCmd, txCur, rxCur := 0, 0, 0;
    }

    method ResetChip()
      requires Valid()
      modifies this`chipCmd, this`intrStatus, this`intrMask, this`irq, this`txCur, this`rxCur
      ensures Abs() == old(Abs()).(chipCmd := 0, txCur := 0, rxCur := 0,
                                   intr := UpdateIrq(old(IntrNow()).(status := 0, mask := 0)))
    {
      hide UpdateIrq, Overlap, IntrNow, GateNow, PHY_DEFAULTS;
      StopRings();
      ClearIntrs();
      RefreshIrq();
    }

    method ChipCmdWrite(v: u32)
      requires Valid()
      modifies this`chipCmd, this`intrStatus, this`intrMask, this`irq, this`txCur, this`rxCur
      ensures Abs() == WriteChipCmd(old(Abs()), v)
    {
      hide UpdateIrq, Bit, Overlap, PHY_DEFAULTS;
      if Bit(v, 0x10) {
        ResetChip();
      } else {
        chipCmd := (if Bit(v, 4) then 4 else 0) + (if Bit(v, 8) then 8 else 0);
      }
    }

    method SetMask(mask: bv16)
      modifies this`intrMask
      ensures IntrNow() == old(IntrNow()).(mask := mask) && GateNow() == old(GateNow())
    {
      intrMask := mask;
    }

    method TakeLinkChg()
      modifies this`linkChgPending
      ensures GateNow() == old(GateNow()).(linkChgPending := false) && IntrNow() == old(IntrNow())
    {
      linkChgPending := false;
    }

    method IntrMaskWrite(v: u32)
      requires Valid()
      modifies this`intrMask, this`intrStatus, this`irq, this`linkChgPending
      ensures Abs() == WriteIntrMask(old(Abs()), v)
    {
      hide UpdateIrq, SetIntr, Low16bv, Overlap, IntrNow, PHY_DEFAULTS;
      SetMask(Low16bv(v));
      if Overlap(Low16bv(v), INTR_LINK_CHG) && linkChgPending {
        TakeLinkChg();
        RaiseIntr(INTR_LINK_CHG);
      }
      RefreshIrq();
    }

    method IntrStatusWrite(v: u32)
      requires Valid()
      modifies this`intrStatus, this`irq
      ensures Abs() == WriteIntrStatus(old(Abs()), v)
    {
      hide ClearIntr, Low16bv;
      AcknowledgeIntr(Low16bv(v));
    }

    method MacWrite(addr: nat, v: u32)
      requires Valid() && (addr == REG_MAC0 || addr == REG_MAC4)
      modifies mac, regs
      ensures Abs() == WriteMac(old(Abs()), addr, v)
    {
      if !cfgUnlocked {
        return;
      }
      if addr == REG_MAC0 {
        var b := Bytes32(v);
        mac[0], mac[1], mac[2], mac[3] := b[0], b[1], b[2], b[3];
        assert mac[..] == Bytes32(v) + old(mac[..])[4..];
        Stl(0, v);
      } else {
        var b := Bytes16(Low16(v));
        mac[4], mac[5] := b[0], b[1];
        assert mac[..] == old(mac[..])[..4] + Bytes16(Low16(v));
        Stw(4, v);
      }
    }

    method RingWrite(addr: nat, v: u32)
      requires Valid() && IsRingReg(addr)
      modifies this`txBase, this`rxBase, this`txCur, this`rxCur
      ensures Abs() == WriteRing(old(Abs()), addr, v)
    {
      if addr == REG_TXDESC_LO {
        txBase, txCur := txBase / TWO32 * TWO32 + v, 0;
      } else if addr == REG_TXDESC_HI {
        txBase := v * TWO32 + txBase % TWO32;
      } else if addr == REG_RXDESC_LO {
        rxBase, rxCur := rxBase / TWO32 * TWO32 + v, 0;
      } else {
        rxBase := v * TWO32 + rxBase % TWO32;
      }
    }

    method PlainWrite(addr: nat, v: u32, size: nat)
      requires Valid() && InWindow(addr, size)
      modifies regs
      ensures Abs() == StorePlain(old(Abs()), addr, v, size)
    {
      if addr == REG_COUNTERADDR_LO {
        Stl(addr, v - v % 2 - (if Bit(v, 8) then 8 else 0));
      } else if IsLongReg(addr) {
        Stl(addr, v);
      } else if IsShortReg(addr) {
        Stw(addr, v);
      } else if addr == REG_TXCONFIG {
      } else if REG_CONFIG0 <= addr <= REG_CONFIG5 {
        if cfgUnlocked {
          Stb(addr, v);
        }
      } else if addr == REG_MAXTXPKTSIZE || size == 1 {
        Stb(addr, v);
      } else if size == 2 {
        Stw(addr, v);
      } else {
        Stl(addr, v);
      }
    }

    method WriteRegister(addr: nat, v: u32, size: nat)
      requires Valid() && InWindow(addr, size)
      modifies this, regs, mac, phyRegs
      ensures Abs() == MmioWrite(old(Abs()), addr, v, size)
    {
      hide WriteGphy, WriteCounted, WriteChipCmd, WriteIntrMask, WriteIntrStatus, WriteRing, WriteMac, WritePhyar,
           StorePlain, Transmit, Bit, Abs;
      if addr == REG_MAC0 || addr == REG_MAC4 {
        MacWrite(addr, v);
      } else if addr == REG_CHIPCMD {
        ChipCmdWrite(v);
      } else if addr == REG_TXPOLL {
        if Bit(v, 0x80) || Bit(v, 0x40) {
          Tx();
        }
      } else if addr == REG_INTRMASK {
        IntrMaskWrite(v);
      } else if addr == REG_INTRSTATUS {
        IntrStatusWrite(v);
      } else if addr == REG_CFG9346 {
        Unlock(v);
      } else if addr == REG_PHYAR {
        PhyarWrite(v);
      } else if IsRingReg(addr) {
        RingWrite(addr, v);
      } else if addr == REG_OCPAR || addr == REG_ERIAR {
        CountedWrite(addr, v);
      } else if addr == REG_GPHY_OCP {
        GphyWrite(v);
      } else {
        PlainWrite(addr, v, size);
      }
    }

    method Unlock(v: u32)
      requires Valid()
      modifies this`cfgUnlocked
      ensures Abs() == WriteCfg(old(Abs()), v)
    {
      cfgUnlocked := Bit(v, 0x80) && Bit(v, 0x40);
    }

    /** The device driven by a whole script of operations is in the state the run function gives. */
    method Drive(ops: seq<Op>)
      requires Valid() && AllLegal(ops)
      modifies this, regs, mac, phyRegs
      ensures Abs() == Run(old(Abs()), ops)
    {
      ghost var s := Abs();
      for i := 0 to |ops|
        invariant AllLegal(ops[..i]) && Abs() == Run(s, ops[..i])
      {
        hide MmioWrite, Receive, Run, WriteBytes, Legal;
        var op := ops[i];
        assert op in ops;
        match op {
          case Write(addr, v, size) =>
            assert InWindow(addr, size) by { LegalWindow(op); }
            WriteRegister(addr, v, size);
          case Arrive(p) =>
            var _ := ReceivePacket(p);
          case GuestStore(a, b) =>
            ram := WriteBytes(ram, a, b);
        }
        RunSnoc(s, ops[..i], op);
        assert ops[..i + 1] == ops[..i] + [op];
      }
      assert ops[..|ops|] == ops;
    }

    lemma LegalWindow(op: Op)
      requires Legal(op) && op.Write?
      ensures InWindow(op.addr, op.size)
    {
    }
  }
}
