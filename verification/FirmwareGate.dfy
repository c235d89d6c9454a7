/** The firmware gate and the interrupt line, over whole runs since a device reset. */
module FirmwareGate {
  import opened Words
  import opened GuestRam
  import opened Nic

  /** A GPHY_OCP write command: the sign that the operating system's driver took over. */
  predicate IsGphyCommand(op: Op) {
    op.Write? && op.addr == 0xb8 && op.value >= 0x8000_0000
  }

  /** A write command to GPHY_OCP, OCPAR or ERIAR. */
  predicate IsCounted(op: Op) {
    op.Write? && op.addr in {0xb8, 0xb4, 0x74} && op.value >= 0x8000_0000
  }

  predicate Taken(ops: seq<Op>) {
    exists op :: op in ops && IsGphyCommand(op)
  }

  /** Index of the first GPHY_OCP command, or |ops|. */
  function FirstCommand(ops: seq<Op>): (k: nat)
    ensures k <= |ops|
    ensures forall i | 0 <= i < k :: !IsGphyCommand(ops[i])
    ensures k < |ops| ==> IsGphyCommand(ops[k])
  {
    if ops == [] || IsGphyCommand(ops[0]) then 0 else 1 + FirstCommand(ops[1..])
  }

  function CountedWrites(ops: seq<Op>): nat {
    if ops == [] then 0
    else CountedWrites(ops[..|ops| - 1]) + (if IsCounted(ops[|ops| - 1]) then 1 else 0)
  }

  /** Counted writes from and including the first GPHY_OCP command. */
  function Progress(ops: seq<Op>): nat {
    CountedWrites(ops[FirstCommand(ops)..])
  }

  lemma {:induction false} FirstCommandSnoc(ops: seq<Op>, op: Op)
    ensures FirstCommand(ops + [op]) ==
            if FirstCommand(ops) < |ops| then FirstCommand(ops)
            else if IsGphyCommand(op) then |ops| else |ops| + 1
  {
    if ops == [] {
      assert ([] + [op])[1..] == [];
    } else {
      FirstCommandSnoc(ops[1..], op);
      assert (ops + [op])[1..] == ops[1..] + [op];
    }
  }

  lemma TakenIff(ops: seq<Op>)
    ensures Taken(ops) <==> FirstCommand(ops) < |ops|
  {
    if FirstCommand(ops) < |ops| {
      assert ops[FirstCommand(ops)] in ops;
    }
  }

  lemma ProgressSnoc(ops: seq<Op>, op: Op)
    ensures Taken(ops + [op]) <==> Taken(ops) || IsGphyCommand(op)
    ensures Progress(ops + [op]) ==
            Progress(ops) + (if (Taken(ops) || IsGphyCommand(op)) && IsCounted(op) then 1 else 0)
  {
    hide IsGphyCommand, IsCounted;
    FirstCommandSnoc(ops, op);
    TakenIff(ops);
    TakenIff(ops + [op]);
    var f := FirstCommand(ops);
    if f < |ops| {
      assert (ops + [op])[f..] == ops[f..] + [op];
      assert (ops[f..] + [op])[..|ops[f..]|] == ops[f..];
    } else if IsGphyCommand(op) {
      assert (ops + [op])[|ops|..] == [op];
      GphyCommandsCount(op);
      assert [op][..0] == [];
    } else {
      assert (ops + [op])[|ops| + 1..] == [];
    }
  }

  lemma GphyCommandsCount(op: Op)
    requires IsGphyCommand(op)
    ensures IsCounted(op)
  {
  }

  // ---- what one step does to the gate ----

  /** The gate's own machine: what a counted write does, and nothing else does. */
  predicate GateStep(g: Gate, op: Op, g': Gate) {
    if IsCounted(op) && (g.gphySeen || IsGphyCommand(op)) then
      g' == CountWrite(if g.gphySeen then g else Gate(false, true, 0, g.linkChgPending))
    else
      g' == g || g' == g.(linkChgPending := false)
  }

  lemma TransmitKeepsGate(s: State)
    ensures Transmit(s).gate == s.gate
  {
    hide TxLoop, TxOpen;
  }

  lemma ReceiveKeepsGate(s: State, p: Packet)
    ensures Receive(s, p).state.gate == s.gate
  {
    hide Deliver, RxOpen, Owned, NextSlot;
  }

  lemma GphyGateStep(s: State, v: u32, size: nat)
    ensures GateStep(s.gate, Write(REG_GPHY_OCP, v, size), WriteGphy(s, v).gate)
  {
    hide StoreOcp, PutL, CountWrite;
  }

  lemma CountedGateStep(s: State, addr: nat, v: u32, size: nat)
    requires addr == REG_OCPAR || addr == REG_ERIAR
    ensures GateStep(s.gate, Write(addr, v, size), WriteCounted(s, addr, v).gate)
  {
    hide PutL, CountWrite;
  }

  /** Neither traffic, nor interrupts, nor the gate are touched. */
  predicate Quiet(s: State, s': State) {
    && s'.sent == s.sent && s'.ram == s.ram && s'.txCur == s.txCur && s'.rxCur == s.rxCur
    && s'.intr == s.intr && s'.gate == s.gate
  }

  predicate IsLoudReg(addr: nat) {
    || addr == REG_CHIPCMD || addr == REG_TXPOLL || addr == REG_INTRMASK || addr == REG_INTRSTATUS
    || addr == REG_GPHY_OCP || addr == REG_OCPAR || addr == REG_ERIAR || IsRingReg(addr)
  }

  lemma PlainWritesQuiet(s: State, addr: nat, v: u32, size: nat)
    requires InWindow(addr, size)
    ensures Quiet(s, StorePlain(s, addr, v, size)) && Quiet(s, WriteCfg(s, v)) && Quiet(s, WritePhyar(s, v))
    ensures addr == REG_MAC0 || addr == REG_MAC4 ==> Quiet(s, WriteMac(s, addr, v))
  {
    hide PutL, PutW, Stored, Bit, Kept, PhyarReg, Low16, Bytes16, Bytes32, Flag;
  }

  /** All registers but eleven are quiet. */
  lemma QuietWrites(s: State, addr: nat, v: u32, size: nat)
    requires InWindow(addr, size) && !IsLoudReg(addr)
    ensures Quiet(s, MmioWrite(s, addr, v, size))
  {
    hide StorePlain, WriteCfg, WritePhyar, WriteMac, Quiet;
    PlainWritesQuiet(s, addr, v, size);
  }

  lemma ControlWritesKeepGate(s: State, addr: nat, v: u32)
    ensures WriteChipCmd(s, v).gate == s.gate && WriteTxPoll(s, v).gate == s.gate
    ensures WriteIntrStatus(s, v).gate == s.gate
    ensures WriteIntrMask(s, v).gate in {s.gate, s.gate.(linkChgPending := false)}
    ensures IsRingReg(addr) ==> WriteRing(s, addr, v).gate == s.gate
  {
    hide Bit, Transmit, Low16bv, UpdateIrq, SetIntr, ClearIntr;
    TransmitKeepsGate(s);
  }

  lemma StepGate(s: State, op: Op)
    requires Legal(op)
    ensures GateStep(s.gate, op, Step(s, op).gate)
  {
    hide WriteGphy, WriteCounted, WriteChipCmd, WriteTxPoll, WriteIntrMask, WriteIntrStatus, WriteRing, WriteMac,
         WriteCfg, WritePhyar, StorePlain, Receive, Flag, CountWrite;
    match op
    case Write(addr, v, size) =>
      if addr == REG_GPHY_OCP {
        GphyGateStep(s, v, size);
      } else if addr == REG_OCPAR || addr == REG_ERIAR {
        CountedGateStep(s, addr, v, size);
      } else if IsLoudReg(addr) {
        ControlWritesKeepGate(s, addr, v);
      } else {
        QuietWrites(s, addr, v, size);
      }
    case Arrive(p) => ReceiveKeepsGate(s, p);
    case GuestStore(a, b) =>
  }

  // ---- the gate over runs ----

  predicate GateIs(g: Gate, ops: seq<Op>) {
    && g.gphySeen == Taken(ops)
    && g.fwLoaded == (!Taken(ops) || Progress(ops) >= 30)
    && (Taken(ops) ==> g.phyWrites == Progress(ops) % TWO32)
    && (g.linkChgPending ==> g.gphySeen && g.fwLoaded)
  }

  lemma GateIsSnoc(g: Gate, ops: seq<Op>, op: Op, g': Gate)
    requires GateIs(g, ops) && GateStep(g, op, g')
    ensures GateIs(g', ops + [op])
  {
    hide Taken, Progress, IsGphyCommand, IsCounted;
    ProgressSnoc(ops, op);
    if !Taken(ops) {
      NoProgressBefore(ops);
    }
    if IsGphyCommand(op) {
      GphyCommandsCount(op);
    }
  }

  lemma NoProgressBefore(ops: seq<Op>)
    requires !Taken(ops)
    ensures Progress(ops) == 0
  {
    TakenIff(ops);
    assert ops[|ops|..] == [];
  }

  lemma {:induction false} RunGate(s: State, ops: seq<Op>)
    requires AllLegal(ops)
    ensures GateIs(Run(Reset(s), ops).gate, ops)
    decreases |ops|
  {
    hide GateIs, Step, Reset, Legal;
    if ops == [] {
      ResetGate(s);
    } else {
      var init, op := ops[..|ops| - 1], ops[|ops| - 1];
      RunGate(s, init);
      StepGate(Run(Reset(s), init), op);
      GateIsSnoc(Run(Reset(s), init).gate, init, op, Run(Reset(s), ops).gate);
      assert init + [op] == ops;
    }
  }

  lemma ResetGate(s: State)
    ensures GateIs(Reset(s).gate, [])
  {
  }

  /**
   * The gate theorem: after any run since reset the gate is open exactly when the driver never
   * issued a GPHY_OCP command, or 30 counted writes came from its first command on. Chip resets,
   * interleaved packets and the counter's wrap at 2^32 make no difference.
   */
  lemma GateOpenIff(s: State, ops: seq<Op>)
    requires AllLegal(ops)
    ensures Run(Reset(s), ops).gate.fwLoaded <==>
            (forall op | op in ops :: !IsGphyCommand(op)) || Progress(ops) >= 30
  {
    hide Run, Reset, Progress, IsGphyCommand;
    RunGate(s, ops);
  }

  // ---- silence while the gate is closed ----

  predicate Closed(ops: seq<Op>) {
    Taken(ops) && Progress(ops) < 30
  }

  /** Nothing got out, nothing came in, no DMA, and the ring positions moved only to 0. */
  predicate Silent(s: State, op: Op, s': State) {
    && s'.sent == s.sent
    && s'.ram == (if op.GuestStore? then WriteBytes(s.ram, op.at, op.bytes) else s.ram)
    && (s'.txCur == s.txCur || s'.txCur == 0)
    && (s'.rxCur == s.rxCur || s'.rxCur == 0)
    && (op.Arrive? ==> Receive(s, op.packet).code == -1)
  }

  predicate Mute(s: State, s': State) {
    && s'.sent == s.sent && s'.ram == s.ram
    && (s'.txCur == s.txCur || s'.txCur == 0)
    && (s'.rxCur == s.rxCur || s'.rxCur == 0)
  }

  lemma ControlWritesMute(s: State, addr: nat, v: u32)
    requires !s.gate.fwLoaded
    ensures Mute(s, WriteChipCmd(s, v)) && Mute(s, WriteTxPoll(s, v))
    ensures Mute(s, WriteIntrMask(s, v)) && Mute(s, WriteIntrStatus(s, v))
    ensures IsRingReg(addr) ==> Mute(s, WriteRing(s, addr, v))
  {
    hide Bit, Low16bv, TxLoop, UpdateIrq, SetIntr, ClearIntr;
  }

  lemma PhyWritesMute(s: State, addr: nat, v: u32)
    ensures Mute(s, WriteGphy(s, v))
    ensures addr == REG_OCPAR || addr == REG_ERIAR ==> Mute(s, WriteCounted(s, addr, v))
  {
    hide PutL, StoreOcp, Flag, CountWrite;
  }

  lemma ClosedStepSilent(s: State, op: Op)
    requires Legal(op) && !s.gate.fwLoaded
    ensures Silent(s, op, Step(s, op))
  {
    hide WriteGphy, WriteCounted, WriteChipCmd, WriteTxPoll, WriteIntrMask, WriteIntrStatus, WriteRing, WriteMac,
         WriteCfg, WritePhyar, StorePlain, WriteBytes, Deliver;
    if op.Write? {
      if !IsLoudReg(op.addr) {
        QuietWrites(s, op.addr, op.value, op.size);
      }
      ControlWritesMute(s, op.addr, op.value);
      PhyWritesMute(s, op.addr, op.value);
    }
  }

  /**
   * From the first GPHY_OCP command until the 30th counted write the device is mute and deaf:
   * at every closed point of every run, whatever comes next sends, accepts and writes nothing.
   */
  lemma ClosedGateIsSilent(s: State, ops: seq<Op>, op: Op)
    requires AllLegal(ops) && Legal(op) && Closed(ops)
    ensures Silent(Run(Reset(s), ops), op, Run(Reset(s), ops + [op]))
  {
    hide Silent, Step, Reset, Taken, Progress;
    RunGate(s, ops);
    RunSnoc(Reset(s), ops, op);
    ClosedStepSilent(Run(Reset(s), ops), op);
  }

  // ---- interrupts ----

  lemma TransmitKeepsLaw(s: State)
    requires LineLaw(s.intr)
    ensures LineLaw(Transmit(s).intr)
  {
    hide TxLoop, TxOpen, LineLaw, SetIntr;
  }

  lemma ReceiveKeepsLaw(s: State, p: Packet)
    requires LineLaw(s.intr)
    ensures LineLaw(Receive(s, p).state.intr)
  {
    hide Deliver, RxOpen, Owned, NextSlot, SetIntr, LineLaw;
  }

  lemma ControlWritesKeepLaw(s: State, v: u32)
    requires LineLaw(s.intr)
    ensures LineLaw(WriteChipCmd(s, v).intr) && LineLaw(WriteTxPoll(s, v).intr)
    ensures LineLaw(WriteIntrMask(s, v).intr) && LineLaw(WriteIntrStatus(s, v).intr)
  {
    hide Bit, Low16bv, Transmit, UpdateIrq, SetIntr, ClearIntr, LineLaw;
    TransmitKeepsLaw(s);
  }

  lemma PhyAndRingWritesKeepIntr(s: State, addr: nat, v: u32)
    ensures WriteGphy(s, v).intr == s.intr
    ensures addr == REG_OCPAR || addr == REG_ERIAR ==> WriteCounted(s, addr, v).intr == s.intr
    ensures IsRingReg(addr) ==> WriteRing(s, addr, v).intr == s.intr
  {
    hide PutL, StoreOcp, Flag, CountWrite;
  }

  lemma StepKeepsLaw(s: State, op: Op)
    requires Legal(op) && LineLaw(s.intr)
    ensures LineLaw(Step(s, op).intr)
  {
    hide WriteGphy, WriteCounted, WriteChipCmd, WriteTxPoll, WriteIntrMask, WriteIntrStatus, WriteRing, WriteMac,
         WriteCfg, WritePhyar, StorePlain, WriteBytes, Receive, LineLaw;
    match op
    case Write(addr, v, size) =>
      if !IsLoudReg(addr) {
        QuietWrites(s, addr, v, size);
      }
      ControlWritesKeepLaw(s, v);
      PhyAndRingWritesKeepIntr(s, addr, v);
    case Arrive(p) => ReceiveKeepsLaw(s, p);
    case GuestStore(a, b) =>
  }

  /** After every operation of every run the line is high exactly when an unmasked cause is set. */
  lemma {:induction false} LineFollowsStatus(s: State, ops: seq<Op>)
    requires AllLegal(ops) && !s.intr.line
    ensures LineLaw(Run(Reset(s), ops).intr)
    ensures var i := Run(Reset(s), ops).intr; i.line <==> i.status & i.mask != 0
    decreases |ops|
  {
    hide Step, Legal;
    if ops == [] {
      ResetLine(s);
    } else {
      LineFollowsStatus(s, ops[..|ops| - 1]);
      StepKeepsLaw(Run(Reset(s), ops[..|ops| - 1]), ops[|ops| - 1]);
    }
  }

  /** A device reset clears status and mask but not the line: the law survives iff the line was low. */
  lemma ResetLine(s: State)
    ensures LineLaw(Reset(s).intr) <==> !s.intr.line
  {
  }

  /** Such a line is reached: kick an empty transmit ring with its interrupt unmasked. */
  lemma ResetCanStrandLine(s: State)
    ensures exists ops :: AllLegal(ops) && !LineLaw(Reset(Run(Reset(s), ops)).intr)
  {
    hide MmioWrite, Reset, TxOpen;
    var base, enable := Write(REG_TXDESC_LO, 0x1000, 4), Write(REG_CHIPCMD, 4, 1);
    var unmask, kick := Write(REG_INTRMASK, 4, 2), Write(REG_TXPOLL, 0x40, 1);
    var s0 := Reset(s);
    RunSnoc(s0, [], base);
    RunSnoc(s0, [] + [base], enable);
    RunSnoc(s0, [] + [base] + [enable], unmask);
    RunSnoc(s0, [] + [base] + [enable] + [unmask], kick);
    var s1 := Step(s0, base);
    var s2 := Step(s1, enable);
    BaseAndEnable(s);
    Unmasked(s2);
    KickRaisesLine(Step(s2, unmask));
    var ops := [] + [base] + [enable] + [unmask] + [kick];
    ResetLine(Run(s0, ops));
  }

  lemma BaseAndEnable(s: State)
    ensures var t := Step(Step(Reset(s), Write(REG_TXDESC_LO, 0x1000, 4)), Write(REG_CHIPCMD, 4, 1)); TxOpen(t)
  {
    var t1 := Step(Reset(s), Write(REG_TXDESC_LO, 0x1000, 4));
    assert t1.txBase == 0x1000 && t1.gate.fwLoaded;
    assert WriteChipCmd(t1, 4).chipCmd == 4;
  }

  lemma Unmasked(s: State)
    requires TxOpen(s)
    ensures TxOpen(Step(s, Write(REG_INTRMASK, 4, 2))) && Step(s, Write(REG_INTRMASK, 4, 2)).intr.mask == 4
  {
    assert Low16bv(4) == 4;
  }

  lemma KickRaisesLine(s: State)
    requires TxOpen(s) && s.intr.mask == 4
    ensures Step(s, Write(REG_TXPOLL, 0x40, 1)).intr.line
  {
    hide TxLoop;
    assert Overlap(WithBits(s.intr.status, INTR_TOK), 4) by { OrTok(s.intr.status); }
  }

  lemma OrTok(st: bv16)
    ensures Overlap(WithBits(st, INTR_TOK), 4)
  {
  }

  /** The step delivers the deferred link-change interrupt. */
  predicate Delivers(s: State, op: Op) {
    op.Write? && op.addr == REG_INTRMASK && Overlap(Low16bv(op.value), INTR_LINK_CHG) && s.gate.linkChgPending
  }

  predicate LinkChgSet(s: State) {
    Overlap(s.intr.status, INTR_LINK_CHG)
  }

  lemma OtherBitsKeepLinkChg(st: bv16, bits: bv16)
    requires bits & INTR_LINK_CHG == 0
    ensures Overlap(WithBits(st, bits), INTR_LINK_CHG) == Overlap(st, INTR_LINK_CHG)
  {
  }

  lemma ClearingNeverSets(st: bv16, v: bv16)
    ensures Overlap(WithoutBits(st, v), INTR_LINK_CHG) ==> Overlap(st, INTR_LINK_CHG)
  {
  }

  lemma OtherCauseKeepsLinkChg(i: Intr, bits: bv16)
    requires bits & INTR_LINK_CHG == 0
    ensures Overlap(SetIntr(i, bits).status, INTR_LINK_CHG) == Overlap(i.status, INTR_LINK_CHG)
  {
    OtherBitsKeepLinkChg(i.status, bits);
  }

  lemma TransmitKeepsLinkChg(s: State)
    ensures LinkChgSet(Transmit(s)) == LinkChgSet(s)
  {
    hide TxLoop, TxOpen, SetIntr, Overlap;
    OtherCauseKeepsLinkChg(s.intr, INTR_TOK);
  }

  lemma ReceiveKeepsLinkChg(s: State, p: Packet)
    ensures LinkChgSet(Receive(s, p).state) == LinkChgSet(s)
  {
    hide Deliver, RxOpen, Owned, NextSlot, SetIntr, Overlap;
    OtherCauseKeepsLinkChg(s.intr, INTR_ROK);
    OtherCauseKeepsLinkChg(s.intr, INTR_RDU);
  }

  lemma ControlWritesLinkChg(s: State, v: u32)
    ensures LinkChgSet(WriteChipCmd(s, v)) ==> LinkChgSet(s)
    ensures LinkChgSet(WriteTxPoll(s, v)) == LinkChgSet(s)
    ensures LinkChgSet(WriteIntrStatus(s, v)) ==> LinkChgSet(s)
  {
    hide Bit, Low16bv, Transmit, WithoutBits;
    TransmitKeepsLinkChg(s);
    ClearingNeverSets(s.intr.status, Low16bv(v));
  }

  lemma IntrMaskDelivers(s: State, v: u32)
    ensures var s', now := WriteIntrMask(s, v), Overlap(Low16bv(v), INTR_LINK_CHG) && s.gate.linkChgPending;
            && (now ==> !s'.gate.linkChgPending && LinkChgSet(s'))
            && (!now ==> LinkChgSet(s') == LinkChgSet(s))
  {
    hide Low16bv, Overlap, WithBits;
    OrSets(s.intr.status);
  }

  lemma OrSets(st: bv16)
    ensures Overlap(WithBits(st, INTR_LINK_CHG), INTR_LINK_CHG)
  {
  }

  /** LINK_CHG rises only through a delivery, and a delivery uses the pending mark up. */
  lemma StepLinkChg(s: State, op: Op)
    requires Legal(op)
    ensures var s' := Step(s, op);
            && (LinkChgSet(s') && !LinkChgSet(s) ==> Delivers(s, op))
            && (Delivers(s, op) ==> !s'.gate.linkChgPending && LinkChgSet(s'))
  {
    hide WriteGphy, WriteCounted, WriteChipCmd, WriteTxPoll, WriteIntrMask, WriteIntrStatus, WriteRing, WriteMac,
         WriteCfg, WritePhyar, StorePlain, WriteBytes, Receive, Low16bv;
    match op
    case Write(addr, v, size) =>
      if !IsLoudReg(addr) {
        QuietWrites(s, addr, v, size);
      }
      ControlWritesLinkChg(s, v);
      IntrMaskDelivers(s, v);
      PhyAndRingWritesKeepIntr(s, addr, v);
    case Arrive(p) => ReceiveKeepsLinkChg(s, p);
    case GuestStore(a, b) =>
  }

  /** How often a run delivers the link change. */
  function Deliveries(s: State, ops: seq<Op>): nat
    requires AllLegal(ops)
    decreases |ops|
  {
    if ops == [] then 0
    else Deliveries(s, ops[..|ops| - 1])
         + (if Delivers(Run(s, ops[..|ops| - 1]), ops[|ops| - 1]) then 1 else 0)
  }

  /** A link change still to come: the gate has not reopened yet, or the mark is pending. */
  function Outstanding(s: State): nat {
    if !(s.gate.gphySeen && s.gate.fwLoaded) || s.gate.linkChgPending then 1 else 0
  }

  lemma OutstandingStep(s: State, op: Op)
    requires Legal(op)
    ensures Outstanding(Step(s, op)) + (if Delivers(s, op) then 1 else 0) <=
            Outstanding(s) + (if Delivers(s, op) && !(s.gate.gphySeen && s.gate.fwLoaded) then 1 else 0)
  {
    hide Step, Low16bv, Flag;
    StepGate(s, op);
    StepLinkChg(s, op);
  }

  lemma {:induction false} DeliveriesBounded(s: State, ops: seq<Op>)
    requires AllLegal(ops)
    ensures Deliveries(Reset(s), ops) + Outstanding(Run(Reset(s), ops)) <= 1
    decreases |ops|
  {
    hide Step, Reset, Delivers, Legal;
    if ops == [] {
    } else {
      var init, op := ops[..|ops| - 1], ops[|ops| - 1];
      DeliveriesBounded(s, init);
      RunGate(s, init);
      OutstandingStep(Run(Reset(s), init), op);
      PendingNeeded(Run(Reset(s), init), op);
    }
  }

  lemma PendingNeeded(s: State, op: Op)
    ensures Delivers(s, op) ==> s.gate.linkChgPending
  {
  }

  /** A write to INTRMASK whose bit 5 is set. */
  predicate Unmasks(op: Op) {
    op.Write? && op.addr == 0x3c && ((op.value % 0x1_0000) as bv16) & 0x0020 != 0
  }

  lemma UnmaskView(s: State, op: Op)
    ensures Delivers(s, op) <==> Unmasks(op) && s.gate.linkChgPending
    ensures LinkChgSet(s) <==> s.intr.status & 0x0020 != 0
  {
  }

  /** Between device resets LINK_CHG is raised at most once, and only after the gate reopened. */
  lemma LinkChangeOnce(s: State, ops: seq<Op>, op: Op)
    requires AllLegal(ops) && Legal(op)
    ensures Deliveries(Reset(s), ops + [op]) <= 1
    ensures var s1, s2 := Run(Reset(s), ops), Run(Reset(s), ops + [op]);
            s2.intr.status & 0x0020 != 0 && s1.intr.status & 0x0020 == 0 ==>
            && Delivers(s1, op) && Unmasks(op) && Deliveries(Reset(s), ops) == 0
            && Taken(ops) && Progress(ops) >= 30
  {
    hide Step, Reset, Legal, Taken, Progress, Low16bv, Unmasks, Delivers;
    RunSnoc(Reset(s), ops, op);
    DeliveriesBounded(s, ops);
    DeliveriesBounded(s, ops + [op]);
    RunGate(s, ops);
    StepLinkChg(Run(Reset(s), ops), op);
    UnmaskView(Run(Reset(s), ops), op);
    UnmaskView(Run(Reset(s), ops + [op]), op);
    assert (ops + [op])[..|ops|] == ops;
  }

  /** From the gate's reopening on, the link change is pending until it is delivered. */
  lemma {:induction false} PendingUntilDelivered(s: State, ops: seq<Op>)
    requires AllLegal(ops)
    ensures Run(Reset(s), ops).gate.linkChgPending <==>
            Taken(ops) && Progress(ops) >= 30 && Deliveries(Reset(s), ops) == 0
    decreases |ops|
  {
    hide Step, Reset, Delivers, Legal, Progress, Taken, GateIs, IsCounted, IsGphyCommand;
    if ops == [] {
      NothingPending(s);
    } else {
      var init, op := ops[..|ops| - 1], ops[|ops| - 1];
      var t := Run(Reset(s), init);
      assert init + [op] == ops;
      PendingUntilDelivered(s, init);
      RunGate(s, init);
      RunGate(s, ops);
      DeliveriesBounded(s, ops);
      StepPending(t, op);
      StepGate(t, op);
      GatesSaid(t.gate, init, Step(t, op).gate, ops);
      PendingNeeded(t, op);
    }
  }

  lemma NothingPending(s: State)
    ensures !Reset(s).gate.linkChgPending && !Taken([])
  {
  }

  lemma GatesSaid(g: Gate, init: seq<Op>, g': Gate, ops: seq<Op>)
    requires GateIs(g, init) && GateIs(g', ops)
    ensures g.gphySeen && g.fwLoaded <==> Taken(init) && Progress(init) >= 30
    ensures g'.gphySeen && g'.fwLoaded <==> Taken(ops) && Progress(ops) >= 30
  {
    hide Taken, Progress;
  }

  /** The pending mark is set by reopening the gate and used up by a delivery, and by nothing else. */
  lemma StepPending(s: State, op: Op)
    requires Legal(op)
    ensures var g, g' := s.gate, Step(s, op).gate;
            g'.linkChgPending <==>
              (g.linkChgPending && !Delivers(s, op)) || (g'.gphySeen && g'.fwLoaded && !(g.gphySeen && g.fwLoaded))
  {
    hide MmioWrite, Receive, Overlap, Low16bv, WriteBytes;
    match op
    case Write(addr, v, size) => WritePending(s, addr, v, size);
    case Arrive(p) => ReceiveKeepsGate(s, p);
    case GuestStore(a, b) =>
  }

  lemma WritePending(s: State, addr: nat, v: u32, size: nat)
    requires InWindow(addr, size)
    ensures var g, g' := s.gate, MmioWrite(s, addr, v, size).gate;
            g'.linkChgPending <==>
              || (g.linkChgPending && !(addr == REG_INTRMASK && Overlap(Low16bv(v), INTR_LINK_CHG)))
              || (g'.gphySeen && g'.fwLoaded && !(g.gphySeen && g.fwLoaded))
  {
    hide WriteGphy, WriteCounted, WriteChipCmd, WriteTxPoll, WriteIntrStatus, WriteRing, WriteMac, WriteCfg,
         WritePhyar, StorePlain, Low16bv, Overlap, UpdateIrq, SetIntr, GateStep;
    if !IsLoudReg(addr) {
      QuietWrites(s, addr, v, size);
    }
    GphyPending(s, v);
    CountedPending(s, addr, v);
    ControlWritesKeepGate(s, addr, v);
  }

  lemma GphyPending(s: State, v: u32)
    ensures var g, g' := s.gate, WriteGphy(s, v).gate;
            g'.linkChgPending <==> g.linkChgPending || (g'.gphySeen && g'.fwLoaded && !(g.gphySeen && g.fwLoaded))
  {
    hide StoreOcp, PutL;
  }

  lemma CountedPending(s: State, addr: nat, v: u32)
    ensures addr == REG_OCPAR || addr == REG_ERIAR ==>
            var g, g' := s.gate, WriteCounted(s, addr, v).gate;
            g'.linkChgPending <==> g.linkChgPending || (g'.gphySeen && g'.fwLoaded && !(g.gphySeen && g.fwLoaded))
  {
    hide PutL;
  }

  /**
   * And it is delivered: the write that unmasks it sets the status bit, raises the line and counts as
   * the delivery, exactly when the gate has reopened and there was none before.
   */
  lemma LinkChangeDeliveredIff(s: State, ops: seq<Op>, op: Op)
    requires AllLegal(ops) && Legal(op)
    ensures Delivers(Run(Reset(s), ops), op) <==>
            Unmasks(op) && Taken(ops) && Progress(ops) >= 30 && Deliveries(Reset(s), ops) == 0
    ensures Delivers(Run(Reset(s), ops), op) ==> Run(Reset(s), ops + [op]).intr.status & 0x0020 != 0
  {
    hide Step, Reset, Legal, Taken, Progress, Unmasks, Delivers;
    RunSnoc(Reset(s), ops, op);
    PendingUntilDelivered(s, ops);
    StepLinkChg(Run(Reset(s), ops), op);
    UnmaskView(Run(Reset(s), ops), op);
    UnmaskView(Run(Reset(s), ops + [op]), op);
  }
}
