/** Transmission over whole runs: however often the ring is kicked, no descriptor is served twice. */
module TxRuns {
  import opened Words
  import opened GuestRam
  import opened Nic
  import opened Rings
  import opened TxRing
  import RxRing

  predicate IsKick(op: Op) {
    op.Write? && op.addr == REG_TXPOLL && (Bit(op.value, 0x80) || Bit(op.value, 0x40))
  }

  /** The slots an operation serves, in order. */
  function Served(s: State, op: Op): seq<Slot> {
    if IsKick(op) && TxOpen(s) then RingPath(s.ram, s.txBase, s.txCur, {}) else []
  }

  /** The transmit ring stays where it is, and neither the guest nor a received packet writes to it. */
  predicate SparesRing(s: State, op: Op) {
    match op
    case Write(addr, _, _) => addr != REG_TXDESC_LO && addr != REG_TXDESC_HI
    case GuestStore(a, b) => Apart(s.txBase, RING_BYTES, a, |b|)
    case Arrive(p) =>
      RxOpen(s) && Owned(s.ram, s.rxBase, s.rxCur) ==>
        && Apart(s.txBase, RING_BYTES, Buffer(s.ram, s.rxBase, s.rxCur), |p|)
        && Apart(s.txBase, RING_BYTES, SlotAddr(s.rxBase, s.rxCur), 8)
  }

  lemma WriteKeepsOpts(m: Ram, base: Addr, a: Addr, b: Bytes, j: Slot)
    requires Apart(base, RING_BYTES, a, |b|)
    ensures Opts1(WriteBytes(m, a, b), base, j) == Opts1(m, base, j)
  {
    hide Word, WriteBytes;
    assert At(SlotAddr(base, j), 0) == SlotAddr(base, j);
    RxRing.BufferWriteKeepsRing(m, base, a, b, j, 0);
  }

  /** What all operations but kicks leave alone. */
  predicate TxKept(s: State, s': State) {
    && s'.txBase == s.txBase && s'.sent == s.sent
    && forall j: Slot :: Opts1(s'.ram, s.txBase, j) == Opts1(s.ram, s.txBase, j)
  }

  lemma RegisterWriteKeepsTx(s: State, addr: nat, v: u32, size: nat)
    requires InWindow(addr, size) && addr != REG_TXDESC_LO && addr != REG_TXDESC_HI && addr != REG_TXPOLL
    ensures var t := MmioWrite(s, addr, v, size); t.txBase == s.txBase && t.sent == s.sent && t.ram == s.ram
  {
    hide PutL, PutW, Stored, Bit, Kept, PhyarReg, Low16, Low16bv, Bytes16, Bytes32, Flag, StoreOcp, CountWrite,
         UpdateIrq, SetIntr, ClearIntr, Transmit, Overlap;
  }

  lemma OtherKeepsTx(s: State, op: Op)
    requires Legal(op) && SparesRing(s, op) && !(IsKick(op) && TxOpen(s))
    ensures TxKept(s, Step(s, op))
  {
    hide Opts1, WriteBytes, Bit, TxOpen, RxOpen, SetIntr, Owned, NextSlot, RxOpts1, Buffer, SlotAddr, Apart, Eor,
         RingPath, MmioWrite, Transmit, Word;
    match op
    case Write(addr, v, size) =>
      if addr != REG_TXPOLL {
        RegisterWriteKeepsTx(s, addr, v, size);
      } else {
        PollKeepsTx(s, v, size);
      }
    case GuestStore(a, b) =>
      forall j: Slot ensures Opts1(WriteBytes(s.ram, a, b), s.txBase, j) == Opts1(s.ram, s.txBase, j) {
        WriteKeepsOpts(s.ram, s.txBase, a, b, j);
      }
    case Arrive(p) =>
      if RxOpen(s) && Owned(s.ram, s.rxBase, s.rxCur) {
        forall j: Slot
          ensures Opts1(Deliver(s.ram, s.rxBase, s.rxCur, p), s.txBase, j) == Opts1(s.ram, s.txBase, j)
        {
          DeliverKeepsOpts(s.ram, s.rxBase, s.rxCur, p, s.txBase, j);
        }
      }
  }

  lemma PollKeepsTx(s: State, v: u32, size: nat)
    requires InWindow(REG_TXPOLL, size) && !((Bit(v, 0x80) || Bit(v, 0x40)) && TxOpen(s))
    ensures MmioWrite(s, REG_TXPOLL, v, size) == s
  {
    hide Bit, TxOpen, TxLoop;
  }

  lemma DeliverKeepsOpts(m: Ram, base: Addr, i: Slot, p: Packet, ring: Addr, j: Slot)
    requires Apart(ring, RING_BYTES, Buffer(m, base, i), |p|) && Apart(ring, RING_BYTES, SlotAddr(base, i), 8)
    ensures Opts1(Deliver(m, base, i, p), ring, j) == Opts1(m, ring, j)
  {
    hide Opts1, WriteBytes, Buffer, SlotAddr, Eor, RxOpts1;
    WriteKeepsOpts(m, ring, Buffer(m, base, i), p, j);
    WriteKeepsOpts(WriteBytes(m, Buffer(m, base, i), p), ring, SlotAddr(base, i),
                   Bytes32(RxOpts1(Eor(m, base, i), |p|)) + Bytes32(0), j);
  }

  // ---- runs ----

  predicate RunSpares(s: State, ops: seq<Op>)
    requires AllLegal(ops)
    decreases |ops|
  {
    ops == [] ||
    (RunSpares(s, ops[..|ops| - 1]) && SparesRing(Run(s, ops[..|ops| - 1]), ops[|ops| - 1]))
  }

  /** All slots served by a run, in order. */
  function AllServed(s: State, ops: seq<Op>): seq<Slot>
    requires AllLegal(ops)
    decreases |ops|
  {
    if ops == [] then []
    else AllServed(s, ops[..|ops| - 1]) + Served(Run(s, ops[..|ops| - 1]), ops[|ops| - 1])
  }

  /** The ring after `done` were served once each: their OWN bits are clear, all else of opts1 is as before. */
  predicate ServedSoFar(s: State, done: seq<Slot>, t: State) {
    && t.txBase == s.txBase && Distinct(done) && (forall i | i in done :: Owned(s.ram, s.txBase, i))
    && (forall j: Slot :: Opts1(t.ram, s.txBase, j) ==
          if j in done then OwnCleared(Opts1(s.ram, s.txBase, j)) else Opts1(s.ram, s.txBase, j))
    && s.sent <= t.sent && |t.sent| <= |s.sent| + |done|
  }

  lemma FramesBounded(m: Ram, base: Addr, done: seq<Slot>, path: seq<Slot>)
    ensures |Frames(m, base, done, path)| <= |path|
    decreases |path|
  {
    hide ClearAll, ReadBytes;
    if path != [] {
      FramesBounded(m, base, done + [path[0]], path[1..]);
    }
  }

  /** A kick serves only slots not served before. */
  lemma KickServesOthers(s: State, done: seq<Slot>, t: State, op: Op)
    requires ServedSoFar(s, done, t) && IsKick(op) && TxOpen(t) && Legal(op)
    ensures ServedSoFar(s, done + Served(t, op), Step(t, op))
  {
    hide RingPath, TxLoop, Opts1, TxOpen, ClearAll, Frames, RingEnd, Bit, SetIntr, NextSlot, Transmit, OwnCleared;
    var p, u := Served(t, op), Transmit(t);
    assert Step(t, op) == u;
    PathShape(t.ram, t.txBase, t.txCur, {});
    forall i | i in p ensures i !in done && Owned(s.ram, s.txBase, i) {
      assert Owned(t.ram, t.txBase, i);
      ClearedNotOwned(Opts1(s.ram, s.txBase, i));
    }
    forall j: Slot
      ensures Opts1(u.ram, s.txBase, j) ==
              if j in done + p then OwnCleared(Opts1(s.ram, s.txBase, j)) else Opts1(s.ram, s.txBase, j)
    {
      TransmitTouchesOnlyServedOpts1(t, j, 0);
    }
    TransmitFollowsRing(t);
    FramesBounded(t.ram, t.txBase, [], p);
    KickedState(t);
    DistinctJoined(done, p);
  }

  lemma DistinctJoined(a: seq<Slot>, b: seq<Slot>)
    requires Distinct(a) && Distinct(b) && forall i | i in b :: i !in a
    ensures Distinct(a + b)
  {
    forall i, j | 0 <= i < j < |a + b| ensures (a + b)[i] != (a + b)[j] {
      if i < |a| <= j {
        assert (a + b)[j] in b && (a + b)[i] in a;
      }
    }
  }

  lemma ClearedNotOwned(w: u32)
    ensures OwnCleared(w) < TWO31
  {
  }

  lemma KickedState(t: State)
    requires TxOpen(t)
    ensures var u := Transmit(t);
            && u.txBase == t.txBase
            && u.sent == t.sent + Frames(t.ram, t.txBase, [], RingPath(t.ram, t.txBase, t.txCur, {}))
  {
    hide RingPath, ClearAll, Frames, TxLoop, TxOpen, Owned, RingEnd, Transmit;
    TransmitFollowsRing(t);
  }

  /**
   * Exactly once over runs: as long as the ring stays where it is and nobody else writes to it, every
   * slot is served at most once however often and however the ring is kicked, only slots owned at the
   * start are served, each sends at most one frame, and the final opts1 words are those of one service.
   */
  lemma {:induction false} NoSlotServedTwice(s: State, ops: seq<Op>)
    requires AllLegal(ops) && RunSpares(s, ops)
    ensures ServedSoFar(s, AllServed(s, ops), Run(s, ops))
    decreases |ops|
  {
    hide ServedSoFar, Step, SparesRing, Legal, Served;
    if ops == [] {
      NothingServed(s);
    } else {
      var init, op := ops[..|ops| - 1], ops[|ops| - 1];
      NoSlotServedTwice(s, init);
      StepServes(s, AllServed(s, init), Run(s, init), op);
    }
  }

  lemma NothingServed(s: State)
    ensures ServedSoFar(s, [], s)
  {
    hide Opts1;
  }

  lemma StepServes(s: State, done: seq<Slot>, t: State, op: Op)
    requires ServedSoFar(s, done, t) && Legal(op) && SparesRing(t, op)
    ensures ServedSoFar(s, done + Served(t, op), Step(t, op))
  {
    hide Step, SparesRing, Legal, RingPath, Opts1, TxOpen, Owned, OwnCleared;
    if IsKick(op) && TxOpen(t) {
      KickServesOthers(s, done, t, op);
    } else {
      OtherKeepsTx(t, op);
      assert done + Served(t, op) == done;
    }
  }
}
