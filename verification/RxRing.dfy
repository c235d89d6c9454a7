/** Runs of received packets between two guest refills. */
module RxRing {
  import opened Words
  import opened GuestRam
  import opened Nic
  import opened Rings
  import V = GuestView

  /** The buffer of slot i, for a packet of n bytes, lies clear of the ring. */
  predicate OffRingBuffer(m: Ram, base: Addr, i: Slot, n: nat) {
    Apart(base, RING_BYTES, Buffer(m, base, i), n)
  }

  function Header(eor: bool, size: nat): Bytes {
    Bytes32(RxOpts1(eor, size)) + Bytes32(0)
  }

  /** The two words a delivery rewrites, and what the guest reads out of them. */
  lemma ReportedLength(eor: bool, size: nat)
    ensures var w := RxOpts1(eor, size);
            && w < TWO31 && Bit(w, TWO30) == eor && Bit(w, 0x2000_0000) && Bit(w, 0x1000_0000)
            && (size + 4 <= 0x3fff ==> w % TWO14 == size + 4)
  {
  }

  lemma BufferWriteKeepsRing(m: Ram, base: Addr, a: Addr, p: Packet, i: Slot, k: int)
    requires Apart(base, RING_BYTES, a, |p|) && k in {0, 4, 8, 12}
    ensures Word(WriteBytes(m, a, p), At(SlotAddr(base, i), k)) == Word(m, At(SlotAddr(base, i), k))
  {
    hide Word, WriteBytes;
    var x := At(SlotAddr(base, i), k);
    SlotInRing(base, i, k);
    assert Apart(a, |p|, x, 4);
    WordAfterWrite(m, a, p, x);
  }

  lemma HeaderWriteKeepsWord(m: Ram, base: Addr, i: Slot, h: Bytes, j: Slot, k: int)
    requires |h| == 8 && k in {0, 8, 12} && (i != j || k != 0)
    ensures Word(WriteBytes(m, SlotAddr(base, i), h), At(SlotAddr(base, j), k)) ==
            Word(m, At(SlotAddr(base, j), k))
  {
    hide Word, WriteBytes;
    WordAfterWrite(m, SlotAddr(base, i), h, At(SlotAddr(base, j), k));
  }

  lemma HeaderWritten(m: Ram, a: Addr, v: u32)
    ensures Word(WriteBytes(m, a, Bytes32(v) + Bytes32(0)), a) == v
    ensures Word(WriteBytes(m, a, Bytes32(v) + Bytes32(0)), At(a, 4)) == 0
  {
    hide WriteBytes, Peek;
    var h := Bytes32(v) + Bytes32(0);
    forall i | 0 <= i < 8
      ensures Peek(WriteBytes(m, a, h), At(a, i)) == h[i]
    {
      PeekWritten(m, a, h, At(a, i));
    }
    assert At(a, 0) == a;
    assert At(At(a, 4), 0) == At(a, 4) && At(At(a, 4), 1) == At(a, 5)
           && At(At(a, 4), 2) == At(a, 6) && At(At(a, 4), 3) == At(a, 7);
    JoinBytes32(v);
  }

  /** A delivery rewrites opts1 and opts2 of its own slot and no other descriptor word. */
  lemma DeliverWords(m: Ram, base: Addr, i: Slot, p: Packet, j: Slot)
    requires OffRingBuffer(m, base, i, |p|)
    ensures var m' := Deliver(m, base, i, p);
            && Opts1(m', base, j) == (if i == j then RxOpts1(Eor(m, base, i), |p|) else Opts1(m, base, j))
            && Buffer(m', base, j) == Buffer(m, base, j)
            && (i == j ==> Word(m', At(SlotAddr(base, j), 4)) == 0)
  {
    hide Word, WriteBytes, SlotAddr, Eor, RxOpts1, Apart;
    var m1, h := WriteBytes(m, Buffer(m, base, i), p), Header(Eor(m, base, i), |p|);
    assert At(SlotAddr(base, j), 0) == SlotAddr(base, j);
    BufferWriteKeepsRing(m, base, Buffer(m, base, i), p, j, 0);
    BufferWriteKeepsRing(m, base, Buffer(m, base, i), p, j, 8);
    BufferWriteKeepsRing(m, base, Buffer(m, base, i), p, j, 12);
    HeaderWriteKeepsWord(m1, base, i, h, j, 8);
    HeaderWriteKeepsWord(m1, base, i, h, j, 12);
    if i == j {
      HeaderWritten(m1, SlotAddr(base, i), RxOpts1(Eor(m, base, i), |p|));
    } else {
      HeaderWriteKeepsWord(m1, base, i, h, j, 0);
    }
  }

  /** The buffer holds the packet; bytes outside it and the eight header bytes are untouched. */
  lemma DeliverBytes(m: Ram, base: Addr, i: Slot, p: Packet, x: Addr)
    requires OffRingBuffer(m, base, i, |p|)
    ensures var m', b := Deliver(m, base, i, p), Buffer(m, base, i);
            && ReadBytes(m', b, |p|) == p
            && (Offset(b, x) >= |p| && Offset(SlotAddr(base, i), x) >= 8 ==> Peek(m', x) == Peek(m, x))
  {
    hide Word, WriteBytes, Eor, RxOpts1, Peek;
    var b, h := Buffer(m, base, i), Header(Eor(m, base, i), |p|);
    var m1 := WriteBytes(m, b, p);
    ReadWritten(m, b, p);
    if p == [] {
      assert ReadBytes(Deliver(m, base, i, p), b, 0) == p;
    } else {
      SlotInRing(base, i, 0);
      assert At(SlotAddr(base, i), 0) == SlotAddr(base, i);
      assert Apart(SlotAddr(base, i), 8, b, |p|);
      ReadElsewhere(m1, SlotAddr(base, i), h, b, |p|);
    }
    PeekWritten(m, b, p, x);
    PeekWritten(m1, SlotAddr(base, i), h, x);
  }

  // ---- one packet ----

  predicate Accepts(s: State) {
    RxOpen(s) && Owned(s.ram, s.rxBase, s.rxCur)
  }

  /** A packet that is not accepted changes no guest memory and does not move the ring. */
  lemma RejectedChangesNothing(s: State, p: Packet)
    requires !Accepts(s)
    ensures var r := Receive(s, p);
            && r.code == (if RxOpen(s) then 0 else -1)
            && r.state == (if RxOpen(s) then s.(intr := SetIntr(s.intr, INTR_RDU)) else s)
            && r.state.ram == s.ram && r.state.rxCur == s.rxCur
  {
  }

  function OwnedSlots(m: Ram, base: Addr): set<Slot> {
    set i | i in SLOTS && Owned(m, base, i)
  }

  lemma AcceptedTakesOneSlot(s: State, p: Packet)
    requires Accepts(s) && OffRingBuffer(s.ram, s.rxBase, s.rxCur, |p|)
    ensures var r := Receive(s, p);
            && r.code == |p|
            && r.state.rxCur == V.After(V.Opts(s.ram, s.rxBase, s.rxCur), s.rxCur)
            && V.Reports(V.Opts(r.state.ram, s.rxBase, s.rxCur), V.Opts(s.ram, s.rxBase, s.rxCur), |p|)
            && V.Load(r.state.ram, At(s.rxBase, 16 * s.rxCur + 4)) == 0
            && ReadBytes(r.state.ram, V.BufferOf(s.ram, s.rxBase, s.rxCur), |p|) == p
            && r.state.intr.status == s.intr.status | 0x0001
            && OwnedSlots(r.state.ram, s.rxBase) == OwnedSlots(s.ram, s.rxBase) - {s.rxCur}
            && |OwnedSlots(r.state.ram, s.rxBase)| == |OwnedSlots(s.ram, s.rxBase)| - 1
  {
    hide Deliver, Opts1, RxOpts1, OffRingBuffer, V.Opts, V.After, V.Reports, V.Load, V.BufferOf, ReadBytes, Word;
    var m' := Deliver(s.ram, s.rxBase, s.rxCur, p);
    DeliveredView(s.ram, s.rxBase, s.rxCur, p);
    V.NextView(s.ram, s.rxBase, s.rxCur);
    ReportedLength(Eor(s.ram, s.rxBase, s.rxCur), |p|);
    forall j: Slot ensures Owned(m', s.rxBase, j) == (j != s.rxCur && Owned(s.ram, s.rxBase, j)) {
      DeliverWords(s.ram, s.rxBase, s.rxCur, p, j);
    }
    assert IsSlot(s.rxCur);
  }

  lemma HeaderView(m: Ram, base: Addr, i: Slot, size: nat)
    ensures V.Reports(RxOpts1(Eor(m, base, i), size), V.Opts(m, base, i), size)
  {
    hide V.Opts, Opts1, RxOpts1, Eor;
    ReportedLength(Eor(m, base, i), size);
    V.DescriptorView(m, base, i);
  }

  lemma DeliveredView(m: Ram, base: Addr, i: Slot, p: Packet)
    requires OffRingBuffer(m, base, i, |p|)
    ensures var m' := Deliver(m, base, i, p);
            && V.Reports(V.Opts(m', base, i), V.Opts(m, base, i), |p|)
            && V.Load(m', At(base, 16 * i + 4)) == 0
            && ReadBytes(m', V.BufferOf(m, base, i), |p|) == p
  {
    hide Deliver, Opts1, RxOpts1, OffRingBuffer, V.Opts, V.Reports, V.Load, V.BufferOf, ReadBytes, Word;
    var m' := Deliver(m, base, i, p);
    DeliverWords(m, base, i, p, i);
    DeliverBytes(m, base, i, p, base);
    V.DescriptorView(m, base, i);
    V.DescriptorView(m', base, i);
    HeaderView(m, base, i, |p|);
    V.SlotView(base, i, 4);
    V.WordView(m', At(SlotAddr(base, i), 4));
  }

  // ---- runs of packets ----

  function ReceiveAll(s: State, ps: seq<Packet>): State
    decreases |ps|
  {
    if ps == [] then s else ReceiveAll(Receive(s, ps[0]).state, ps[1..])
  }

  function AcceptedCount(s: State, ps: seq<Packet>): nat
    decreases |ps|
  {
    if ps == [] then 0
    else (if Accepts(s) then 1 else 0) + AcceptedCount(Receive(s, ps[0]).state, ps[1..])
  }

  function Min(a: nat, b: nat): nat {
    if a < b then a else b
  }

  /** m is m0 after the slots of `done` were filled: same ring shape, fewer free slots. */
  ghost predicate Filled(m0: Ram, m: Ram, base: Addr, done: seq<Slot>) {
    forall j: Slot ::
      && Eor(m, base, j) == Eor(m0, base, j)
      && Buffer(m, base, j) == Buffer(m0, base, j)
      && Owned(m, base, j) == (j !in done && Owned(m0, base, j))
  }

  predicate BuffersClear(m: Ram, base: Addr, path: seq<Slot>, n: nat) {
    forall i | i in path :: OffRingBuffer(m, base, i, n)
  }

  predicate AtMost(ps: seq<Packet>, n: nat) {
    forall p | p in ps :: |p| <= n
  }

  lemma FilledStep(m0: Ram, m: Ram, base: Addr, done: seq<Slot>, i: Slot, p: Packet)
    requires Filled(m0, m, base, done) && Owned(m, base, i) && OffRingBuffer(m0, base, i, |p|)
    ensures Filled(m0, Deliver(m, base, i, p), base, done + [i])
    ensures NextSlot(m, base, i) == NextSlot(m0, base, i)
  {
    hide Deliver, Opts1, RxOpts1, Apart, Buffer;
    ReportedLength(Eor(m, base, i), |p|);
    forall j: Slot
      ensures var m' := Deliver(m, base, i, p);
              && Eor(m', base, j) == Eor(m0, base, j)
              && Buffer(m', base, j) == Buffer(m0, base, j)
              && Owned(m', base, j) == (j !in done + [i] && Owned(m0, base, j))
    {
      DeliverWords(m, base, i, p, j);
    }
  }

  lemma FilledAtStart(m: Ram, base: Addr)
    ensures Filled(m, m, base, [])
  {
    hide Eor, Buffer, Owned;
  }

  /** The slots a run of packets fills: as much of the walk as there are packets. */
  function Taken(m0: Ram, done: seq<Slot>, s: State, ps: seq<Packet>): (t: seq<Slot>)
    ensures |t| <= |ps|
  {
    var path := RingPath(m0, s.rxBase, s.rxCur, Elems(done));
    path[..Min(|ps|, |path|)]
  }

  ghost predicate RunCounted(m0: Ram, taken: seq<Slot>, s: State, ps: seq<Packet>, s': State) {
    && AcceptedCount(s, ps) == |taken|
    && s'.rxBase == s.rxBase && s'.rxCur == RingEnd(m0, s.rxBase, s.rxCur, taken)
  }

  /** The i-th packet landed on the i-th taken slot; no other slot's opts1 changed. */
  ghost predicate RunWords(m0: Ram, taken: seq<Slot>, base: Addr, m: Ram, ps: seq<Packet>, m': Ram)
    requires |taken| <= |ps|
  {
    && (forall j: Slot | j !in taken :: Opts1(m', base, j) == Opts1(m, base, j))
    && (forall i | 0 <= i < |taken| :: Opts1(m', base, taken[i]) == RxOpts1(Eor(m0, base, taken[i]), |ps[i]|))
  }

  ghost predicate RunLanded(m0: Ram, done: seq<Slot>, s: State, ps: seq<Packet>) {
    var taken, s' := Taken(m0, done, s, ps), ReceiveAll(s, ps);
    RunCounted(m0, taken, s, ps, s') && RunWords(m0, taken, s.rxBase, s.ram, ps, s'.ram)
  }

  lemma NoneAccepted(s: State, ps: seq<Packet>)
    requires RxOpen(s) && !Owned(s.ram, s.rxBase, s.rxCur)
    ensures AcceptedCount(s, ps) == 0
    ensures var s' := ReceiveAll(s, ps); s'.ram == s.ram && s'.rxCur == s.rxCur && s'.rxBase == s.rxBase
    decreases |ps|
  {
    hide Owned;
    if ps == [] {
    } else {
      NoneAccepted(Receive(s, ps[0]).state, ps[1..]);
    }
  }

  lemma AcceptedState(s: State, p: Packet)
    requires Accepts(s)
    ensures var s1 := Receive(s, p).state;
            && s1.ram == Deliver(s.ram, s.rxBase, s.rxCur, p)
            && s1.rxCur == NextSlot(s.ram, s.rxBase, s.rxCur)
            && s1.rxBase == s.rxBase && RxOpen(s1)
  {
    hide Deliver, Owned, NextSlot, Bit;
  }

  lemma {:induction false} RunFollowsRing(m0: Ram, done: seq<Slot>, s: State, ps: seq<Packet>, n: nat)
    requires RxOpen(s) && Filled(m0, s.ram, s.rxBase, done)
    requires BuffersClear(m0, s.rxBase, RingPath(m0, s.rxBase, s.rxCur, Elems(done)), n) && AtMost(ps, n)
    ensures RunLanded(m0, done, s, ps)
    decreases |ps|
  {
    hide RxOpen, Deliver, Owned, Eor, NextSlot, Opts1, RxOpts1, RingPath, RingEnd, OffRingBuffer, Receive;
    var base, cur := s.rxBase, s.rxCur;
    var path := RingPath(m0, base, cur, Elems(done));
    if ps == [] {
      EmptyWalk(m0, base, cur);
      assert path[..0] == [];
    } else if cur in done || !Owned(m0, base, cur) {
      NoneAccepted(s, ps);
      WalkOver(m0, base, done, cur);
      EmptyWalk(m0, base, cur);
      assert path[..0] == [];
    } else {
      AcceptedState(s, ps[0]);
      PathStep(m0, base, done, cur);
      var s1, next := Receive(s, ps[0]).state, NextSlot(m0, base, cur);
      var q := RingPath(m0, base, next, Elems(done + [cur]));
      assert path[0] == cur;
      SmallerBuffer(m0, base, cur, |ps[0]|, n);
      FilledStep(m0, s.ram, base, done, cur, ps[0]);
      assert BuffersClear(m0, base, q, n) by {
        forall i | i in q ensures OffRingBuffer(m0, base, i, n) { assert i in path; }
      }
      RunFollowsRing(m0, done + [cur], s1, ps[1..], n);
      LandOne(m0, done, s, ps);
    }
  }

  lemma EmptyWalk(m: Ram, base: Addr, cur: Slot)
    ensures RingEnd(m, base, cur, []) == cur
  {
  }

  lemma WalkOver(m: Ram, base: Addr, done: seq<Slot>, cur: Slot)
    requires cur in done || !Owned(m, base, cur)
    ensures RingPath(m, base, cur, Elems(done)) == []
  {
  }

  lemma SmallerBuffer(m: Ram, base: Addr, i: Slot, k: nat, n: nat)
    requires k <= n && OffRingBuffer(m, base, i, n)
    ensures OffRingBuffer(m, base, i, k)
  {
  }

  lemma EndCons(m: Ram, base: Addr, cur: Slot, q: seq<Slot>)
    ensures RingEnd(m, base, cur, [cur] + q) == RingEnd(m, base, NextSlot(m, base, cur), q)
  {
    hide NextSlot;
  }

  lemma TakenCons(m0: Ram, done: seq<Slot>, s: State, ps: seq<Packet>, s1: State)
    requires ps != [] && s.rxCur !in done && Owned(m0, s.rxBase, s.rxCur)
    requires s1.rxBase == s.rxBase && s1.rxCur == NextSlot(m0, s.rxBase, s.rxCur)
    ensures var q := Taken(m0, done + [s.rxCur], s1, ps[1..]);
            Taken(m0, done, s, ps) == [s.rxCur] + q && s.rxCur !in q
  {
    hide Owned, NextSlot, RingPath;
    PathStep(m0, s.rxBase, done, s.rxCur);
    PathShape(m0, s1.rxBase, s1.rxCur, Elems(done + [s.rxCur]));
  }

  lemma WordsCons(m0: Ram, cur: Slot, q: seq<Slot>, base: Addr, m: Ram, ps: seq<Packet>, m1: Ram, m': Ram)
    requires |q| < |ps| && cur !in q
    requires RunWords(m0, q, base, m1, ps[1..], m') && RunWords(m0, [cur], base, m, ps, m1)
    ensures RunWords(m0, [cur] + q, base, m, ps, m')
  {
    hide Opts1, RxOpts1, Eor;
    var t := [cur] + q;
    forall j: Slot | j !in t ensures Opts1(m', base, j) == Opts1(m, base, j) {
      assert j !in q && j !in [cur];
    }
    forall i | 0 <= i < |t| ensures Opts1(m', base, t[i]) == RxOpts1(Eor(m0, base, t[i]), |ps[i]|) {
      if i == 0 {
        assert [cur][0] == t[0];
      } else {
        assert t[i] == q[i - 1] && ps[i] == ps[1..][i - 1];
      }
    }
  }

  lemma LandOne(m0: Ram, done: seq<Slot>, s: State, ps: seq<Packet>)
    requires ps != [] && s.rxCur !in done && Owned(m0, s.rxBase, s.rxCur)
    requires RxOpen(s) && Filled(m0, s.ram, s.rxBase, done) && OffRingBuffer(m0, s.rxBase, s.rxCur, |ps[0]|)
    requires RunLanded(m0, done + [s.rxCur], Receive(s, ps[0]).state, ps[1..])
    ensures RunLanded(m0, done, s, ps)
  {
    hide RxOpen, Deliver, Owned, Eor, NextSlot, Opts1, RxOpts1, RingPath, RingEnd, Receive, Apart, Buffer, Taken;
    var base, cur, s1 := s.rxBase, s.rxCur, Receive(s, ps[0]).state;
    AcceptedState(s, ps[0]);
    FilledStep(m0, s.ram, base, done, cur, ps[0]);
    TakenCons(m0, done, s, ps, s1);
    var q := Taken(m0, done + [cur], s1, ps[1..]);
    EndCons(m0, base, cur, q);
    forall j: Slot
      ensures Opts1(s1.ram, base, j) ==
              if j == cur then RxOpts1(Eor(m0, base, cur), |ps[0]|) else Opts1(s.ram, base, j)
    {
      DeliverWords(s.ram, base, cur, ps[0], j);
    }
    assert RunWords(m0, [cur], base, s.ram, ps, s1.ram);
    WordsCons(m0, cur, q, base, s.ram, ps, s1.ram, ReceiveAll(s, ps).ram);
  }

  /** What a run of packets does to a ring whose walk is `path`, in the model's terms and the driver's. */
  ghost predicate RingFilled(s: State, ps: seq<Packet>, path: seq<Slot>) {
    var taken, s' := path[..Min(|ps|, |path|)], ReceiveAll(s, ps);
    && Distinct(path) && AcceptedCount(s, ps) == |taken|
    && s'.rxCur == RingEnd(s.ram, s.rxBase, s.rxCur, taken)
    && RunWords(s.ram, taken, s.rxBase, s.ram, ps, s'.ram)
    && V.FullWalk(s.ram, s.rxBase, s.rxCur, path)
    && s'.rxCur == V.EndOf(s.ram, s.rxBase, s.rxCur, taken)
    && WordsReport(s.ram, taken, s.rxBase, ps, s'.ram)
  }

  /**
   * Between refills the packets accepted are the first min(packets, free slots ahead): they land
   * one per slot in ring order, keep EOR, report size + 4, and every other slot is left alone.
   */
  lemma ReceivesFollowRing(s: State, ps: seq<Packet>, n: nat)
    requires RxOpen(s) && AtMost(ps, n)
    requires BuffersClear(s.ram, s.rxBase, RingPath(s.ram, s.rxBase, s.rxCur, {}), n)
    ensures RingFilled(s, ps, RingPath(s.ram, s.rxBase, s.rxCur, {}))
  {
    hide V.FullWalk, V.EndOf, WordsReport, RxOpen, Owned, Eor, Opts1, RxOpts1, RingPath, RingEnd, Buffer, ReceiveAll,
         AcceptedCount, BuffersClear, RunWords;
    assert Elems([]) == {};
    FilledAtStart(s.ram, s.rxBase);
    RunFollowsRing(s.ram, [], s, ps, n);
    PathShape(s.ram, s.rxBase, s.rxCur, {});
    V.PathView(s.ram, s.rxBase, s.rxCur);
    var path := RingPath(s.ram, s.rxBase, s.rxCur, {});
    RunReports(s.ram, path[..Min(|ps|, |path|)], s.rxBase, ps, ReceiveAll(s, ps).ram);
  }

  /** The same in the driver's terms: each taken slot's first word reports its packet, the others are as before. */
  ghost predicate WordsReport(m: Ram, taken: seq<Slot>, base: Addr, ps: seq<Packet>, m': Ram)
    requires |taken| <= |ps|
  {
    && (forall j: Slot | j !in taken :: V.Opts(m', base, j) == V.Opts(m, base, j))
    && (forall i | 0 <= i < |taken| ::
          V.Reports(V.Opts(m', base, taken[i]), V.Opts(m, base, taken[i]), |ps[i]|))
  }

  lemma RunReports(m: Ram, taken: seq<Slot>, base: Addr, ps: seq<Packet>, m': Ram)
    requires |taken| <= |ps| && RunWords(m, taken, base, m, ps, m')
    ensures WordsReport(m, taken, base, ps, m')
  {
    hide V.Opts, V.Reports, Opts1, RxOpts1, Eor, Owned, Buffer;
    forall j: Slot ensures Opts1(m', base, j) == V.Opts(m', base, j) && Opts1(m, base, j) == V.Opts(m, base, j) {
      V.DescriptorView(m, base, j);
      V.DescriptorView(m', base, j);
    }
    forall i | 0 <= i < |taken|
      ensures V.Reports(V.Opts(m', base, taken[i]), V.Opts(m, base, taken[i]), |ps[i]|)
    {
      HeaderView(m, base, taken[i], |ps[i]|);
    }
  }

  /**
   * A run of packets in the driver's terms alone: enabled, they fill the ring's one full walk from its
   * start, one slot each while there are any, and rx_cur goes on behind the last.
   */
  lemma PacketsFillTheWalk(s: State, ps: seq<Packet>, n: nat, p: seq<Slot>)
    requires V.RxEnabled(s) && AtMost(ps, n) && V.FullWalk(s.ram, s.rxBase, s.rxCur, p)
    requires forall i | i in p :: Apart(s.rxBase, 0x1000, V.BufferOf(s.ram, s.rxBase, i), n)
    ensures var taken, s' := p[..Min(|ps|, |p|)], ReceiveAll(s, ps);
            && AcceptedCount(s, ps) == |taken|
            && s'.rxCur == V.EndOf(s.ram, s.rxBase, s.rxCur, taken)
            && WordsReport(s.ram, taken, s.rxBase, ps, s'.ram)
  {
    hide V.FullWalk, V.EndOf, V.Opts, V.BufferOf, RingPath, RxOpen, Apart, WordsReport, ReceiveAll, AcceptedCount,
         RunWords, RingEnd;
    V.EnabledView(s);
    V.PathView(s.ram, s.rxBase, s.rxCur);
    V.OneFullWalk(s.ram, s.rxBase, s.rxCur, p, RingPath(s.ram, s.rxBase, s.rxCur, {}));
    forall i | i in p ensures OffRingBuffer(s.ram, s.rxBase, i, n) {
      V.DescriptorView(s.ram, s.rxBase, i);
    }
    ReceivesFollowRing(s, ps, n);
  }

  /** What a packet meets in the driver's terms: a closed device, no descriptor given, or one. */
  lemma PacketOutcome(s: State, p: Packet)
    ensures var r, given := Receive(s, p), V.Given(V.Opts(s.ram, s.rxBase, s.rxCur));
            && (!V.RxEnabled(s) ==> r.code == -1 && r.state == s)
            && (V.RxEnabled(s) && !given ==>
                  r.code == 0 && r.state.ram == s.ram && r.state.intr.status == s.intr.status | 0x0010)
            && (V.RxEnabled(s) && given ==> r.code == |p| && r.state.intr.status == s.intr.status | 0x0001)
            && (Accepts(s) <==> V.RxEnabled(s) && given)
  {
    hide V.Opts, Opts1, Deliver, NextSlot;
    V.EnabledView(s);
    V.DescriptorView(s.ram, s.rxBase, s.rxCur);
  }

  /** Conservation: each accepted packet uses up one owned descriptor, whatever the packets. */
  lemma {:induction false} AcceptedNeverExceedOwned(s: State, ps: seq<Packet>, n: nat)
    requires AtMost(ps, n) && forall i | i in OwnedSlots(s.ram, s.rxBase) :: OffRingBuffer(s.ram, s.rxBase, i, n)
    ensures |OwnedSlots(ReceiveAll(s, ps).ram, s.rxBase)| + AcceptedCount(s, ps) == |OwnedSlots(s.ram, s.rxBase)|
    decreases |ps|
  {
    hide RxOpen, Owned, Buffer, Deliver, Apart;
    if ps == [] {
    } else {
      var s1 := Receive(s, ps[0]).state;
      if Accepts(s) {
        assert IsSlot(s.rxCur) && s.rxCur in OwnedSlots(s.ram, s.rxBase);
        SmallerBuffer(s.ram, s.rxBase, s.rxCur, |ps[0]|, n);
        AcceptedState(s, ps[0]);
        AcceptedTakesOneSlot(s, ps[0]);
        forall i | i in OwnedSlots(s1.ram, s.rxBase) ensures OffRingBuffer(s1.ram, s.rxBase, i, n) {
          DeliverWords(s.ram, s.rxBase, s.rxCur, ps[0], i);
        }
      } else {
        RejectedChangesNothing(s, ps[0]);
        assert s1.rxBase == s.rxBase;
      }
      AcceptedNeverExceedOwned(s1, ps[1..], n);
    }
  }

  // ---- payloads ----

  /** Every slot ahead has its own buffer, off the ring and off every other one. */
  predicate BuffersSeparate(m: Ram, base: Addr, path: seq<Slot>, n: nat) {
    && BuffersClear(m, base, path, n)
    && forall i, j | i in path && j in path && i != j :: Apart(Buffer(m, base, i), n, Buffer(m, base, j), n)
  }

  /** Bytes off the ring and off every buffer ahead survive a run of packets. */
  lemma {:induction false} RunKeepsBytes(m0: Ram, done: seq<Slot>, s: State, ps: seq<Packet>, n: nat, x: Addr)
    requires RxOpen(s) && Filled(m0, s.ram, s.rxBase, done) && AtMost(ps, n)
    requires BuffersClear(m0, s.rxBase, RingPath(m0, s.rxBase, s.rxCur, Elems(done)), n)
    requires Offset(s.rxBase, x) >= RING_BYTES
    requires forall i | i in RingPath(m0, s.rxBase, s.rxCur, Elems(done)) :: Offset(Buffer(m0, s.rxBase, i), x) >= n
    ensures Peek(ReceiveAll(s, ps).ram, x) == Peek(s.ram, x)
    decreases |ps|
  {
    hide RxOpen, Deliver, Owned, Eor, NextSlot, RingPath, OffRingBuffer, Receive, Buffer, Peek;
    var base, cur := s.rxBase, s.rxCur;
    if ps == [] {
    } else if cur in done || !Owned(m0, base, cur) {
      NoneAccepted(s, ps);
    } else {
      AcceptedState(s, ps[0]);
      PathStep(m0, base, done, cur);
      var path := RingPath(m0, base, cur, Elems(done));
      var q := RingPath(m0, base, NextSlot(m0, base, cur), Elems(done + [cur]));
      assert path[0] == cur && forall i | i in q :: i in path;
      SmallerBuffer(m0, base, cur, |ps[0]|, n);
      FilledStep(m0, s.ram, base, done, cur, ps[0]);
      OffHeader(base, cur, x);
      SameBuffer(m0, s.ram, base, cur, |ps[0]|);
      DeliverBytes(s.ram, base, cur, ps[0], x);
      RunKeepsBytes(m0, done + [cur], Receive(s, ps[0]).state, ps[1..], n, x);
    }
  }

  lemma OffHeader(base: Addr, j: Slot, x: Addr)
    requires Offset(base, x) >= RING_BYTES
    ensures Offset(SlotAddr(base, j), x) >= 8
  {
  }

  lemma SameBuffer(m0: Ram, m: Ram, base: Addr, i: Slot, n: nat)
    requires Buffer(m, base, i) == Buffer(m0, base, i) && OffRingBuffer(m0, base, i, n)
    ensures OffRingBuffer(m, base, i, n)
  {
    hide Buffer, Apart;
  }

  /** No later packet disturbs the buffer of the slot just filled. */
  lemma LaterPacketsMiss(m0: Ram, done: seq<Slot>, cur: Slot, s1: State, ps: seq<Packet>, n: nat, len: nat)
    requires RxOpen(s1) && Filled(m0, s1.ram, s1.rxBase, done + [cur]) && AtMost(ps, n) && len <= n < TWO64
    requires var q := RingPath(m0, s1.rxBase, s1.rxCur, Elems(done + [cur]));
             cur !in q && BuffersSeparate(m0, s1.rxBase, [cur] + q, n)
    ensures var b := Buffer(m0, s1.rxBase, cur);
            ReadBytes(ReceiveAll(s1, ps).ram, b, len) == ReadBytes(s1.ram, b, len)
  {
    hide RxOpen, Owned, Eor, RingPath, Buffer, Peek, ReceiveAll, AtMost;
    var base, b := s1.rxBase, Buffer(m0, s1.rxBase, cur);
    var q := RingPath(m0, base, s1.rxCur, Elems(done + [cur]));
    assert BuffersClear(m0, base, q, n) by {
      forall i | i in q ensures OffRingBuffer(m0, base, i, n) { assert i in [cur] + q; }
    }
    assert cur in [cur] + q;
    assert OffRingBuffer(m0, base, cur, n);
    forall k | 0 <= k < len
      ensures Peek(ReceiveAll(s1, ps).ram, At(b, k)) == Peek(s1.ram, At(b, k))
    {
      ApartBytes(base, RING_BYTES, b, n, k);
      forall i | i in q ensures Offset(Buffer(m0, base, i), At(b, k)) >= n {
        assert i in [cur] + q && i != cur;
        assert Apart(Buffer(m0, base, i), n, b, n);
        ApartBytes(Buffer(m0, base, i), n, b, n, k);
      }
      RunKeepsBytes(m0, done + [cur], s1, ps, n, At(b, k));
    }
  }

  /** Each accepted packet is found, after the whole run, in the buffer of its own slot. */
  lemma {:induction false} PayloadsLand(m0: Ram, done: seq<Slot>, s: State, ps: seq<Packet>, n: nat, i: nat)
    requires RxOpen(s) && Filled(m0, s.ram, s.rxBase, done) && AtMost(ps, n) && n < TWO64
    requires BuffersSeparate(m0, s.rxBase, RingPath(m0, s.rxBase, s.rxCur, Elems(done)), n)
    requires i < |Taken(m0, done, s, ps)|
    ensures ReadBytes(ReceiveAll(s, ps).ram, Buffer(m0, s.rxBase, Taken(m0, done, s, ps)[i]), |ps[i]|) == ps[i]
    decreases |ps|
  {
    hide RxOpen, Deliver, Owned, Eor, NextSlot, RingPath, Apart, Receive, Buffer, ReadBytes, Taken;
    var base, cur := s.rxBase, s.rxCur;
    if cur in done || !Owned(m0, base, cur) {
      TakenNone(m0, done, s, ps);
    } else {
      AcceptedState(s, ps[0]);
      PathStep(m0, base, done, cur);
      PathShape(m0, base, cur, Elems(done));
      var path, s1 := RingPath(m0, base, cur, Elems(done)), Receive(s, ps[0]).state;
      var q := RingPath(m0, base, NextSlot(m0, base, cur), Elems(done + [cur]));
      assert path == [cur] + q && path[0] == cur && (forall j | j in q :: j in path);
      PathShape(m0, base, NextSlot(m0, base, cur), Elems(done + [cur]));
      assert cur in Elems(done + [cur]);
      SmallerBuffer(m0, base, cur, |ps[0]|, n);
      SameBuffer(m0, s.ram, base, cur, |ps[0]|);
      FilledStep(m0, s.ram, base, done, cur, ps[0]);
      TakenCons(m0, done, s, ps, s1);
      if i == 0 {
        DeliverBytes(s.ram, base, cur, ps[0], base);
        LaterPacketsMiss(m0, done, cur, s1, ps[1..], n, |ps[0]|);
      } else {
        PayloadsLand(m0, done + [cur], s1, ps[1..], n, i - 1);
      }
    }
  }

  lemma TakenNone(m0: Ram, done: seq<Slot>, s: State, ps: seq<Packet>)
    requires s.rxCur in done || !Owned(m0, s.rxBase, s.rxCur)
    ensures Taken(m0, done, s, ps) == []
  {
    hide Owned;
    WalkOver(m0, s.rxBase, done, s.rxCur);
  }

  /** Between refills every accepted packet stays intact in the buffer of its slot. */
  lemma ReceivesKeepPayloads(s: State, ps: seq<Packet>, n: nat, i: nat)
    requires RxOpen(s) && AtMost(ps, n) && n < TWO64
    requires BuffersSeparate(s.ram, s.rxBase, RingPath(s.ram, s.rxBase, s.rxCur, {}), n)
    requires i < |ps| && i < |RingPath(s.ram, s.rxBase, s.rxCur, {})|
    ensures var path := RingPath(s.ram, s.rxBase, s.rxCur, {});
            ReadBytes(ReceiveAll(s, ps).ram, Buffer(s.ram, s.rxBase, path[i]), |ps[i]|) == ps[i]
  {
    hide RxOpen, Owned, Eor, RingPath, Buffer, ReceiveAll, BuffersSeparate, ReadBytes, AtMost, Filled;
    assert Elems([]) == {};
    FilledAtStart(s.ram, s.rxBase);
    PayloadsLand(s.ram, [], s, ps, n, i);
  }
}
