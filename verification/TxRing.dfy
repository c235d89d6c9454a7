/** One transmit pass, compared with a walk of the ring that never writes and never counts. */
module TxRing {
  import opened Words
  import opened GuestRam
  import opened Nic
  import opened Rings
  import V = GuestView

  function ClearAll(m: Ram, base: Addr, path: seq<Slot>): Ram
    decreases |path|
  {
    if path == [] then m
    else ClearOwn(ClearAll(m, base, path[..|path| - 1]), base, path[|path| - 1])
  }

  /** Frames of `path` in order, each read when the slots of `done` are already cleared. */
  function Frames(m: Ram, base: Addr, done: seq<Slot>, path: seq<Slot>): seq<Bytes>
    decreases |path|
  {
    if path == [] then []
    else FrameOf(ClearAll(m, base, done), base, path[0]) + Frames(m, base, done + [path[0]], path[1..])
  }

  /** What clearing OWN leaves in opts1: the EOR bit alone. */
  function OwnCleared(opts1: u32): u32 {
    if Bit(opts1, TWO30) then TWO30 else 0
  }

  lemma ClearOwnWords(m: Ram, base: Addr, i: Slot, j: Slot)
    ensures Opts1(ClearOwn(m, base, i), base, j) ==
            if j == i then OwnCleared(Opts1(m, base, i)) else Opts1(m, base, j)
  {
    var v := if Eor(m, base, i) then TWO30 else 0;
    if i == j {
      WordWritten(m, SlotAddr(base, i), v);
    } else {
      SlotsApart(base, i, j);
      WordAfterWrite(m, SlotAddr(base, i), Bytes32(v), SlotAddr(base, j));
    }
  }

  lemma OwnClearedTwice(w: u32)
    ensures OwnCleared(w) < TWO31 && OwnCleared(OwnCleared(w)) == OwnCleared(w)
  {
  }

  lemma ClearOwnBytes(m: Ram, base: Addr, i: Slot, x: Addr)
    requires OutsideOpts1(base, i, x)
    ensures Peek(ClearOwn(m, base, i), x) == Peek(m, x)
  {
    PeekWritten(m, SlotAddr(base, i), Bytes32(if Eor(m, base, i) then TWO30 else 0), x);
  }

  /** Clearing touches the opts1 words of the path and no other byte of memory. */
  lemma {:induction false} ClearAllBytes(m: Ram, base: Addr, path: seq<Slot>, x: Addr)
    requires forall i | i in path :: OutsideOpts1(base, i, x)
    ensures Peek(ClearAll(m, base, path), x) == Peek(m, x)
    decreases |path|
  {
    hide OutsideOpts1, ClearOwn, Peek;
    if path == [] {
    } else {
      var init, last := path[..|path| - 1], path[|path| - 1];
      ClearAllBytes(m, base, init, x);
      ClearOwnBytes(ClearAll(m, base, init), base, last, x);
    }
  }

  /** Slots of the path keep their EOR bit and nothing else of opts1; the others keep all of it. */
  lemma {:induction false} ClearAllWords(m: Ram, base: Addr, path: seq<Slot>, j: Slot)
    ensures Opts1(ClearAll(m, base, path), base, j) ==
            if j in path then OwnCleared(Opts1(m, base, j)) else Opts1(m, base, j)
    decreases |path|
  {
    hide Opts1, ClearOwn, OwnCleared;
    if path == [] {
    } else {
      var init, last := path[..|path| - 1], path[|path| - 1];
      OwnClearedTwice(Opts1(m, base, j));
      ClearAllWords(m, base, init, j);
      ClearAllWords(m, base, init, last);
      ClearOwnWords(ClearAll(m, base, init), base, last, j);
      assert path == init + [last];
    }
  }

  lemma LoopStops(t: TxProgress, base: Addr, n: nat)
    requires !Owned(t.ram, base, t.cur)
    ensures TxLoop(t, base, n) == t
  {
  }

  lemma LoopOut(t: TxProgress, base: Addr)
    ensures TxLoop(t, base, 0) == t
  {
  }

  lemma LoopStep(t: TxProgress, base: Addr, n: nat)
    requires Owned(t.ram, base, t.cur) && n > 0
    ensures TxLoop(t, base, n) ==
            TxLoop(TxProgress(ClearOwn(t.ram, base, t.cur), NextSlot(t.ram, base, t.cur),
                              t.sent + FrameOf(t.ram, base, t.cur)), base, n - 1)
  {
  }

  lemma NextAfterClear(m: Ram, base: Addr, done: seq<Slot>, i: Slot)
    requires i !in done
    ensures NextSlot(ClearAll(m, base, done), base, i) == NextSlot(m, base, i)
    ensures Owned(ClearAll(m, base, done), base, i) == Owned(m, base, i)
  {
    hide Opts1;
    ClearAllWords(m, base, done, i);
  }

  lemma DoneNotOwned(m: Ram, base: Addr, done: seq<Slot>, i: Slot)
    requires i in done
    ensures !Owned(ClearAll(m, base, done), base, i)
  {
    hide Opts1, OwnCleared;
    ClearAllWords(m, base, done, i);
    OwnClearedTwice(Opts1(m, base, i));
  }

  lemma ClearSnoc(m: Ram, base: Addr, done: seq<Slot>, i: Slot)
    ensures ClearAll(m, base, done + [i]) == ClearOwn(ClearAll(m, base, done), base, i)
  {
    hide ClearOwn;
    assert (done + [i])[..|done|] == done;
  }

  lemma FramesCons(m: Ram, base: Addr, done: seq<Slot>, i: Slot, q: seq<Slot>)
    ensures Frames(m, base, done, [i] + q) ==
            FrameOf(ClearAll(m, base, done), base, i) + Frames(m, base, done + [i], q)
  {
    hide FrameOf, ClearAll;
    assert ([i] + q)[1..] == q;
  }

  /** Where the walk is over the loop stops too, having changed nothing. */
  lemma LoopEndsWithPath(m: Ram, base: Addr, done: seq<Slot>, cur: Slot, sent: seq<Bytes>, n: nat)
    requires cur in done || !Owned(m, base, cur)
    ensures RingPath(m, base, cur, Elems(done)) == []
    ensures var t := TxProgress(ClearAll(m, base, done), cur, sent); TxLoop(t, base, n) == t
  {
    hide Owned, TxLoop, ClearAll;
    if cur in done { DoneNotOwned(m, base, done, cur); } else { NextAfterClear(m, base, done, cur); }
    LoopStops(TxProgress(ClearAll(m, base, done), cur, sent), base, n);
  }

  predicate LoopIsPath(m: Ram, base: Addr, done: seq<Slot>, cur: Slot, sent: seq<Bytes>, n: nat) {
    var p := RingPath(m, base, cur, Elems(done));
    TxLoop(TxProgress(ClearAll(m, base, done), cur, sent), base, n) ==
    TxProgress(ClearAll(m, base, done + p), RingEnd(m, base, cur, p), sent + Frames(m, base, done, p))
  }

  lemma LoopPathStep(m: Ram, base: Addr, done: seq<Slot>, cur: Slot, sent: seq<Bytes>, n: nat)
    requires cur !in done && Owned(m, base, cur) && n > 0
    requires LoopIsPath(m, base, done + [cur], NextSlot(m, base, cur),
                        sent + FrameOf(ClearAll(m, base, done), base, cur), n - 1)
    ensures LoopIsPath(m, base, done, cur, sent, n)
  {
    hide NextSlot, FrameOf, ClearOwn, Owned, TxLoop, ClearAll, Frames, RingPath, RingEnd;
    NextAfterClear(m, base, done, cur);
    LoopStep(TxProgress(ClearAll(m, base, done), cur, sent), base, n);
    PathStep(m, base, done, cur);
    ClearSnoc(m, base, done, cur);
    var q := RingPath(m, base, NextSlot(m, base, cur), Elems(done + [cur]));
    FramesCons(m, base, done, cur, q);
    assert done + ([cur] + q) == (done + [cur]) + q;
    var f, g := FrameOf(ClearAll(m, base, done), base, cur), Frames(m, base, done + [cur], q);
    assert sent + (f + g) == (sent + f) + g;
  }

  lemma {:induction false} LoopFollowsPath(m: Ram, base: Addr, done: seq<Slot>, cur: Slot, sent: seq<Bytes>, n: nat)
    requires Distinct(done) && n + |done| >= NUM_DESC
    ensures LoopIsPath(m, base, done, cur, sent, n)
    decreases n
  {
    hide NextSlot, FrameOf, ClearOwn, Owned, TxLoop, ClearAll, RingPath;
    if cur in done || !Owned(m, base, cur) {
      LoopEndsWithPath(m, base, done, cur, sent, n);
      assert done + [] == done && sent + [] == sent;
    } else {
      Pigeonhole(done);
      LoopFollowsPath(m, base, done + [cur], NextSlot(m, base, cur),
                      sent + FrameOf(ClearAll(m, base, done), base, cur), n - 1);
      LoopPathStep(m, base, done, cur, sent, n);
    }
  }

  lemma ClearNone(m: Ram, base: Addr)
    ensures ClearAll(m, base, []) == m
  {
  }

  lemma PassIsWalk(s: State)
    requires TxOpen(s)
    ensures var p := RingPath(s.ram, s.txBase, s.txCur, {});
            var t := TxProgress(ClearAll(s.ram, s.txBase, p), RingEnd(s.ram, s.txBase, s.txCur, p),
                                s.sent + Frames(s.ram, s.txBase, [], p));
            |p| <= NUM_DESC && Distinct(p) && Transmit(s) == AfterTx(s, t) && !Owned(t.ram, s.txBase, t.cur)
  {
    hide Owned, NextSlot, TxLoop, ClearAll, Frames, RingEnd, RingPath, TxOpen, AfterTx;
    var p := RingPath(s.ram, s.txBase, s.txCur, {});
    PathShape(s.ram, s.txBase, s.txCur, {});
    Pigeonhole(p);
    assert Elems([]) == {};
    LoopFollowsPath(s.ram, s.txBase, [], s.txCur, s.sent, NUM_DESC);
    ClearNone(s.ram, s.txBase);
    assert [] + p == p;
    var e := RingEnd(s.ram, s.txBase, s.txCur, p);
    if e in p { DoneNotOwned(s.ram, s.txBase, p, e); } else { NextAfterClear(s.ram, s.txBase, p, e); }
  }

  /**
   * The 256-step loop is the unbounded walk: it serves exactly the walk's slots, clears each
   * once, sends their frames in order and stops where the walk stops, at a slot not owned. The walk
   * is the driver's own: on from tx_cur, to 0 after a slot with bit 30 set and else to the next mod 256.
   */
  lemma TransmitFollowsRing(s: State)
    requires TxOpen(s)
    ensures var p := RingPath(s.ram, s.txBase, s.txCur, {});
            var t := TxProgress(ClearAll(s.ram, s.txBase, p), RingEnd(s.ram, s.txBase, s.txCur, p),
                                s.sent + Frames(s.ram, s.txBase, [], p));
            && |p| <= 256 && Distinct(p) && V.FullWalk(s.ram, s.txBase, s.txCur, p)
            && Transmit(s) == AfterTx(s, t) && !Owned(t.ram, s.txBase, t.cur)
            && Transmit(s).txCur == V.EndOf(s.ram, s.txBase, s.txCur, p)
            && !V.Given(V.Opts(Transmit(s).ram, s.txBase, Transmit(s).txCur))
  {
    hide Owned, TxLoop, ClearAll, Frames, RingEnd, RingPath, TxOpen, AfterTx, V.FullWalk, V.EndOf, V.Opts, V.Given,
         Transmit;
    var p := RingPath(s.ram, s.txBase, s.txCur, {});
    var e := RingEnd(s.ram, s.txBase, s.txCur, p);
    PassIsWalk(s);
    V.PathView(s.ram, s.txBase, s.txCur);
    assert p[..|p|] == p;
    V.DescriptorView(ClearAll(s.ram, s.txBase, p), s.txBase, e);
    AfterTxState(s, TxProgress(ClearAll(s.ram, s.txBase, p), e, s.sent + Frames(s.ram, s.txBase, [], p)));
  }

  lemma AfterTxState(s: State, t: TxProgress)
    ensures var u := AfterTx(s, t); u.ram == t.ram && u.txCur == t.cur && u.sent == t.sent && u.txBase == s.txBase
  {
  }

  /** Descriptor words other than opts1, the opts1 of slots not served, and all else stay put. */
  lemma TransmitTouchesOnlyServedOpts1(s: State, j: Slot, x: Addr)
    requires TxOpen(s)
    ensures var p := RingPath(s.ram, s.txBase, s.txCur, {});
            var m' := Transmit(s).ram;
            && Opts1(m', s.txBase, j) ==
               (if j in p then OwnCleared(Opts1(s.ram, s.txBase, j)) else Opts1(s.ram, s.txBase, j))
            && V.Opts(m', s.txBase, j) ==
               (var w := V.Opts(s.ram, s.txBase, j);
                if j !in p then w else if V.Last(w) then 0x4000_0000 else 0)
            && ((forall i | i in p :: OutsideOpts1(s.txBase, i, x)) ==> Peek(m', x) == Peek(s.ram, x))
  {
    var p := RingPath(s.ram, s.txBase, s.txCur, {});
    TransmitFollowsRing(s);
    ClearAllWords(s.ram, s.txBase, p, j);
    V.DescriptorView(s.ram, s.txBase, j);
    V.DescriptorView(Transmit(s).ram, s.txBase, j);
    if forall i | i in p :: OutsideOpts1(s.txBase, i, x) {
      ClearAllBytes(s.ram, s.txBase, p, x);
    }
  }

  /** The frames the guest queued, read from memory as it was before the pass. */
  function Queued(m: Ram, base: Addr, path: seq<Slot>): seq<Bytes>
    decreases |path|
  {
    if path == [] then [] else FrameOf(m, base, path[0]) + Queued(m, base, path[1..])
  }

  predicate BuffersOffRing(m: Ram, base: Addr, path: seq<Slot>) {
    forall i | i in path :: Apart(base, RING_BYTES, Buffer(m, base, i), FrameLen(m, base, i))
  }

  lemma ClearAllKeepsAddress(m: Ram, base: Addr, done: seq<Slot>, i: Slot, k: int)
    requires k == 8 || k == 12
    ensures Word(ClearAll(m, base, done), At(SlotAddr(base, i), k)) == Word(m, At(SlotAddr(base, i), k))
  {
    var a := At(SlotAddr(base, i), k);
    forall b | 0 <= b < 4
      ensures Peek(ClearAll(m, base, done), At(a, b)) == Peek(m, At(a, b))
    {
      assert At(a, b) == At(SlotAddr(base, i), k + b);
      forall j | j in done ensures OutsideOpts1(base, j, At(a, b)) {
        if i != j {
          SlotsApart(base, j, i);
          ApartBytes(SlotAddr(base, j), DESC_SIZE, SlotAddr(base, i), DESC_SIZE, k + b);
        }
      }
      ClearAllBytes(m, base, done, At(a, b));
    }
    assert At(a, 0) == a;
  }

  lemma ClearAllKeepsBuffer(m: Ram, base: Addr, done: seq<Slot>, a: Addr, n: nat)
    requires n < TWO64 && Apart(base, RING_BYTES, a, n)
    ensures ReadBytes(ClearAll(m, base, done), a, n) == ReadBytes(m, a, n)
  {
    hide OutsideOpts1, ClearAll, Peek;
    forall k | 0 <= k < n
      ensures Peek(ClearAll(m, base, done), At(a, k)) == Peek(m, At(a, k))
    {
      ApartBytes(base, RING_BYTES, a, n, k);
      forall j | j in done ensures OutsideOpts1(base, j, At(a, k)) {
        OffRing(base, j, At(a, k));
      }
      ClearAllBytes(m, base, done, At(a, k));
    }
  }

  lemma ClearAllKeepsFrame(m: Ram, base: Addr, done: seq<Slot>, i: Slot)
    requires i !in done
    requires Apart(base, RING_BYTES, Buffer(m, base, i), FrameLen(m, base, i))
    ensures FrameOf(ClearAll(m, base, done), base, i) == FrameOf(m, base, i)
  {
    hide ClearAll, Word, Apart, ReadBytes;
    ClearAllWords(m, base, done, i);
    ClearAllKeepsAddress(m, base, done, i, 8);
    ClearAllKeepsAddress(m, base, done, i, 12);
    ClearAllKeepsBuffer(m, base, done, Buffer(m, base, i), FrameLen(m, base, i));
  }

  lemma {:induction false} FramesAreQueued(m: Ram, base: Addr, done: seq<Slot>, path: seq<Slot>)
    requires Distinct(done + path) && BuffersOffRing(m, base, path)
    ensures Frames(m, base, done, path) == Queued(m, base, path)
    decreases |path|
  {
    if path == [] {
    } else {
      forall k | 0 <= k < |done| ensures done[k] != path[0] {
        assert (done + path)[k] == done[k] && (done + path)[|done|] == path[0];
      }
      assert (done + [path[0]]) + path[1..] == done + path;
      ClearAllKeepsFrame(m, base, done, path[0]);
      FramesAreQueued(m, base, done + [path[0]], path[1..]);
    }
  }

  /** With buffers off the ring, a pass sends exactly what the guest queued, in ring order. */
  lemma TransmitSendsQueued(s: State)
    requires TxOpen(s)
    requires BuffersOffRing(s.ram, s.txBase, RingPath(s.ram, s.txBase, s.txCur, {}))
    ensures var p := RingPath(s.ram, s.txBase, s.txCur, {});
            && Transmit(s).sent == s.sent + Queued(s.ram, s.txBase, p)
            && Transmit(s).sent == s.sent + V.AllQueued(s.ram, s.txBase, p)
  {
    var p := RingPath(s.ram, s.txBase, s.txCur, {});
    TransmitFollowsRing(s);
    assert [] + p == p;
    FramesAreQueued(s.ram, s.txBase, [], p);
    QueuedView(s.ram, s.txBase, p);
  }

  lemma {:induction false} QueuedView(m: Ram, base: Addr, path: seq<Slot>)
    ensures Queued(m, base, path) == V.AllQueued(m, base, path)
    decreases |path|
  {
    hide FrameOf;
    if path != [] {
      V.FrameView(m, base, path[0]);
      QueuedView(m, base, path[1..]);
    }
  }

  /**
   * A pass in the driver's terms alone: enabled, it serves the ring's one full walk, sends what was
   * queued there, clears bit 31 and every other bit but 30 of the first words, and stops at its end.
   */
  lemma TransmitServesTheWalk(s: State, p: seq<Slot>, j: Slot)
    requires V.TxEnabled(s) && V.FullWalk(s.ram, s.txBase, s.txCur, p)
    requires forall i | i in p ::
               Apart(s.txBase, 0x1000, V.BufferOf(s.ram, s.txBase, i), V.Opts(s.ram, s.txBase, i) % 0x4000)
    ensures var t := Transmit(s);
            && t.sent == s.sent + V.AllQueued(s.ram, s.txBase, p)
            && t.txCur == V.EndOf(s.ram, s.txBase, s.txCur, p)
            && t.intr.status == s.intr.status | 0x0004
            && V.Opts(t.ram, s.txBase, j) ==
               (var w := V.Opts(s.ram, s.txBase, j);
                if j !in p then w else if V.Last(w) then 0x4000_0000 else 0)
  {
    hide V.FullWalk, V.EndOf, V.AllQueued, V.Opts, V.BufferOf, RingPath, TxLoop, TxOpen, Apart, Queued;
    V.EnabledView(s);
    V.PathView(s.ram, s.txBase, s.txCur);
    V.OneFullWalk(s.ram, s.txBase, s.txCur, p, RingPath(s.ram, s.txBase, s.txCur, {}));
    forall i | i in p ensures Apart(s.txBase, RING_BYTES, Buffer(s.ram, s.txBase, i), FrameLen(s.ram, s.txBase, i)) {
      V.DescriptorView(s.ram, s.txBase, i);
    }
    TransmitFollowsRing(s);
    TransmitTouchesOnlyServedOpts1(s, j, 0);
    TransmitSendsQueued(s);
  }

  /** Not enabled, it does nothing. */
  lemma TransmitDisabled(s: State)
    requires !V.TxEnabled(s)
    ensures Transmit(s) == s
  {
    V.EnabledView(s);
  }

  lemma OrTwice(a: bv16, b: bv16)
    ensures WithBits(WithBits(a, b), b) == WithBits(a, b)
  {
  }

  lemma SetIntrIdle(i: Intr, bits: bv16, st: bv16)
    requires i.status == st && WithBits(st, bits) == st
    ensures SetIntr(i, bits) == UpdateIrq(i)
  {
    hide UpdateIrq, WithBits;
  }

  lemma SetIntrSettled(i: Intr, bits: bv16)
    ensures SetIntr(i, bits).status == WithBits(i.status, bits)
    ensures UpdateIrq(SetIntr(i, bits)) == SetIntr(i, bits)
  {
    hide WithBits, Overlap;
  }

  lemma SetIntrTwice(i: Intr, bits: bv16)
    ensures SetIntr(SetIntr(i, bits), bits) == SetIntr(i, bits)
  {
    hide UpdateIrq, SetIntr, WithBits;
    OrTwice(i.status, bits);
    SetIntrSettled(i, bits);
    SetIntrIdle(SetIntr(i, bits), bits, WithBits(i.status, bits));
  }

  lemma AfterTxTwice(s: State, t: TxProgress)
    ensures AfterTx(AfterTx(s, t), t) == AfterTx(s, t)
    ensures TxOpen(AfterTx(s, t)) == TxOpen(s)
  {
    hide Bit, SetIntr;
    SetIntrTwice(s.intr, INTR_TOK);
  }

  lemma TransmitIdle(s: State)
    requires TxOpen(s) && !Owned(s.ram, s.txBase, s.txCur)
    ensures Transmit(s) == AfterTx(s, TxProgress(s.ram, s.txCur, s.sent))
  {
    hide Owned, TxLoop, TxOpen, AfterTx;
    LoopStops(TxProgress(s.ram, s.txCur, s.sent), s.txBase, NUM_DESC);
  }

  lemma AfterTxKeeps(s: State, t: TxProgress)
    ensures var s' := AfterTx(s, t);
            s'.ram == t.ram && s'.txCur == t.cur && s'.sent == t.sent && s'.txBase == s.txBase
  {
  }

  /** A second kick with no guest store in between sends nothing and moves nothing. */
  lemma TransmitTwice(s: State)
    requires TxOpen(s)
    ensures Transmit(Transmit(s)) == Transmit(s)
  {
    hide Transmit, TxLoop, RingPath, RingEnd, ClearAll, Owned, Frames, AfterTx, TxOpen;
    TransmitFollowsRing(s);
    var p := RingPath(s.ram, s.txBase, s.txCur, {});
    var t := TxProgress(ClearAll(s.ram, s.txBase, p), RingEnd(s.ram, s.txBase, s.txCur, p),
                        s.sent + Frames(s.ram, s.txBase, [], p));
    AfterTxTwice(s, t);
    AfterTxKeeps(s, t);
    TransmitIdle(AfterTx(s, t));
  }
}
