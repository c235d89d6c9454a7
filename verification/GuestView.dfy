/**
 * The descriptor rings as a driver sees them, in bytes, bit weights and slot numbers, independently
 * of the device model; and that the device model reads and writes the same thing.
 */
module GuestView {
  import opened Words
  import opened GuestRam
  import opened Nic
  import opened Rings

  /** A little-endian 32-bit word. */
  function Load(m: Ram, a: Addr): u32 {
    Peek(m, a) + 0x100 * Peek(m, At(a, 1)) + 0x1_0000 * Peek(m, At(a, 2)) + 0x100_0000 * Peek(m, At(a, 3))
  }

  /** First word of 16-byte descriptor i. */
  function Opts(m: Ram, base: Addr, i: Slot): u32 {
    Load(m, At(base, 16 * i))
  }

  /** Handed to the device: bit 31. */
  predicate Given(w: u32) {
    w >= 0x8000_0000
  }

  /** Last descriptor of the ring: bit 30. */
  predicate Last(w: u32) {
    (w / 0x4000_0000) % 2 == 1
  }

  /** The slot that follows slot i whose first word is w. */
  function After(w: u32, i: Slot): Slot {
    if Last(w) || i == 255 then 0 else i + 1
  }

  function BufferOf(m: Ram, base: Addr, i: Slot): Addr {
    Load(m, At(base, 16 * i + 8)) + 0x1_0000_0000 * Load(m, At(base, 16 * i + 12))
  }

  /** The frame queued in slot i: 1 to 9000 bytes from its buffer, or none. */
  function Queued(m: Ram, base: Addr, i: Slot): seq<Bytes> {
    var len, a := Opts(m, base, i) % 0x4000, BufferOf(m, base, i);
    if 1 <= len <= 9000 then [seq(len, n requires 0 <= n < len => Peek(m, At(a, n)))] else []
  }

  function AllQueued(m: Ram, base: Addr, path: seq<Slot>): seq<Bytes>
    decreases |path|
  {
    if path == [] then [] else Queued(m, base, path[0]) + AllQueued(m, base, path[1..])
  }

  /** Where the ring goes on after `path`. */
  function EndOf(m: Ram, base: Addr, cur: Slot, path: seq<Slot>): Slot {
    if path == [] then cur else var i := path[|path| - 1]; After(Opts(m, base, i), i)
  }

  /** From cur along the ring, each slot given to the device and none twice. */
  predicate Walk(m: Ram, base: Addr, cur: Slot, path: seq<Slot>) {
    && Distinct(path) && (path != [] ==> path[0] == cur)
    && (forall k | 0 < k < |path| :: path[k] == After(Opts(m, base, path[k - 1]), path[k - 1]))
    && (forall i | i in path :: Given(Opts(m, base, i)))
  }

  /** A walk that cannot go on. */
  predicate FullWalk(m: Ram, base: Addr, cur: Slot, path: seq<Slot>) {
    Walk(m, base, cur, path) && (var e := EndOf(m, base, cur, path); e in path || !Given(Opts(m, base, e)))
  }

  /** Before its end a walk goes on to a slot given to the device and not yet seen. */
  lemma WalkGoesOn(m: Ram, base: Addr, cur: Slot, p: seq<Slot>, k: nat)
    requires Walk(m, base, cur, p) && 0 < k <= |p|
    ensures var e := EndOf(m, base, cur, p[..k - 1]); e == p[k - 1] && e !in p[..k - 1] && Given(Opts(m, base, e))
  {
    hide Opts, After, Given;
    if k > 1 {
      assert p[..k - 1][k - 2] == p[k - 2];
    }
    assert p[k - 1] in p;
    var front := p[..k - 1];
    forall i | 0 <= i < |front| ensures front[i] != p[k - 1] {
      assert p[i] != p[k - 1];
    }
  }

  lemma {:induction false} WalksAgree(m: Ram, base: Addr, cur: Slot, p: seq<Slot>, q: seq<Slot>, k: nat)
    requires FullWalk(m, base, cur, p) && FullWalk(m, base, cur, q) && k <= |p|
    ensures k <= |q| && p[..k] == q[..k]
  {
    hide Opts, After, Given;
    if k > 0 {
      WalksAgree(m, base, cur, p, q, k - 1);
      var front := p[..k - 1];
      if |q| == k - 1 {
        WalkGoesOn(m, base, cur, p, k);
        assert false;
      } else {
        assert k > 1 ==> p[k - 2] == front[k - 2] == q[k - 2];
        assert p[k - 1] == q[k - 1];
        assert p[..k] == front + [p[k - 1]] && q[..k] == q[..k - 1] + [q[k - 1]];
      }
    }
  }

  /** The ring prescribes one walk. */
  lemma OneFullWalk(m: Ram, base: Addr, cur: Slot, p: seq<Slot>, q: seq<Slot>)
    requires FullWalk(m, base, cur, p) && FullWalk(m, base, cur, q)
    ensures p == q
  {
    WalksAgree(m, base, cur, p, q, |p|);
    WalksAgree(m, base, cur, q, p, |q|);
    assert p[..|p|] == p && q[..|q|] == q;
  }

  /** w tells of a received packet where `before` stood: handed back, one whole segment, size with CRC. */
  predicate Reports(w: u32, before: u32, size: nat) {
    && !Given(w) && Last(w) == Last(before) && (w / 0x2000_0000) % 2 == 1 && (w / 0x1000_0000) % 2 == 1
    && (size + 4 <= 0x3fff ==> w % 0x4000 == size + 4)
  }

  // ---- the device reads the same ----

  lemma WordView(m: Ram, a: Addr)
    ensures Word(m, a) == Load(m, a)
  {
  }

  lemma SlotView(base: Addr, i: Slot, k: int)
    requires 0 <= k < 16
    ensures At(SlotAddr(base, i), k) == At(base, 16 * i + k)
  {
  }

  lemma DescriptorView(m: Ram, base: Addr, i: Slot)
    ensures Opts1(m, base, i) == Opts(m, base, i) && Buffer(m, base, i) == BufferOf(m, base, i)
    ensures Owned(m, base, i) == Given(Opts(m, base, i)) && Eor(m, base, i) == Last(Opts(m, base, i))
    ensures FrameLen(m, base, i) == Opts(m, base, i) % 0x4000
  {
    hide Word, Load;
    SlotView(base, i, 0);
    SlotView(base, i, 8);
    SlotView(base, i, 12);
    WordView(m, SlotAddr(base, i));
    WordView(m, At(SlotAddr(base, i), 8));
    WordView(m, At(SlotAddr(base, i), 12));
    assert At(SlotAddr(base, i), 0) == SlotAddr(base, i);
  }

  lemma NextView(m: Ram, base: Addr, i: Slot)
    ensures NextSlot(m, base, i) == After(Opts(m, base, i), i)
  {
    hide Eor, Opts, Last, Opts1, Owned, Given, Buffer, BufferOf, FrameLen;
    DescriptorView(m, base, i);
  }

  lemma FrameView(m: Ram, base: Addr, i: Slot)
    ensures FrameOf(m, base, i) == Queued(m, base, i)
  {
    hide Opts, Opts1, Buffer, BufferOf, Peek, Owned, Eor;
    DescriptorView(m, base, i);
  }

  lemma PathView(m: Ram, base: Addr, cur: Slot)
    ensures var p := RingPath(m, base, cur, {});
            FullWalk(m, base, cur, p)
                && forall k | 0 <= k <= |p| :: RingEnd(m, base, cur, p[..k]) == EndOf(m, base, cur, p[..k])
  {
    hide NextSlot, Owned, Opts, Opts1, Eor, Buffer, BufferOf, RingPath, After, Given, Last, FrameLen;
    PathShape(m, base, cur, {});
    forall i: Slot ensures NextSlot(m, base, i) == After(Opts(m, base, i), i)
        && Owned(m, base, i) == Given(Opts(m, base, i)) {
      NextView(m, base, i);
      DescriptorView(m, base, i);
    }
    var p := RingPath(m, base, cur, {});
    assert p[..|p|] == p;
    assert RingEnd(m, base, cur, p) == EndOf(m, base, cur, p);
  }

  // ---- and is enabled when the driver thinks so ----

  predicate TxEnabled(s: State) {
    (s.chipCmd / 4) % 2 == 1 && s.gate.fwLoaded && s.txBase != 0
  }

  predicate RxEnabled(s: State) {
    (s.chipCmd / 8) % 2 == 1 && s.gate.fwLoaded && s.rxBase != 0
  }

  lemma EnabledView(s: State)
    ensures TxOpen(s) == TxEnabled(s) && RxOpen(s) == RxEnabled(s)
  {
  }
}
