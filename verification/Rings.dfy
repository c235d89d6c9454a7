/** Facts about descriptor rings shared by the transmit and receive proofs. */
module Rings {
  import opened GuestRam
  import opened Nic

  predicate IsSlot(i: int) {
    0 <= i < NUM_DESC
  }

  const SLOTS: set<Slot> := set i: int | 0 <= i < NUM_DESC && IsSlot(i)

  /** Distinct slots never overlap, wherever the ring sits in the address space. */
  lemma SlotsApart(base: Addr, i: Slot, j: Slot)
    requires i != j
    ensures Apart(SlotAddr(base, i), DESC_SIZE, SlotAddr(base, j), DESC_SIZE)
  {
  }

  /** Every byte of a descriptor lies in the ring's 4096 bytes. */
  lemma SlotInRing(base: Addr, i: Slot, k: int)
    requires 0 <= k < DESC_SIZE
    ensures Offset(base, At(SlotAddr(base, i), k)) == DESC_SIZE * i + k < RING_BYTES
  {
  }

  /** x avoids the opts1 word of slot i. */
  predicate OutsideOpts1(base: Addr, i: Slot, x: Addr) {
    Offset(SlotAddr(base, i), x) >= 4
  }

  lemma RangeSize(n: nat)
    requires n <= NUM_DESC
    ensures |set i: int | 0 <= i < n && IsSlot(i)| == n
  {
    if n == 0 {
    } else {
      RangeSize(n - 1);
      assert IsSlot(n - 1);
      assert (set i: int | 0 <= i < n && IsSlot(i)) == (set i: int | 0 <= i < n - 1 && IsSlot(i)) + {n - 1};
    }
  }

  function Elems(p: seq<Slot>): set<Slot> {
    set i | i in p
  }

  predicate Distinct(p: seq<Slot>) {
    forall i, j :: 0 <= i < j < |p| ==> p[i] != p[j]
  }

  lemma DistinctSize(p: seq<Slot>)
    requires Distinct(p)
    ensures |Elems(p)| == |p|
  {
    if p == [] {
    } else {
      var q := p[..|p| - 1];
      DistinctSize(q);
      assert p == q + [p[|p| - 1]];
      assert Elems(p) == Elems(q) + {p[|p| - 1]};
    }
  }

  lemma SubsetSize<T>(a: set<T>, b: set<T>)
    requires a <= b
    ensures |a| <= |b|
    ensures |a| == |b| ==> a == b
  {
    if a == {} {
    } else {
      var x :| x in a;
      SubsetSize(a - {x}, b - {x});
    }
  }

  /** Pigeonhole: distinct slots number at most 256, and 256 of them are all there are. */
  lemma Pigeonhole(p: seq<Slot>)
    requires Distinct(p)
    ensures |p| <= NUM_DESC
    ensures |p| == NUM_DESC ==> forall i: Slot :: i in p
  {
    RangeSize(NUM_DESC);
    DistinctSize(p);
    SubsetSize(Elems(p), SLOTS);
    if |p| == NUM_DESC {
      forall i: Slot ensures i in p {
        assert i in SLOTS;
        assert i in Elems(p);
      }
    }
  }

  /** The slots to serve: from `cur` along the ring while owned and not yet seen. */
  function RingPath(m: Ram, base: Addr, cur: Slot, seen: set<Slot>): seq<Slot>
    decreases SLOTS - seen
  {
    hide Owned, NextSlot;
    if cur in seen || !Owned(m, base, cur) then []
    else
      assert IsSlot(cur);
      [cur] + RingPath(m, base, NextSlot(m, base, cur), seen + {cur})
  }

  /** The slot after the last one served. */
  function RingEnd(m: Ram, base: Addr, cur: Slot, path: seq<Slot>): Slot {
    if path == [] then cur else NextSlot(m, base, path[|path| - 1])
  }

  lemma {:induction false} PathShape(m: Ram, base: Addr, cur: Slot, seen: set<Slot>)
    ensures var p := RingPath(m, base, cur, seen);
            Distinct(p) && (forall i | i in p :: i !in seen && Owned(m, base, i))
            && (p != [] ==> p[0] == cur)
            && (forall k | 0 < k < |p| :: p[k] == NextSlot(m, base, p[k - 1]))
            && (var e := RingEnd(m, base, cur, p); e in seen || e in p || !Owned(m, base, e))
    decreases SLOTS - seen
  {
    hide Owned, NextSlot;
    if cur in seen || !Owned(m, base, cur) {
    } else {
      assert IsSlot(cur);
      var next := NextSlot(m, base, cur);
      PathShape(m, base, next, seen + {cur});
      var q := RingPath(m, base, next, seen + {cur});
      assert RingPath(m, base, cur, seen) == [cur] + q;
      assert RingEnd(m, base, cur, [cur] + q) == RingEnd(m, base, next, q);
    }
  }

  lemma PathStep(m: Ram, base: Addr, done: seq<Slot>, cur: Slot)
    requires cur !in done && Owned(m, base, cur)
    ensures var next := NextSlot(m, base, cur);
            var q := RingPath(m, base, next, Elems(done + [cur]));
            && RingPath(m, base, cur, Elems(done)) == [cur] + q
            && RingEnd(m, base, cur, [cur] + q) == RingEnd(m, base, next, q)
  {
    hide NextSlot, Owned;
    assert cur !in Elems(done);
    assert Elems(done + [cur]) == Elems(done) + {cur};
  }

  /** An address off the ring is outside every opts1 word. */
  lemma OffRing(base: Addr, j: Slot, x: Addr)
    requires Offset(base, x) >= RING_BYTES
    ensures OutsideOpts1(base, j, x)
  {
    if !OutsideOpts1(base, j, x) {
      SlotInRing(base, j, Offset(SlotAddr(base, j), x));
      assert false;
    }
  }
}
