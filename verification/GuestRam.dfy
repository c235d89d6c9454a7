/** Guest memory as the device's DMA sees it: a 64-bit byte space that wraps at its end. */
module GuestRam {
  import opened Words

  type Addr = a: int | 0 <= a < TWO64

  /** Sparse RAM; an address never written holds 0. */
  type Ram = map<Addr, u8>

  function Peek(m: Ram, a: Addr): u8 {
    if a in m then m[a] else 0
  }

  function At(a: Addr, k: int): Addr
    requires 0 <= k < TWO64
  {
    if a + k < TWO64 then a + k else a + k - TWO64
  }

  /** How far x lies after a, going round the end of the address space. */
  function Offset(a: Addr, x: Addr): (k: int)
    ensures 0 <= k < TWO64 && At(a, k) == x
  {
    if x >= a then x - a else x - a + TWO64
  }

  function ReadBytes(m: Ram, a: Addr, n: nat): (b: Bytes)
    requires n < TWO64
    ensures |b| == n
  {
    seq(n, i requires 0 <= i < n => Peek(m, At(a, i)))
  }

  function WriteBytes(m: Ram, a: Addr, b: Bytes): Ram
    decreases |b|
  {
    if b == [] then m else WriteBytes(m[a := b[0]], At(a, 1), b[1..])
  }

  function Word(m: Ram, a: Addr): u32 {
    Join32(Peek(m, a), Peek(m, At(a, 1)), Peek(m, At(a, 2)), Peek(m, At(a, 3)))
  }

  function SetWord(m: Ram, a: Addr, v: u32): Ram {
    WriteBytes(m, a, Bytes32(v))
  }

  /** A write replaces exactly the addressed range. */
  lemma {:induction false} PeekWritten(m: Ram, a: Addr, b: Bytes, x: Addr)
    requires |b| < TWO64
    ensures Peek(WriteBytes(m, a, b), x) == if Offset(a, x) < |b| then b[Offset(a, x)] else Peek(m, x)
    decreases |b|
  {
    if b == [] {
    } else {
      PeekWritten(m[a := b[0]], At(a, 1), b[1..], x);
    }
  }

  predicate Apart(a: Addr, n: int, b: Addr, k: int) {
    Offset(a, b) >= n && Offset(b, a) >= k
  }

  lemma ApartBytes(a: Addr, n: int, b: Addr, k: int, i: int)
    requires 0 <= i < k < TWO64 && Apart(a, n, b, k)
    ensures Offset(a, At(b, i)) >= n
  {
  }

  lemma WordAfterWrite(m: Ram, a: Addr, bs: Bytes, b: Addr)
    requires |bs| < TWO64 && Apart(a, |bs|, b, 4)
    ensures Word(WriteBytes(m, a, bs), b) == Word(m, b)
  {
    forall i | 0 <= i < 4
      ensures Peek(WriteBytes(m, a, bs), At(b, i)) == Peek(m, At(b, i))
    {
      ApartBytes(a, |bs|, b, 4, i);
      PeekWritten(m, a, bs, At(b, i));
    }
    assert At(b, 0) == b;
  }

  lemma WordWritten(m: Ram, a: Addr, v: u32)
    ensures Word(SetWord(m, a, v), a) == v
  {
    forall i | 0 <= i < 4
      ensures Peek(SetWord(m, a, v), At(a, i)) == Bytes32(v)[i]
    {
      PeekWritten(m, a, Bytes32(v), At(a, i));
    }
    assert At(a, 0) == a;
    JoinBytes32(v);
  }

  /** Reading back what was written. */
  lemma ReadWritten(m: Ram, a: Addr, b: Bytes)
    requires |b| < TWO64
    ensures ReadBytes(WriteBytes(m, a, b), a, |b|) == b
  {
    forall i | 0 <= i < |b|
      ensures ReadBytes(WriteBytes(m, a, b), a, |b|)[i] == b[i]
    {
      PeekWritten(m, a, b, At(a, i));
    }
  }

  lemma ReadElsewhere(m: Ram, a: Addr, b: Bytes, x: Addr, n: nat)
    requires |b| < TWO64 && n < TWO64 && Apart(a, |b|, x, n)
    ensures ReadBytes(WriteBytes(m, a, b), x, n) == ReadBytes(m, x, n)
  {
    forall i | 0 <= i < n
      ensures Peek(WriteBytes(m, a, b), At(x, i)) == Peek(m, At(x, i))
    {
      ApartBytes(a, |b|, x, n, i);
      PeekWritten(m, a, b, At(x, i));
    }
  }
}
