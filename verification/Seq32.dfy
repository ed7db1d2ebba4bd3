/** Bytes, and 32-bit sequence numbers that wrap.

    Every sequence number on the wire is a `u32`. The proofs reason about the unbounded
    index it stands for: `Wrap` maps an index to the number on the wire, and `Near` recovers
    the index that is closest to a known one. */
module Seq32 {

  type byte = x: int | 0 <= x < 256
  type Bytes = seq<byte>
  type u32 = x: int | 0 <= x < 0x1_0000_0000
  type u64 = x: int | 0 <= x < 0x1_0000_0000_0000_0000

  const TWO32: int := 0x1_0000_0000
  const HALF32: int := 0x8000_0000
  const TWO64: int := 0x1_0000_0000_0000_0000

  // Slots of the sender's and of the receiver's ring.
  const RING: int := 32768

  datatype Option<+T> = None | Some(value: T)

  function Wrap(i: int): u32 { i % TWO32 }

  /** The difference of two numbers as a signed 32-bit integer. */
  function Diff(a: u32, b: u32): int {
    var d := (a - b) % TWO32;
    if d < HALF32 then d else d - TWO32
  }

  predicate SeqBefore(a: u32, b: u32) { Diff(a, b) < 0 }

  /** The index closest to `at` whose number is `s`. */
  function Near(at: int, s: u32): int { at + Diff(s, Wrap(at)) }

  function Succ(s: u32): u32 { (s + 1) % TWO32 }

  function Pred(s: u32): u32 { (s - 1) % TWO32 }

  lemma SuccPred(i: int)
    ensures Succ(Wrap(i)) == Wrap(i + 1) && Pred(Wrap(i)) == Wrap(i - 1)
  {
  }

  function Plus(s: u32, k: int): u32 { (s + k) % TWO32 }

  lemma WrapAdd(i: int, k: int)
    ensures Plus(Wrap(i), k) == Wrap(i + k)
  {
  }

  /** Wrapped comparison and subtraction agree with the indices while these are
      less than half the number space apart. */
  lemma DiffIsDistance(i: int, j: int)
    requires -HALF32 <= i - j < HALF32
    ensures Diff(Wrap(i), Wrap(j)) == i - j
    ensures SeqBefore(Wrap(i), Wrap(j)) <==> i < j
  {
    assert (Wrap(i) - Wrap(j)) % TWO32 == (i - j) % TWO32;
  }

  lemma UnsignedDistance(i: int, j: int)
    requires 0 <= i - j < TWO32
    ensures (Wrap(i) - Wrap(j)) % TWO32 == i - j
  {
  }

  /** Where a loop that counts up from `i` while its number is before `s` stops. */
  function Ahead(i: int, s: u32): (e: int)
    ensures i <= e <= i + HALF32
  {
    if SeqBefore(Wrap(i), s) then i + (s - Wrap(i)) % TWO32 else i
  }

  lemma AheadIs(i: int, j: int)
    requires -HALF32 < j - i < HALF32
    ensures Ahead(i, Wrap(j)) == if i < j then j else i
  {
    DiffIsDistance(i, j);
    if i < j { UnsignedDistance(j, i); }
  }

  lemma AheadStops(i: int, s: u32, k: int)
    requires i <= k <= Ahead(i, s)
    ensures Wrap(Ahead(i, s)) == if SeqBefore(Wrap(i), s) then s else Wrap(i)
    ensures SeqBefore(Wrap(k), s) <==> k < Ahead(i, s)
  {
    var e := Ahead(i, s);
    if SeqBefore(Wrap(i), s) {
      assert (i + (s - Wrap(i)) % TWO32) % TWO32 == s;
      DiffIsDistance(k, e);
    }
  }

  lemma NearIsNear(at: int, s: u32)
    ensures Wrap(Near(at, s)) == s
    ensures -HALF32 <= Near(at, s) - at < HALF32
  {
  }

  lemma NearRecovers(at: int, i: int)
    requires -HALF32 <= i - at < HALF32
    ensures Near(at, Wrap(i)) == i
  {
    DiffIsDistance(i, at);
  }

  /** Going back from `i` by the wrapped distance to `low` leads to an index numbered `low`. */
  lemma WrapBack(i: int, low: u32)
    ensures Wrap(i - (Wrap(i) - low) % TWO32) == low
  {
    var d := (Wrap(i) - low) % TWO32;
    assert (Wrap(i) - low - d) % TWO32 == 0;
    assert (i - d) % TWO32 == low % TWO32;
  }

  lemma WrapInjective(i: int, j: int)
    requires -TWO32 < i - j < TWO32
    ensures Wrap(i) == Wrap(j) <==> i == j
  {
  }

  function SlotOf(i: int): (k: int)
    ensures 0 <= k < RING
  {
    i % RING
  }

  /** The ring slot of a wrapped number is the ring slot of its index. */
  lemma WrapSlot(i: int)
    ensures SlotOf(Wrap(i)) == SlotOf(i)
  {
    assert i == TWO32 * (i / TWO32) + Wrap(i);
    assert TWO32 == RING * 131072;
    var q := 131072 * (i / TWO32);
    assert i == RING * q + Wrap(i);
  }

  lemma SlotInjective(i: int, j: int)
    requires -RING < i - j < RING
    ensures SlotOf(i) == SlotOf(j) <==> i == j
  {
  }
}
