/** The bit writer of the fake H.264 stream, read back by the parsing process of sections 9.1 and
    9.1.1 of ITU-T H.264. */
module ExpGolomb {
  import opened Seq32

  type bit = b: int | 0 <= b <= 1
  type Bits = seq<bit>

  function Pow2(n: nat): (p: nat)
    ensures p > 0
  {
    if n == 0 then 1 else 2 * Pow2(n - 1)
  }

  /** The low `n` bits of `v`, highest first. */
  function BitsOf(v: nat, n: nat): (b: Bits)
    ensures |b| == n
  {
    if n == 0 then [] else BitsOf(v / 2, n - 1) + [v % 2]
  }

  function Length(v: nat): nat { if v == 0 then 0 else 1 + Length(v / 2) }

  function Flat(buf: Bytes): (b: Bits)
    ensures |b| == 8 * |buf|
  {
    if buf == [] then [] else Flat(buf[..|buf| - 1]) + BitsOf(buf[|buf| - 1], 8)
  }

  // ---- what the calls write ----

  datatype Field = U(v: u32, n: nat) | UE(v: u32) | SE(x: int)

  /** A field that a call can be made with: signed values are 32 bits wide. */
  predicate Callable(f: Field) { f.SE? ==> -HALF32 <= f.x < HALF32 }

  /** The standard order 0, 1, -1, 2, -2, ..., in 32-bit arithmetic. */
  function CodeNum(x: int): u32 { (if x <= 0 then -2 * x else 2 * x - 1) % TWO32 }

  function UnsignedCode(v: u32): Bits {
    var v1 := (v + 1) % TWO32;
    var n := Length(v1);
    if n == 0 then [] else BitsOf(0, n - 1) + BitsOf(v1, n)
  }

  function Code(f: Field): Bits {
    match f
    case U(v, n) => BitsOf(v, n)
    case UE(v) => UnsignedCode(v)
    case SE(x) => UnsignedCode(CodeNum(x))
  }

  function Codes(fs: seq<Field>): Bits {
    if fs == [] then [] else Code(fs[0]) + Codes(fs[1..])
  }

  function Shifted(v: nat, i: nat): nat { if i == 0 then v else Shifted(v, i - 1) / 2 }

  lemma ShiftedByNone(v: nat)
    ensures Shifted(v, 0) == v
  {
  }

  lemma ShiftedNext(v: nat, i: nat)
    ensures Shifted(v, i + 1) == Shifted(v, i) / 2
  {
  }

  lemma {:induction false} ByteBits(n: nat)
    requires n <= 8
    ensures Pow2(n) <= 256
    decreases 8 - n
  {
    assert Pow2(4) == 16 && Pow2(8) == 256;
    if n < 8 { ByteBits(n + 1); }
  }

  lemma NextBit(x: nat, k: nat)
    requires k > 0
    ensures BitsOf(x, k) == BitsOf(x / 2, k - 1) + [x % 2]
  {
  }

  lemma NoBits(x: nat)
    ensures BitsOf(x, 0) == []
  {
  }

  lemma FlatAppend(buf: Bytes, b: byte)
    ensures Flat(buf + [b]) == Flat(buf) + BitsOf(b, 8)
  {
    assert (buf + [b])[..|buf|] == buf;
  }

  lemma {:induction false} CodesAppend(fs: seq<Field>, f: Field)
    ensures Codes(fs + [f]) == Codes(fs) + Code(f)
  {
    hide Code;
    if fs == [] {
      assert fs + [f] == [f] && [f][1..] == [];
      assert Code(f) + [] == Code(f);
    } else {
      assert (fs + [f])[1..] == fs[1..] + [f];
      CodesAppend(fs[1..], f);
    }
  }

  class BitWriter {
    var buf: Bytes
    var cur: byte
    var nbit: nat

    ghost predicate Valid()
      reads this
    {
      nbit < 8 && cur < Pow2(nbit)
    }

    function Written(): Bits
      reads this
    {
      Flat(buf) + BitsOf(cur, nbit)
    }

    constructor ()
      ensures Valid() && Written() == []
    {
      buf, cur, nbit := [], 0, 0;
    }

    method WriteBit(b: byte)
      requires Valid()
      modifies this
      ensures Valid() && Written() == old(Written()) + [b % 2] && nbit == (old(nbit) + 1) % 8
    {
      hide Flat, BitsOf;
      ByteBits(nbit + 1);
      NextBit(cur * 2 + b % 2, nbit + 1);
      cur := cur * 2 + b % 2;
      nbit := nbit + 1;
      NoBits(0);
      if nbit == 8 {
        FlatAppend(buf, cur);
        buf := buf + [cur];
        cur := 0;
        nbit := 0;
      }
    }

    /** The low `n` bits of `v`; nothing if `n` is not positive. */
    method WriteBits(v: u32, n: int)
      requires Valid()
      modifies this
      ensures Valid() && Written() == old(Written()) + BitsOf(v, if n > 0 then n else 0)
    {
      hide Written, Flat, BitsOf, Pow2, Shifted;
      ghost var w := Written();
      NoBits(v);
      if n > 0 { NoBits(Shifted(v, n)); } else { ShiftedByNone(v); }
      assert w + [] == w;
      var i := n - 1;
      while i >= 0
        invariant Valid() && (n > 0 ==> -1 <= i < n) && (n <= 0 ==> i == n - 1)
        invariant Written() == w + if n > 0 then BitsOf(Shifted(v, i + 1), n - 1 - i) else []
        decreases i + 1
      {
        WriteBit(Shifted(v, i) % 2);
        ShiftedNext(v, i);
        NextBit(Shifted(v, i), n - i);
        assert w + (BitsOf(Shifted(v, i + 1), n - 1 - i) + [Shifted(v, i) % 2])
            == (w + BitsOf(Shifted(v, i + 1), n - 1 - i)) + [Shifted(v, i) % 2];
        i := i - 1;
      }
      ShiftedByNone(v);
    }

    method WriteUE(v: u32)
      requires Valid()
      modifies this
      ensures Valid() && Written() == old(Written()) + UnsignedCode(v)
    {
      var v1 := (v + 1) % TWO32;
      var nbits, t := 0, v1;
      while t != 0
        invariant nbits >= 0 && t >= 0 && nbits + Length(t) == Length(v1)
        decreases t
      {
        nbits := nbits + 1;
        t := t / 2;
      }
      hide Flat, BitsOf;
      NoBits(v1);
      ghost var w := Written();
      WriteBits(0, nbits - 1);
      WriteBits(v1, nbits);
      assert w + BitsOf(0, if nbits > 1 then nbits - 1 else 0) + BitsOf(v1, nbits)
          == w + (BitsOf(0, if nbits > 1 then nbits - 1 else 0) + BitsOf(v1, nbits));
      assert w + [] == w;
    }

    method WriteSE(x: int)
      requires Valid() && -HALF32 <= x < HALF32
      modifies this
      ensures Valid() && Written() == old(Written()) + UnsignedCode(CodeNum(x))
    {
      hide UnsignedCode;
      var code: u32;
      if x <= 0 {
        code := (-2 * x) % TWO32;
      } else {
        code := (2 * x - 1) % TWO32;
      }
      WriteUE(code);
    }

    /** Any sequence of calls. */
    method WriteAll(fs: seq<Field>)
      requires Valid() && forall k :: 0 <= k < |fs| ==> Callable(fs[k])
      modifies this
      ensures Valid() && Written() == old(Written()) + Codes(fs)
    {
      hide Flat, BitsOf, UnsignedCode;
      ghost var w := Written();
      var i := 0;
      assert w + [] == w;
      while i < |fs|
        invariant 0 <= i <= |fs| && Valid() && Written() == w + Codes(fs[..i])
      {
        CodesAppend(fs[..i], fs[i]);
        assert fs[..i] + [fs[i]] == fs[..i + 1];
        match fs[i] {
          case U(v, n) => WriteBits(v, n);
          case UE(v) => WriteUE(v);
          case SE(x) => WriteSE(x);
        }
        assert (w + Codes(fs[..i])) + Code(fs[i]) == w + (Codes(fs[..i]) + Code(fs[i]));
        i := i + 1;
      }
      assert fs[..|fs|] == fs;
    }

    /** The stop bit, then zeros up to a whole byte. */
    method RbspTrailingBits() returns (b: Bytes)
      requires Valid()
      modifies this
      ensures Valid() && b == buf && nbit == 0
      ensures exists k :: 0 <= k < 8 && Flat(b) == old(Written()) + [1] + BitsOf(0, k)
    {
      hide Flat, BitsOf;
      ghost var w := Written();
      WriteBit(1);
      ghost var start, k := nbit, 0;
      NoBits(0);
      assert w + [1] + [] == w + [1];
      while nbit != 0
        invariant Valid() && k >= 0 && Written() == w + [1] + BitsOf(0, k)
        invariant nbit == (start + k) % 8 && start + k <= 8 && (start == 0 ==> k == 0)
        decreases 8 - k
      {
        NextBit(0, k + 1);
        WriteBit(0);
        assert w + [1] + BitsOf(0, k) + [0] == w + [1] + (BitsOf(0, k) + [0]);
        k := k + 1;
      }
      NoBits(cur);
      assert Flat(buf) + [] == Flat(buf);
      b := buf;
    }
  }

  // ---- reading, as sections 9.1 and 9.1.1 say ----

  /** The number that bits spell, highest first. */
  function Value(b: Bits): nat {
    if b == [] then 0 else 2 * Value(b[..|b| - 1]) + b[|b| - 1]
  }

  function LeadingZeros(b: Bits): (n: nat)
    ensures n <= |b| && (n < |b| ==> b[n] == 1) && forall k :: 0 <= k < n ==> b[k] == 0
  {
    if b == [] || b[0] == 1 then 0 else 1 + LeadingZeros(b[1..])
  }

  function ReadBits(b: Bits, n: nat): Option<(nat, Bits)> {
    if n > |b| then None else Some((Value(b[..n]), b[n..]))
  }

  function ReadUE(b: Bits): Option<(nat, Bits)> {
    var zeros := LeadingZeros(b);
    if zeros == |b| then None
    else
      match ReadBits(b[zeros + 1..], zeros)
      case None => None
      case Some(r) => Some((Pow2(zeros) - 1 + r.0, r.1))
  }

  /** The k-th signed value in the standard order. */
  function Signed(k: nat): int { if k % 2 == 1 then (k + 1) / 2 else -(k / 2) }

  /** Read a field of the same kind. */
  function ReadOne(b: Bits, f: Field): Option<(int, Bits)> {
    match f
    case U(_, n) => (match ReadBits(b, n) case None => None case Some(r) => Some((r.0, r.1)))
    case UE(_) => (match ReadUE(b) case None => None case Some(r) => Some((r.0, r.1)))
    case SE(_) => (match ReadUE(b) case None => None case Some(r) => Some((Signed(r.0), r.1)))
  }

  /** Read fields of the kinds of `fs`, and what is left. */
  function Read(b: Bits, fs: seq<Field>): Option<(seq<int>, Bits)>
    decreases |fs|
  {
    if fs == [] then Some(([], b))
    else
      match ReadOne(b, fs[0])
      case None => None
      case Some(r) =>
        match Read(r.1, fs[1..])
        case None => None
        case Some(more) => Some(([r.0] + more.0, more.1))
  }

  function ValueOf(f: Field): int {
    match f case U(v, _) => v case UE(v) => v case SE(x) => x
  }

  function Values(fs: seq<Field>): (vs: seq<int>)
    ensures |vs| == |fs|
  {
    seq(|fs|, k requires 0 <= k < |fs| => ValueOf(fs[k]))
  }

  /** What the writer can write: a number that fits its bits, and no number whose code would need
      33 bits. */
  predicate Writable(f: Field) {
    match f
    case U(v, n) => v < Pow2(n)
    case UE(v) => v != TWO32 - 1
    case SE(x) => x != -HALF32
  }

  lemma {:induction false} ValueOfBits(v: nat, n: nat)
    ensures Value(BitsOf(v, n)) < Pow2(n)
    ensures v < Pow2(n) <==> Value(BitsOf(v, n)) == v
  {
    if n > 0 {
      ValueOfBits(v / 2, n - 1);
      assert BitsOf(v, n)[..n - 1] == BitsOf(v / 2, n - 1);
    }
  }

  lemma {:induction false} LengthFits(v: nat)
    requires v > 0
    ensures Length(v) > 0 && Pow2(Length(v) - 1) <= v < Pow2(Length(v))
  {
    if v > 1 { LengthFits(v / 2); }
  }

  /** The highest bit of a number is one; the others spell what is left of it. */
  lemma {:induction false} TopBit(v: nat)
    requires v > 0
    ensures var n := Length(v);
      n > 0 && Pow2(n - 1) <= v && BitsOf(v, n) == [1] + BitsOf(v - Pow2(n - 1), n - 1)
  {
    if v > 1 {
      hide *;
      var n := Length(v);
      LengthFits(v);
      LengthFits(v / 2);
      LengthNext(v);
      PowNext(n - 1);
      TopBit(v / 2);
      assert (v - Pow2(n - 1)) / 2 == v / 2 - Pow2(n - 2) && (v - Pow2(n - 1)) % 2 == v % 2;
      BitsNext(v, n);
      BitsNext(v - Pow2(n - 1), n - 1);
    } else {
      assert BitsOf(1, 1) == [1] + BitsOf(0, 0);
    }
  }

  lemma LengthNext(v: nat)
    requires v > 0
    ensures Length(v) == 1 + Length(v / 2)
  {
  }

  lemma PowNext(n: nat)
    requires n > 0
    ensures Pow2(n) == 2 * Pow2(n - 1)
  {
  }

  lemma BitsNext(v: nat, n: nat)
    requires n > 0
    ensures BitsOf(v, n) == BitsOf(v / 2, n - 1) + [v % 2]
  {
  }

  lemma {:induction false} ZeroBits(n: nat)
    ensures forall k :: 0 <= k < n ==> BitsOf(0, n)[k] == 0
  {
    if n > 0 { ZeroBits(n - 1); }
  }

  lemma ZerosCounted(n: nat, b: Bits)
    ensures LeadingZeros(BitsOf(0, n) + [1] + b) == n
    ensures (BitsOf(0, n) + [1] + b)[n + 1..] == b
  {
    ZeroBits(n);
    var s := BitsOf(0, n) + [1] + b;
    assert forall k :: 0 <= k < n ==> s[k] == 0;
    assert s[n] == 1;
  }

  /** The shape of an unsigned code: as many zeros as bits behind the one. */
  lemma UnsignedShape(v: u32) returns (n: nat, low: nat)
    requires v != TWO32 - 1
    ensures UnsignedCode(v) == BitsOf(0, n) + [1] + BitsOf(low, n)
    ensures Value(BitsOf(low, n)) == low && Pow2(n) - 1 + low == v && Length(v + 1) == n + 1
  {
    hide *;
    var v1 := v + 1;
    TopBit(v1);
    LengthFits(v1);
    UnsignedCodeIs(v);
    n := Length(v1) - 1;
    low := v1 - Pow2(n);
    Doubles(n);
    ValueOfBits(low, n);
    assert BitsOf(0, n) + ([1] + BitsOf(low, n)) == BitsOf(0, n) + [1] + BitsOf(low, n);
  }

  lemma Doubles(n: nat)
    ensures Pow2(n + 1) == 2 * Pow2(n)
  {
  }

  lemma UnsignedCodeIs(v: u32)
    requires v != TWO32 - 1
    ensures Length(v + 1) > 0 && UnsignedCode(v) == BitsOf(0, Length(v + 1) - 1) + BitsOf(v + 1, Length(v + 1))
  {
    hide BitsOf;
  }

  lemma ShapeIsRead(n: nat, low: Bits, rest: Bits)
    requires |low| == n
    ensures ReadUE(BitsOf(0, n) + [1] + low + rest) == Some((Pow2(n) - 1 + Value(low), rest))
  {
    hide BitsOf, LeadingZeros, Value, Pow2;
    ZerosCounted(n, low + rest);
    assert BitsOf(0, n) + [1] + low + rest == BitsOf(0, n) + [1] + (low + rest);
    assert (low + rest)[..n] == low && (low + rest)[n..] == rest;
  }

  /** An unsigned code is read back, for every number but the largest. */
  lemma UnsignedIsRead(v: u32, rest: Bits)
    requires v != TWO32 - 1
    ensures ReadUE(UnsignedCode(v) + rest) == Some((v, rest))
  {
    hide *;
    var n, low := UnsignedShape(v);
    ShapeIsRead(n, BitsOf(low, n), rest);
  }

  lemma SignedIsInverse(x: int)
    requires -HALF32 < x < HALF32
    ensures Signed(CodeNum(x)) == x && CodeNum(x) != TWO32 - 1
  {
  }

  lemma OneIsRead(f: Field, rest: Bits)
    requires Callable(f) && Writable(f)
    ensures ReadOne(Code(f) + rest, f) == Some((ValueOf(f), rest))
  {
    match f {
      case U(v, n) =>
        ValueOfBits(v, n);
        assert (BitsOf(v, n) + rest)[..n] == BitsOf(v, n) && (BitsOf(v, n) + rest)[n..] == rest;
      case UE(v) => UnsignedIsRead(v, rest);
      case SE(x) =>
        SignedIsInverse(x);
        UnsignedIsRead(CodeNum(x), rest);
    }
  }

  lemma ReadNext(b: Bits, fs: seq<Field>, x: int, r: Bits, xs: seq<int>, rest: Bits)
    requires fs != [] && ReadOne(b, fs[0]) == Some((x, r)) && Read(r, fs[1..]) == Some((xs, rest))
    ensures Read(b, fs) == Some(([x] + xs, rest))
  {
    hide ReadOne;
  }

  lemma CodesNext(fs: seq<Field>, rest: Bits)
    requires fs != []
    ensures Codes(fs) + rest == Code(fs[0]) + (Codes(fs[1..]) + rest)
    ensures Values(fs) == [ValueOf(fs[0])] + Values(fs[1..])
  {
    hide Code, ValueOf;
  }

  lemma {:induction false} WritableIsRead(fs: seq<Field>, rest: Bits)
    requires forall k :: 0 <= k < |fs| ==> Callable(fs[k]) && Writable(fs[k])
    ensures Read(Codes(fs) + rest, fs) == Some((Values(fs), rest))
    decreases |fs|
  {
    hide *;
    if fs == [] {
      NothingIsRead(rest);
    } else {
      OneIsRead(fs[0], Codes(fs[1..]) + rest);
      WritableIsRead(fs[1..], rest);
      CodesNext(fs, rest);
      ReadNext(Codes(fs) + rest, fs, ValueOf(fs[0]), Codes(fs[1..]) + rest, Values(fs[1..]), rest);
    }
  }

  lemma NothingIsRead(rest: Bits)
    ensures Read(Codes([]) + rest, []) == Some((Values([]), rest))
  {
    assert Codes([]) + rest == rest;
  }

  // ---- and only those ----

  function CodeLength(k: nat): int { 2 * Length(k + 1) - 1 }

  /** How many bits the standard gives a field of this value. */
  function TrueLength(f: Field): int {
    match f
    case U(_, n) => n
    case UE(v) => CodeLength(v)
    case SE(x) => CodeLength(if x <= 0 then -2 * x else 2 * x - 1)
  }

  function TrueLengths(fs: seq<Field>): int {
    if fs == [] then 0 else TrueLength(fs[0]) + TrueLengths(fs[1..])
  }

  lemma {:induction false} ValueFits(b: Bits)
    ensures Value(b) < Pow2(|b|)
  {
    if b != [] { ValueFits(b[..|b| - 1]); }
  }

  lemma {:induction false} LengthIs(v: nat, n: nat)
    requires Pow2(n) <= v < Pow2(n + 1)
    ensures Length(v) == n + 1
  {
    if n > 0 { LengthIs(v / 2, n - 1); }
  }

  /** A number read as an unsigned code took as many bits as its code has. */
  lemma UnsignedConsumes(b: Bits)
    ensures ReadUE(b).Some? ==> |b| == CodeLength(ReadUE(b).value.0) + |ReadUE(b).value.1|
  {
    hide Value, LeadingZeros, Length;
    var zeros := LeadingZeros(b);
    if ReadUE(b).Some? {
      var low := b[zeros + 1..][..zeros];
      ValueFits(low);
      LengthIs(Pow2(zeros) + Value(low), zeros);
    }
  }

  lemma OneConsumes(b: Bits, f: Field)
    requires ReadOne(b, f).Some? && ReadOne(b, f).value.0 == ValueOf(f)
    ensures |b| == TrueLength(f) + |ReadOne(b, f).value.1| && (f.U? ==> Writable(f))
  {
    hide Value, LeadingZeros, Length, ReadUE, CodeLength;
    match f {
      case U(v, n) => ValueFits(b[..n]);
      case UE(v) => UnsignedConsumes(b);
      case SE(x) =>
        UnsignedConsumes(b);
        var k := ReadUE(b).value.0;
        assert k == if x <= 0 then -2 * x else 2 * x - 1;
    }
  }

  lemma ReadFirst(b: Bits, fs: seq<Field>)
    requires fs != [] && Read(b, fs).Some? && Read(b, fs).value.0 == Values(fs)
    ensures ReadOne(b, fs[0]).Some? && ReadOne(b, fs[0]).value.0 == ValueOf(fs[0])
    ensures var r := ReadOne(b, fs[0]).value.1;
      Read(r, fs[1..]).Some? && Read(r, fs[1..]).value.0 == Values(fs[1..])
      && Read(b, fs).value.1 == Read(r, fs[1..]).value.1
  {
    hide ReadOne, ValueOf;
    var one := ReadOne(b, fs[0]).value;
    var more := Read(one.1, fs[1..]).value;
    assert ([one.0] + more.0)[0] == Values(fs)[0] && ([one.0] + more.0)[1..] == more.0;
    assert Values(fs)[1..] == Values(fs[1..]);
  }

  lemma {:induction false} ReadConsumes(b: Bits, fs: seq<Field>)
    requires Read(b, fs).Some? && Read(b, fs).value.0 == Values(fs)
    ensures |b| == TrueLengths(fs) + |Read(b, fs).value.1|
    ensures forall k :: 0 <= k < |fs| && fs[k].U? ==> Writable(fs[k])
    decreases |fs|
  {
    if fs != [] {
      hide ReadOne, TrueLength, Writable, ValueOf, Read;
      ReadFirst(b, fs);
      OneConsumes(b, fs[0]);
      ReadConsumes(ReadOne(b, fs[0]).value.1, fs[1..]);
      forall k | 0 <= k < |fs| && fs[k].U? ensures Writable(fs[k]) {
        if k > 0 { assert fs[k] == fs[1..][k - 1]; }
      }
    }
  }

  /** The code of a number is as long as it must be, except that the numbers that need 33 bits get
      none or that of zero. */
  lemma UnsignedIsNotLonger(k: nat)
    requires k <= TWO32
    ensures k < TWO32 - 1 ==> |UnsignedCode(k)| == CodeLength(k)
    ensures k == TWO32 - 1 ==> |UnsignedCode(k)| < CodeLength(k)
    ensures k == TWO32 ==> |UnsignedCode(0)| < CodeLength(k)
  {
    hide BitsOf;
    if k < TWO32 - 1 {
      UnsignedCodeIs(k);
    } else {
      AtLeastTwo(k + 1);
      UnsignedCodeIs(0);
      assert Length(0) == 0 && Length(1) == 1;
    }
  }

  lemma AtLeastTwo(v: nat)
    requires v >= 2
    ensures Length(v) >= 2
  {
    assert Length(v / 2) >= 1;
  }

  lemma CodeIsNotLonger(f: Field)
    requires Callable(f)
    ensures |Code(f)| <= TrueLength(f) && (!f.U? && !Writable(f) ==> |Code(f)| < TrueLength(f))
  {
    hide UnsignedCode, CodeLength, BitsOf;
    match f {
      case U(v, n) =>
      case UE(v) => UnsignedIsNotLonger(v);
      case SE(x) => UnsignedIsNotLonger(if x <= 0 then -2 * x else 2 * x - 1);
    }
  }

  lemma {:induction false} CodesAreNotLonger(fs: seq<Field>)
    requires forall k :: 0 <= k < |fs| ==> Callable(fs[k])
    ensures |Codes(fs)| <= TrueLengths(fs)
    ensures |Codes(fs)| == TrueLengths(fs) ==> forall k :: 0 <= k < |fs| && !fs[k].U? ==> Writable(fs[k])
    decreases |fs|
  {
    if fs != [] {
      hide Code, TrueLength, Writable, Callable;
      CodeIsNotLonger(fs[0]);
      CodesAreNotLonger(fs[1..]);
      forall k | 0 <= k < |fs| && !fs[k].U? && |Codes(fs)| == TrueLengths(fs) ensures Writable(fs[k]) {
        if k > 0 { assert fs[k] == fs[1..][k - 1]; }
      }
    }
  }

  /** Any sequence of fields is read back, each with its value and nothing of what follows touched,
      exactly if the writer can write every one of them. */
  lemma ReadBackExactly(fs: seq<Field>, rest: Bits)
    requires forall k :: 0 <= k < |fs| ==> Callable(fs[k])
    ensures Read(Codes(fs) + rest, fs) == Some((Values(fs), rest)) <==> forall k :: 0 <= k < |fs| ==> Writable(fs[k])
  {
    hide Read, Codes, Writable, Callable, Values, TrueLengths;
    if Read(Codes(fs) + rest, fs) == Some((Values(fs), rest)) {
      ReadConsumes(Codes(fs) + rest, fs);
      CodesAreNotLonger(fs);
    } else if forall k :: 0 <= k < |fs| ==> Writable(fs[k]) {
      WritableIsRead(fs, rest);
    }
  }

  /** The finished payload is read back as the fields, a stop bit, and zeros to a whole byte. */
  lemma PayloadIsRead(fs: seq<Field>, b: Bytes, k: nat)
    requires forall j :: 0 <= j < |fs| ==> Callable(fs[j]) && Writable(fs[j])
    requires k < 8 && Flat(b) == Codes(fs) + [1] + BitsOf(0, k)
    ensures Read(Flat(b), fs) == Some((Values(fs), [1] + BitsOf(0, k)))
    ensures forall j :: 0 <= j < k ==> BitsOf(0, k)[j] == 0
  {
    hide Read, Codes, Writable, Callable, Values, Flat;
    WritableIsRead(fs, [1] + BitsOf(0, k));
    ZeroBits(k);
    assert Codes(fs) + [1] + BitsOf(0, k) == Codes(fs) + ([1] + BitsOf(0, k));
  }
}
