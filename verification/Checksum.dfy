/** The Internet checksum (section 1 of RFC 1071), over segments and IP headers. */
module Checksum {
  import opened Seq32

  type u16 = x: int | 0 <= x < 65536

  /** The 16-bit words of a buffer, an odd last byte padded with zero, summed. */
  function Sum(b: Bytes): nat {
    if b == [] then 0
    else if |b| == 1 then b[0] * 256
    else b[0] * 256 + b[1] + Sum(b[2..])
  }

  /** End-around carries until none is left. */
  function Fold(s: nat): (r: nat)
    ensures r <= 65535
  {
    if s < 65536 then s else Fold(s % 65536 + s / 65536)
  }

  /** The folded sum is the sum modulo 65535, and zero only for zero. */
  lemma {:induction false} FoldIsModulo(s: nat)
    ensures Fold(s) % 65535 == s % 65535 && (Fold(s) == 0 <==> s == 0)
  {
    if s >= 65536 {
      FoldIsModulo(s % 65536 + s / 65536);
      assert s == 65535 * (s / 65536) + (s % 65536 + s / 65536);
      Modulo(s % 65536 + s / 65536, s / 65536);
    }
  }

  lemma Modulo(r: nat, k: nat)
    ensures (65535 * k + r) % 65535 == r % 65535
  {
  }

  lemma FoldUnique(s: nat, r: nat)
    requires s > 0 && 0 < r <= 65535 && r % 65535 == s % 65535
    ensures Fold(s) == r
  {
    FoldIsModulo(s);
  }

  lemma {:induction false} SumAppend(a: Bytes, b: Bytes)
    requires |a| % 2 == 0
    ensures Sum(a + b) == Sum(a) + Sum(b)
  {
    if a == [] {
      assert a + b == b;
    } else {
      SumAppend(a[2..], b);
      assert (a + b)[2..] == a[2..] + b;
    }
  }

  lemma {:induction false} SumBound(b: Bytes)
    ensures Sum(b) <= (|b| + 1) / 2 * 65535
    decreases |b|
  {
    if |b| >= 2 {
      SumBound(b[2..]);
      assert (|b| + 1) / 2 == (|b| - 2 + 1) / 2 + 1;
    }
  }

  /** The loop both checksums share, in 32-bit arithmetic. */
  method AddUp(b: Bytes) returns (sum: u32)
    ensures sum == Sum(b) % TWO32
  {
    sum := 0;
    var i := 0;
    assert b[0..] == b;
    while i < |b| - 1
      invariant 0 <= i <= |b| && i % 2 == 0
      invariant (sum + Sum(b[i..])) % TWO32 == Sum(b) % TWO32
    {
      var high: int := b[i];
      var w := high * 256 + b[i + 1];
      assert b[i..][2..] == b[i + 2..];
      AddedLater(sum, w, Sum(b[i + 2..]));
      sum := (sum + w) % TWO32;
      i := i + 2;
    }
    if |b| % 2 == 1 {
      assert b[i..] == [b[|b| - 1]];
      var last: int := b[|b| - 1];
      sum := (sum + last * 256) % TWO32;
    } else {
      assert b[i..] == [];
    }
  }

  lemma AddedLater(s: nat, w: nat, rest: nat)
    ensures ((s + w) % TWO32 + rest) % TWO32 == (s + (w + rest)) % TWO32
  {
  }

  datatype Ends = Ends(src: seq<byte>, dst: seq<byte>)

  predicate Addresses(e: Ends) { |e.src| == 4 && |e.dst| == 4 }

  function Pseudo(e: Ends, proto: byte, len: nat): Bytes {
    e.src + e.dst + [0, proto] + [len / 256 % 256, len % 256]
  }

  /** What a receiver sums: the pseudo-header and the segment. */
  function Seen(e: Ends, proto: byte, l4: Bytes): nat {
    Sum(Pseudo(e, proto, |l4|) + l4)
  }

  /** It is the words of both addresses, the protocol, the length and the words of the segment. */
  lemma SeenIs(e: Ends, proto: byte, l4: Bytes)
    requires Addresses(e)
    ensures Seen(e, proto, l4) ==
      256 * e.src[0] + e.src[1] + 256 * e.src[2] + e.src[3] + 256 * e.dst[0] + e.dst[1] + 256 * e.dst[2] + e.dst[3]
      + proto + |l4| % 65536 + Sum(l4)
  {
    hide *;
    PseudoSum(e, proto, |l4|);
    SumAppend(Pseudo(e, proto, |l4|), l4);
    SeenSums(e, proto, l4);
  }

  lemma SeenSums(e: Ends, proto: byte, l4: Bytes)
    ensures Seen(e, proto, l4) == Sum(Pseudo(e, proto, |l4|) + l4)
  {
  }

  lemma PseudoSum(e: Ends, proto: byte, len: nat)
    requires Addresses(e)
    ensures |Pseudo(e, proto, len)| == 12
    ensures Sum(Pseudo(e, proto, len)) ==
      256 * e.src[0] + e.src[1] + 256 * e.src[2] + e.src[3] + 256 * e.dst[0] + e.dst[1] + 256 * e.dst[2] + e.dst[3]
      + proto + len % 65536
  {
    var w6 := [len / 256 % 256, len % 256];
    var w5 := [0, proto] + w6;
    var w4 := [e.dst[2], e.dst[3]] + w5;
    var w3 := [e.dst[0], e.dst[1]] + w4;
    var w2 := [e.src[2], e.src[3]] + w3;
    assert Pseudo(e, proto, len) == [e.src[0], e.src[1]] + w2;
    assert w6 == [len / 256 % 256, len % 256] + [];
    hide Pseudo;
    SumWord(e.src[0], e.src[1], w2);
    SumWord(e.src[2], e.src[3], w3);
    SumWord(e.dst[0], e.dst[1], w4);
    SumWord(e.dst[2], e.dst[3], w5);
    SumWord(0, proto, w6);
    SumWord(len / 256 % 256, len % 256, []);
    LengthWord(len);
  }

  lemma LengthWord(len: nat)
    ensures 256 * (len / 256 % 256) + len % 256 == len % 65536 && Sum([]) == 0
  {
  }

  lemma SumWord(x: byte, y: byte, rest: Bytes)
    ensures Sum([x, y] + rest) == 256 * x + y + Sum(rest)
  {
    assert ([x, y] + rest)[2..] == rest;
  }

  method L4Checksum(l4: Bytes, e: Ends, proto: byte) returns (c: u16)
    requires Addresses(e)
    ensures c == 65535 - Fold(Seen(e, proto, l4) % TWO32)
  {
    var sum := AddUp(Pseudo(e, proto, |l4|) + l4);
    ghost var all := sum;
    while sum / 65536 > 0
      invariant sum >= 0 && Fold(sum) == Fold(all)
      decreases sum
    {
      sum := sum % 65536 + sum / 65536;
    }
    return 65535 - sum;
  }

  // ---- rewriting the checksum of a segment ----

  function With(b: Bytes, off: nat, c: u16): Bytes
    requires off + 1 < |b|
  {
    b[off := c / 256][off + 1 := c % 256]
  }

  /** A checksum at an even place adds to the sum just what it is. */
  lemma {:induction false} SumWith(b: Bytes, off: nat, c: u16)
    requires off + 1 < |b| && off % 2 == 0
    ensures Sum(With(b, off, c)) == Sum(With(b, off, 0)) + c
  {
    if off > 0 {
      SumWith(b[2..], off - 2, c);
      assert With(b, off, c)[2..] == With(b[2..], off - 2, c);
      assert With(b, off, 0)[2..] == With(b[2..], off - 2, 0);
    } else {
      assert With(b, off, c)[2..] == With(b, off, 0)[2..] == b[2..];
    }
  }

  lemma SeenWith(e: Ends, proto: byte, b: Bytes, off: nat, c: u16)
    requires Addresses(e) && off + 1 < |b| && off % 2 == 0
    ensures Seen(e, proto, With(b, off, c)) == Seen(e, proto, With(b, off, 0)) + c
  {
    var p := Pseudo(e, proto, |b|);
    SumAppend(p, With(b, off, c));
    SumAppend(p, With(b, off, 0));
    SumWith(b, off, c);
  }

  lemma SeenFits(e: Ends, proto: byte, b: Bytes)
    requires Addresses(e) && |b| <= 65535
    ensures Seen(e, proto, b) < TWO32
  {
    SumBound(Pseudo(e, proto, |b|) + b);
  }

  lemma MadeUp(s: nat, f: nat, c: nat)
    requires f <= 65535 && f % 65535 == s % 65535 && (c == 65535 - f || (c == 65535 && f == 65535))
    ensures (s + c) % 65535 == 0
  {
    assert (s - f) % 65535 == 0;
  }

  /** A segment whose checksum makes up for its sum, zero sent as all ones or not, sums to all ones. */
  lemma Completes(s: nat, c: u16)
    requires c == 65535 - Fold(s) || (c == 65535 && Fold(s) == 65535)
    ensures Fold(s + c) == 65535
  {
    hide Fold;
    FoldIsModulo(s);
    MadeUp(s, Fold(s), c);
    FoldUnique(s + c, 65535);
  }

  /** After the rewrite every TCP or UDP segment that has room for a checksum sums, with its
      pseudo-header, to all ones; a computed zero goes out as all ones over UDP; nothing else is touched. */
  method RewriteL4Checksum(l4: array<byte>, proto: byte, e: Ends)
    requires Addresses(e)
    modifies l4
    ensures proto == 6 && 18 <= l4.Length <= 65535 ==>
      && Fold(Seen(e, proto, l4[..])) == 65535
      && forall i :: 0 <= i < l4.Length && i != 16 && i != 17 ==> l4[i] == old(l4[i])
    ensures proto == 17 && 8 <= l4.Length <= 65535 ==>
      && Fold(Seen(e, proto, l4[..])) == 65535 && (l4[6], l4[7]) != (0, 0)
      && forall i :: 0 <= i < l4.Length && i != 6 && i != 7 ==> l4[i] == old(l4[i])
    ensures !(proto == 6 && l4.Length >= 18) && !(proto == 17 && l4.Length >= 8) ==> l4[..] == old(l4[..])
  {
    if proto == 6 {
      if l4.Length < 18 {
        return;
      }
      l4[16], l4[17] := 0, 0;
      var sum := L4Checksum(l4[..], e, 6);
      l4[16], l4[17] := sum / 256, sum % 256;
      ghost var b := old(l4[..]);
      assert l4[..] == With(b, 16, sum);
      if l4.Length <= 65535 { RewrittenCompletes(e, 6, b, 16, sum); }
    } else if proto == 17 {
      if l4.Length < 8 {
        return;
      }
      l4[6], l4[7] := 0, 0;
      var sum := L4Checksum(l4[..], e, 17);
      if sum == 0 {
        sum := 65535;
      }
      l4[6], l4[7] := sum / 256, sum % 256;
      ghost var b := old(l4[..]);
      assert l4[..] == With(b, 6, sum);
      if l4.Length <= 65535 { RewrittenCompletes(e, 17, b, 6, sum); }
    }
  }

  lemma RewrittenCompletes(e: Ends, proto: byte, b: Bytes, off: nat, c: u16)
    requires Addresses(e) && off + 1 < |b| <= 65535 && off % 2 == 0
    requires var s := Fold(Seen(e, proto, With(b, off, 0)) % TWO32); c == 65535 - s || (c == 65535 && s == 65535)
    ensures Fold(Seen(e, proto, With(b, off, c))) == 65535
  {
    hide Fold, Seen;
    SeenFits(e, proto, With(b, off, 0));
    SeenWith(e, proto, b, off, c);
    Completes(Seen(e, proto, With(b, off, 0)), c);
  }

  // ---- the two fixed folds of the IP header ----

  function TwoFolds(s: u32): u16 {
    var a := s / 65536 + s % 65536;
    (a + a / 65536) % 65536
  }

  /** For a 32-bit sum two folds are as good as folding until done. */
  lemma TwoFoldsAreEnough(s: u32)
    ensures TwoFolds(s) == Fold(s)
  {
    var a := s / 65536 + s % 65536;
    assert Fold(s) == Fold(a);
    if a >= 65536 { assert Fold(a) == a % 65536 + 1; }
  }

  method IPChecksum(b: Bytes) returns (c: u16)
    ensures c == 65535 - Fold(Sum(b) % TWO32)
  {
    var sum := AddUp(b);
    TwoFoldsAreEnough(sum);
    var s := sum / 65536 + sum % 65536;
    s := s + s / 65536;
    return 65535 - s % 65536;
  }

  /** The header checksum is the one folded until done exactly if the words sum to less than 2^32
      (for any buffer shorter than 2^32 bytes). */
  lemma FoldsExactly(b: Bytes)
    requires |b| < TWO32
    ensures Fold(Sum(b) % TWO32) == Fold(Sum(b)) <==> Sum(b) < TWO32
  {
    hide Fold, Sum;
    var s := Sum(b);
    SumBound(b);
    var k, r := s / TWO32, s % TWO32;
    if s >= TWO32 {
      FoldIsModulo(s);
      FoldIsModulo(r);
      CarryCounts(r, k);
      assert 0 < k < 65535;
      Moved(r, k);
    }
  }

  lemma Moved(r: nat, k: nat)
    requires 0 < k < 65535
    ensures (r + k) % 65535 != r % 65535
  {
  }

  /** Each 2^32 that is lost changes the sum by one, modulo 65535. */
  lemma CarryCounts(r: nat, k: nat)
    ensures (TWO32 * k + r) % 65535 == (r + k) % 65535
  {
    assert TWO32 == 65535 * 65537 + 1;
    assert TWO32 * k + r == 65535 * (65537 * k) + (r + k);
    Modulo(r + k, 65537 * k);
  }

  /** Up to 131074 bytes it always is... */
  lemma ShortSumsFit(b: Bytes)
    requires |b| <= 131074
    ensures Sum(b) < TWO32 && Fold(Sum(b) % TWO32) == Fold(Sum(b))
  {
    hide Fold, Sum;
    SumBound(b);
    Below(Sum(b), |b|);
  }

  lemma Below(s: nat, n: nat)
    requires n <= 131074 && s <= (n + 1) / 2 * 65535
    ensures s < TWO32 && s % TWO32 == s
  {
  }

  function Ones(n: nat): Bytes { seq(n, _ => 255) }

  lemma {:induction false} SumOfOnes(n: nat)
    ensures Sum(Ones(n)) == n / 2 * 65535 + n % 2 * 65280
  {
    if n >= 2 {
      SumOfOnes(n - 2);
      assert Ones(n)[2..] == Ones(n - 2);
    }
  }

  /** ...and one byte more is too many: that many bytes of all ones get a wrong checksum. */
  lemma OneByteTooMany()
    ensures Fold(Sum(Ones(131075)) % TWO32) != Fold(Sum(Ones(131075)))
  {
    SumOfOnes(131075);
    FoldsExactly(Ones(131075));
  }
}
