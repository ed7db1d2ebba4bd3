/** Packets carried as a byte stream inside cursor numbers: six bytes to a number, the stream cut
    over messages, and put back together separately for every member of a room. */
module CupsStream {
  import opened Seq32
  import opened BigEndian
  import opened AckWire
  import opened Records

  const PER: int := 6
  const MAX_PAYLOAD: int := 65535

  /** Bytes of the stream that one message carries. */
  type Cut = m: int | 0 < m < 65536 witness 4096

  // ---- numbers ----

  function ByteAt(blob: Bytes, k: nat): byte { if k < |blob| then blob[k] else 0 }

  /** Six bytes from `at` on, zeros past the end. */
  function Six(blob: Bytes, at: nat): (b: Bytes)
    ensures |b| == PER
  {
    seq<byte>(PER, j requires 0 <= j < PER => ByteAt(blob, at + j))
  }

  function Numbers(blob: Bytes): (n: nat) { (|blob| + PER - 1) / PER }

  function Packed(blob: Bytes): (ns: seq<u64>)
    ensures |ns| == Numbers(blob)
  {
    seq(Numbers(blob), i requires 0 <= i < Numbers(blob) => Number(blob, i))
  }

  function Number(blob: Bytes, i: nat): (v: u64)
    ensures v < Pow256(6)
  {
    Widths();
    Get(Six(blob, PER * i))
  }

  function Unpacked(ns: seq<u64>): (b: Bytes)
    ensures |b| == PER * |ns|
  {
    if ns == [] then [] else Unpacked(ns[..|ns| - 1]) + Put(ns[|ns| - 1], 6)
  }

  lemma {:induction false} UnpackedAppend(a: seq<u64>, b: seq<u64>)
    ensures Unpacked(a + b) == Unpacked(a) + Unpacked(b)
  {
    if b == [] {
      assert a + b == a;
    } else {
      var n := |b| - 1;
      UnpackedAppend(a, b[..n]);
      assert (a + b)[..|a + b| - 1] == a + b[..n];
    }
  }

  function Zeros(n: nat): Bytes { seq(n, _ => 0) }

  lemma {:induction false} FirstNumbers(blob: Bytes, n: nat)
    requires n <= Numbers(blob)
    ensures forall k :: 0 <= k < PER * n ==> Unpacked(Packed(blob)[..n])[k] == ByteAt(blob, k)
  {
    if n > 0 {
      var ns := Packed(blob);
      FirstNumbers(blob, n - 1);
      assert ns[..n][..n - 1] == ns[..n - 1];
      var six := Six(blob, PER * (n - 1));
      PutGet(six);
      assert Unpacked(ns[..n]) == Unpacked(ns[..n - 1]) + six;
    }
  }

  /** Unpacking gives the bytes back, followed by at most five zeros. */
  lemma UnpackedPacked(blob: Bytes)
    ensures var u := Unpacked(Packed(blob));
      |blob| <= |u| < |blob| + PER && u == blob + Zeros(|u| - |blob|)
  {
    var ns := Packed(blob);
    FirstNumbers(blob, |ns|);
    assert ns[..|ns|] == ns;
    var u := Unpacked(ns);
    forall k | 0 <= k < |u| ensures u[k] == (blob + Zeros(|u| - |blob|))[k] {
      assert u[k] == ByteAt(blob, k);
    }
  }

  method PackNumbers(blob: Bytes) returns (out: seq<u64>)
    ensures out == Packed(blob)
  {
    var n := (|blob| + PER - 1) / PER;
    var nums := new u64[n](_ => 0);
    var i := 0;
    while i < n
      invariant 0 <= i <= n == Numbers(blob) && nums.Length == n
      invariant forall k :: 0 <= k < i ==> nums[k] == Number(blob, k)
    {
      var v := PackOne(blob, i);
      nums[i] := v;
      i := i + 1;
    }
    out := nums[..];
    assert forall k :: 0 <= k < n ==> out[k] == Number(blob, k);
  }

  lemma GetShort(b: Bytes)
    requires |b| <= PER
    ensures Get(b) < Pow256(6) == 0x1_0000_0000_0000
  {
    Widths();
    PowGrows(|b|, 6);
  }

  lemma {:induction false} PowGrows(i: nat, j: nat)
    requires i <= j
    ensures Pow256(i) <= Pow256(j)
    decreases j
  {
    if i < j { PowGrows(i, j - 1); }
  }

  lemma GetNext(six: Bytes, j: nat, v: nat, b: byte)
    requires j < |six| <= PER && v == Get(six[..j]) && six[j] == b
    ensures Get(six[..j + 1]) == v * 256 + b < TWO64 && v * 256 < TWO64
  {
    assert six[..j + 1][..j] == six[..j];
    GetShort(six[..j + 1]);
  }

  method PackOne(blob: Bytes, i: nat) returns (v: u64)
    ensures v == Number(blob, i)
  {
    v := 0;
    ghost var six := Six(blob, PER * i);
    var j := 0;
    while j < PER
      invariant 0 <= j <= PER && v == Get(six[..j]) < TWO64
    {
      var idx := i * PER + j;
      GetNext(six, j, v, ByteAt(blob, idx));
      v := v * 256;
      if idx < |blob| {
        v := v + blob[idx];
      }
      j := j + 1;
    }
    assert six[..6] == six;
  }

  method BytesFromNumbers(ns: seq<u64>) returns (out: Bytes)
    ensures out == Unpacked(ns)
  {
    out := [];
    var i := 0;
    while i < |ns|
      invariant 0 <= i <= |ns| && out == Unpacked(ns[..i])
    {
      var b := new byte[PER](_ => 0);
      var v := ns[i];
      var j := PER - 1;
      while j >= 0
        invariant -1 <= j < PER && b.Length == PER && v >= 0
        invariant Put(v, j + 1) + b[j + 1..] == Put(ns[i], 6)
      {
        assert b[j + 1..] == b[j + 1..PER];
        ghost var rest := b[j + 1..];
        b[j] := v % 256;
        assert b[j..] == [v % 256] + rest;
        assert Put(v, j + 1) + rest == Put(v / 256, j) + ([v % 256] + rest);
        v := v / 256;
        j := j - 1;
      }
      assert b[..] == Put(ns[i], 6);
      assert ns[..i + 1][..i] == ns[..i];
      out := out + b[..];
      i := i + 1;
    }
    assert ns[..|ns|] == ns;
  }

  // ---- messages ----

  /** What a message says: the length of its chunk, then the chunk. */
  function Payload(chunk: Bytes): Bytes { Put(|chunk| % 65536, 2) + chunk }

  /** The chunk read out of a message's numbers, if they are well-formed. */
  function ChunkIn(ns: seq<u64>): Option<Bytes> {
    var d := Unpacked(ns);
    if |d| < 2 then None
    else
      var n := Get16(d[..2]);
      if 2 + n > |d| then None else Some(d[2..2 + n])
  }

  lemma StartsWith(d: Bytes, len: Bytes, chunk: Bytes, tail: Bytes)
    requires |len| == 2 && d == len + chunk + tail
    ensures d[..2] == len && d[2..2 + |chunk|] == chunk
  {
  }

  /** A chunk is read back whatever zeros were added to pair the numbers up. */
  lemma ChunkIsRead(chunk: Bytes, more: seq<u64>)
    requires |chunk| < 65536
    ensures ChunkIn(Packed(Payload(chunk)) + more) == Some(chunk)
  {
    hide Packed, Unpacked, Put, Get;
    var p := Payload(chunk);
    UnpackedPacked(p);
    UnpackedAppend(Packed(p), more);
    var d := Unpacked(Packed(p) + more);
    StartsWith(d, Put(|chunk|, 2), chunk, d[|p|..]);
    Widths();
    GetPut(|chunk|, 2);
  }

  // ---- the stream ----

  /** The chunks of a blob. */
  function Chunks(blob: Bytes, m: Cut): seq<Bytes>
    decreases |blob|
  {
    if |blob| == 0 then []
    else if |blob| <= m then [blob]
    else [blob[..m]] + Chunks(blob[m..], m)
  }

  function Concat(cs: seq<Bytes>): Bytes {
    if cs == [] then [] else Concat(cs[..|cs| - 1]) + cs[|cs| - 1]
  }

  lemma {:induction false} ConcatAppend(a: seq<Bytes>, b: seq<Bytes>)
    ensures Concat(a + b) == Concat(a) + Concat(b)
  {
    if b == [] {
      assert a + b == a;
    } else {
      ConcatAppend(a, b[..|b| - 1]);
      assert (a + b)[..|a + b| - 1] == a + b[..|b| - 1];
    }
  }

  lemma {:induction false} ChunksJoin(blob: Bytes, m: Cut)
    ensures Concat(Chunks(blob, m)) == blob
    ensures forall k :: 0 <= k < |Chunks(blob, m)| ==> |Chunks(blob, m)[k]| <= m
    decreases |blob|
  {
    if |blob| > m {
      ChunksJoin(blob[m..], m);
      ConcatAppend([blob[..m]], Chunks(blob[m..], m));
      assert Concat([blob[..m]]) == blob[..m];
      assert blob[..m] + blob[m..] == blob;
    }
  }

  function MessagesOf(cs: seq<Bytes>): (ms: seq<seq<u64>>)
    ensures |ms| == |cs|
  {
    seq(|cs|, k requires 0 <= k < |cs| => Packed(Payload(cs[k])))
  }

  lemma MessagesAppend(cs: seq<Bytes>, c: Bytes)
    ensures MessagesOf(cs + [c]) == MessagesOf(cs) + [Packed(Payload(c))]
  {
  }

  /** The batch is framed into one stream and cut; each chunk goes as its own message. */
  method SendBatch(batch: seq<Bytes>, m: Cut) returns (ms: seq<seq<u64>>)
    ensures ms == MessagesOf(Chunks(Stream(batch), m))
  {
    hide Packed;
    var blob: Bytes := [];
    var i := 0;
    while i < |batch|
      invariant 0 <= i <= |batch| && blob == Stream(batch[..i])
    {
      StreamAppend(batch[..i], [batch[i]]);
      assert batch[..i] + [batch[i]] == batch[..i + 1];
      assert Stream([batch[i]]) == Put(|batch[i]| % 65536, 2) + batch[i];
      blob := blob + Put(|batch[i]| % 65536, 2);
      blob := blob + batch[i];
      i := i + 1;
    }
    assert batch[..|batch|] == batch;
    ms := SendChunks(blob, m);
  }

  method SendChunks(blob: Bytes, m: Cut) returns (ms: seq<seq<u64>>)
    ensures ms == MessagesOf(Chunks(blob, m))
  {
    hide Packed, Payload;
    ms := [];
    ghost var cs: seq<Bytes> := [];
    var off := 0;
    while off < |blob|
      invariant 0 <= off <= |blob|
      invariant ms == MessagesOf(cs) && Chunks(blob, m) == cs + Chunks(blob[off..], m)
    {
      var end := if off + m < |blob| then off + m else |blob|;
      var chunk := blob[off..end];
      NextChunk(blob, off, m);
      MessagesAppend(cs, chunk);
      assert cs + ([chunk] + Chunks(blob[end..], m)) == cs + [chunk] + Chunks(blob[end..], m);
      var one := SendChunk(chunk);
      ms := ms + [one];
      cs := cs + [chunk];
      off := if off + m < |blob| then off + m else |blob|;
    }
    assert blob[|blob|..] == [];
    assert cs + [] == cs;
  }

  lemma NextChunk(blob: Bytes, off: nat, m: Cut)
    requires off < |blob|
    ensures var end := if off + m < |blob| then off + m else |blob|;
      Chunks(blob[off..], m) == [blob[off..end]] + Chunks(blob[end..], m)
  {
    if off + m < |blob| {
      assert blob[off..][..m] == blob[off..off + m] && blob[off..][m..] == blob[off + m..];
    } else {
      assert blob[off..|blob|] == blob[off..] && blob[|blob|..] == [];
    }
  }

  method SendChunk(chunk: Bytes) returns (ns: seq<u64>)
    ensures ns == Packed(Payload(chunk))
  {
    ns := PackNumbers(Put(|chunk| % 65536, 2) + chunk);
  }

  /** The whole packets at the head of a buffer, and what is left; a zero length drops everything. */
  function Take(buf: Bytes): (r: (seq<Bytes>, Bytes))
    decreases |buf|
  {
    if |buf| < 2 then ([], buf)
    else
      var n: int := Get16(buf[..2]);
      if n == 0 then ([], [])
      else if |buf| < 2 + n then ([], buf)
      else
        var (ps, rest) := Take(buf[2 + n..]);
        ([buf[2..2 + n]] + ps, rest)
  }

  /** No zero length is met. */
  predicate Synced(buf: Bytes)
    decreases |buf|
  {
    |buf| < 2 ||
    var n: int := Get16(buf[..2]);
    n != 0 && (|buf| < 2 + n || Synced(buf[2 + n..]))
  }

  /** What `Take` does with a buffer that holds a whole packet. */
  lemma TakeFirst(p: Bytes, rest: Bytes)
    requires 0 < |p| < 65536
    ensures var b := Put(|p|, 2) + p + rest;
      Take(b) == ([p] + Take(rest).0, Take(rest).1) && (Synced(b) <==> Synced(rest))
  {
    var b := Put(|p|, 2) + p + rest;
    StartsWith(b, Put(|p|, 2), p, rest);
    assert b[2 + |p|..] == rest;
    Widths();
    GetPut(|p|, 2);
  }

  /** A synced buffer is too short for its first packet, or starts with it. */
  lemma SyncedStarts(a: Bytes) returns (p: Bytes, rest: Bytes)
    requires Synced(a)
    ensures Take(a) == ([], a) || (0 < |p| < 65536 && a == Put(|p|, 2) + p + rest && Synced(rest))
  {
    p, rest := [], [];
    if |a| >= 2 && |a| >= 2 + Get16(a[..2]) {
      var n: int := Get16(a[..2]);
      PutGet(a[..2]);
      p, rest := a[2..2 + n], a[2 + n..];
      assert a == a[..2] + p + rest;
    }
  }

  lemma {:induction false} TakeAppend(a: Bytes, b: Bytes)
    requires Synced(a)
    ensures Take(a + b) == (Take(a).0 + Take(Take(a).1 + b).0, Take(Take(a).1 + b).1)
    decreases |a|
  {
    hide *;
    var p, rest := SyncedStarts(a);
    if Take(a) == ([], a) {
      assert [] + Take(a + b).0 == Take(a + b).0;
    } else {
      TakeAppend(rest, b);
      assert a + b == Put(|p|, 2) + p + (rest + b);
      TakeFirst(p, rest);
      TakeFirst(p, rest + b);
      var more := Take(Take(rest).1 + b).0;
      assert [p] + (Take(rest).0 + more) == ([p] + Take(rest).0) + more;
    }
  }

  predicate Packets(ps: seq<Bytes>) {
    forall k :: 0 <= k < |ps| ==> 0 < |ps[k]| < 65536
  }

  lemma ShortIsLeft(p: Bytes, first: Bytes, more: Bytes)
    requires 0 < |first| < 65536 && p <= Put(|first|, 2) + first + more && |p| < 2 + |first|
    ensures Synced(p) && Take(p) == ([], p)
  {
    if |p| >= 2 {
      var s := Put(|first|, 2) + first + more;
      assert p[..2] == s[..2] == Put(|first|, 2);
      Widths();
      GetPut(|first|, 2);
    }
  }

  lemma PrefixSplits(p: Bytes, head: Bytes, more: Bytes)
    requires p <= head + more && |p| >= |head|
    ensures p == head + p[|head|..] && p[|head|..] <= more
  {
  }

  /** Of a prefix of the stream the receiver takes a prefix of the packets; what is left is less
      than one packet, and nothing is left of the whole stream. */
  lemma {:induction false} TakePrefix(p: Bytes, ps: seq<Bytes>)
    requires Packets(ps) && p <= Stream(ps)
    ensures Synced(p) && Take(p).0 <= ps && |Take(p).1| <= MAX_PAYLOAD + 1
    ensures p == Stream(ps) ==> Take(p) == (ps, [])
    decreases |ps|
  {
    if ps != [] {
      var first := ps[0];
      var head := Put(|first|, 2) + first;
      assert Stream(ps) == head + Stream(ps[1..]);
      if |p| < |head| {
        ShortIsLeft(p, first, Stream(ps[1..]));
      } else {
        PrefixSplits(p, head, Stream(ps[1..]));
        var rest := p[|head|..];
        hide Take, Synced, Stream, Put;
        TakePrefix(rest, ps[1..]);
        TakeFirst(first, rest);
        assert [first] + ps[1..] == ps;
      }
    }
  }

  /** An empty packet would put the receiver out of step: its length drops what was buffered. */
  lemma EmptyPacketDropsTheRest(rest: Bytes)
    ensures Take(Stream([[]]) + rest) == ([], [])
  {
    var b := Stream([[]]) + rest;
    assert Stream([[]]) == Put(0, 2);
    assert b[..2] == Put(0, 2);
    Widths();
    GetPut(0, 2);
  }

  /** Whatever the bytes, what is taken are packets: neither empty nor longer than 65535 bytes. */
  lemma {:induction false} TakenArePackets(b: Bytes)
    ensures Packets(Take(b).0)
    decreases |b|
  {
    hide Get;
    if |b| >= 2 {
      var n: int := Get16(b[..2]);
      if n != 0 && |b| >= 2 + n { TakenArePackets(b[2 + n..]); }
    }
  }

  /** The receiver takes a whole stream as the packets it was made of exactly if none of them is
      empty or too long. */
  lemma TakesAllExactly(ps: seq<Bytes>)
    ensures Take(Stream(ps)) == (ps, []) <==> Packets(ps)
  {
    hide Take, Stream;
    TakenArePackets(Stream(ps));
    if Packets(ps) { TakePrefix(Stream(ps), ps); }
  }
}
