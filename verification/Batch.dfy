/** Batches: queued packets framed together, compressed when that helps, and split up again. */
module Batch {
  import opened Seq32
  import opened BigEndian
  import opened AckWire
  import opened Records

  const VERSION: byte := 0x02
  const FLAG_ZSTD: byte := 0x01
  const MAX_BYTES: int := 0x10_0000
  const MAX_RECORDS: int := 1024

  /** The compressor; its decoder undoes it. */
  datatype Zstd = Zstd(enc: Bytes -> Bytes, dec: Bytes -> Option<Bytes>)

  ghost predicate Inverse(z: Zstd) { forall b :: z.dec(z.enc(b)) == Some(b) }

  predicate Small(ps: seq<Bytes>) { forall k :: 0 <= k < |ps| ==> |ps[k]| <= 65535 }

  method FrameBatch(ps: seq<Bytes>) returns (out: Bytes)
    ensures out == Stream(ps)
  {
    out := [];
    var i := 0;
    while i < |ps|
      invariant 0 <= i <= |ps| && out == Stream(ps[..i])
    {
      StreamAppend(ps[..i], [ps[i]]);
      assert ps[..i] + [ps[i]] == ps[..i + 1];
      assert Stream([ps[i]]) == Put(|ps[i]| % 65536, 2) + ps[i];
      out := out + Put(|ps[i]| % 65536, 2);
      out := out + ps[i];
      i := i + 1;
    }
    assert ps[..|ps|] == ps;
  }

  function Encoded(z: Zstd, ps: seq<Bytes>): Bytes {
    var framed := Stream(ps);
    var packed := z.enc(framed);
    if |packed| < |framed| then [VERSION, FLAG_ZSTD] + packed else [VERSION, 0] + framed
  }

  method EncodeBatch(z: Zstd, ps: seq<Bytes>) returns (out: Bytes)
    ensures out == Encoded(z, ps)
  {
    var framed := FrameBatch(ps);
    var packed := z.enc(framed);
    if |packed| < |framed| {
      out := [VERSION, FLAG_ZSTD];
      return out + packed;
    }
    out := [VERSION, 0];
    return out + framed;
  }

  /** The records of a frame after `got` of them were read; None if it is cut short or has too many. */
  function Split(framed: Bytes, got: nat): Option<seq<Bytes>>
    decreases |framed|
  {
    if framed == [] then Some([])
    else if got >= MAX_RECORDS || |framed| < 2 then None
    else
      var n: int := Get16(framed[..2]);
      if |framed| < 2 + n then None
      else
        match Split(framed[2 + n..], got + 1)
        case None => None
        case Some(ps) => Some([framed[2..2 + n]] + ps)
  }

  function Decoded(z: Zstd, data: Bytes): Option<seq<Bytes>> {
    if |data| > MAX_BYTES + 2 || |data| < 2 || data[0] != VERSION || data[1] > FLAG_ZSTD then None
    else
      var framed := if data[1] == FLAG_ZSTD then z.dec(data[2..]) else Some(data[2..]);
      if framed.None? || |framed.value| > MAX_BYTES then None else Split(framed.value, 0)
  }

  method DecodeBatch(z: Zstd, data: Bytes) returns (r: Option<seq<Bytes>>)
    ensures r == Decoded(z, data)
  {
    if |data| > MAX_BYTES + 2 {
      return None;
    }
    if |data| < 2 {
      return None;
    }
    if data[0] != VERSION {
      return None;
    }
    var flags := data[1];
    if flags > FLAG_ZSTD {
      return None;
    }
    var framed := data[2..];
    if flags == FLAG_ZSTD {
      var plain := z.dec(framed);
      if plain.None? {
        return None;
      }
      framed := plain.value;
    }
    if |framed| > MAX_BYTES {
      return None;
    }
    r := SplitUp(framed);
  }

  function After(ps: seq<Bytes>, r: Option<seq<Bytes>>): Option<seq<Bytes>> {
    match r case None => None case Some(rest) => Some(ps + rest)
  }

  method SplitUp(all: Bytes) returns (r: Option<seq<Bytes>>)
    ensures r == Split(all, 0)
  {
    hide Get;
    var framed := all;
    var ps: seq<Bytes> := [];
    if Split(all, 0).Some? { assert [] + Split(all, 0).value == Split(all, 0).value; }
    while |framed| > 0
      invariant Split(all, 0) == After(ps, Split(framed, |ps|))
      decreases |framed|
    {
      if |ps| >= MAX_RECORDS {
        return None;
      }
      if |framed| < 2 {
        return None;
      }
      ghost var before := framed;
      var n: int := Get16(framed[..2]);
      framed := framed[2..];
      if |framed| < n {
        return None;
      }
      assert before[2 + n..] == framed[n..] && before[2..2 + n] == framed[..n];
      ghost var rest := Split(framed[n..], |ps| + 1);
      if rest.Some? { assert ps + ([framed[..n]] + rest.value) == (ps + [framed[..n]]) + rest.value; }
      ps := ps + [framed[..n]];
      framed := framed[n..];
    }
    assert ps + [] == ps;
    return Some(ps);
  }

  // ---- splitting undoes framing ----

  function Behind(p: Bytes, r: Option<seq<Bytes>>): Option<seq<Bytes>> {
    match r case None => None case Some(ps) => Some([p] + ps)
  }

  lemma HeadIsRead(p: Bytes, rest: Bytes)
    requires |p| <= 65535
    ensures var f := Put(|p|, 2) + p + rest;
      |f| >= 2 && Get16(f[..2]) == |p| && f[2..2 + |p|] == p && f[2 + |p|..] == rest
  {
    hide Put, Get;
    var f := Put(|p|, 2) + p + rest;
    assert f[..2] == Put(|p|, 2);
    Widths();
    GetPut(|p|, 2);
  }

  lemma SplitNext(p: Bytes, rest: Bytes, got: nat)
    requires |p| <= 65535
    ensures Split(Put(|p|, 2) + p + rest, got) == if got >= MAX_RECORDS then None else Behind(p, Split(rest, got + 1))
  {
    hide Put, Get;
    HeadIsRead(p, rest);
  }

  /** Whatever can be split starts with a whole record. */
  lemma SplitStarts(f: Bytes, got: nat) returns (p: Bytes, rest: Bytes)
    requires f != [] && Split(f, got).Some?
    ensures |p| <= 65535 && got < MAX_RECORDS && f == Put(|p|, 2) + p + rest
    ensures Split(rest, got + 1).Some? && Split(f, got) == Behind(p, Split(rest, got + 1))
  {
    hide Put, Get;
    var n: int := Get16(f[..2]);
    PutGet(f[..2]);
    p, rest := f[2..2 + n], f[2 + n..];
    assert f == f[..2] + p + rest;
  }

  lemma SmallNext(ps: seq<Bytes>)
    requires ps != [] && Small(ps)
    ensures |ps[0]| <= 65535 && |ps[0]| % 65536 == |ps[0]| && Small(ps[1..])
  {
  }

  lemma StreamIs(ps: seq<Bytes>)
    requires ps != []
    ensures Stream(ps) == Put(|ps[0]| % 65536, 2) + ps[0] + Stream(ps[1..])
  {
  }

  lemma StreamNext(ps: seq<Bytes>)
    requires ps != [] && Small(ps)
    ensures Stream(ps) == Put(|ps[0]|, 2) + ps[0] + Stream(ps[1..]) && Stream(ps) != []
    ensures |ps[0]| <= 65535 && Small(ps[1..]) && [ps[0]] + ps[1..] == ps
  {
    hide *;
    SmallNext(ps);
    StreamIs(ps);
  }

  lemma StreamOfMore(p: Bytes, ps: seq<Bytes>)
    requires |p| <= 65535 && Small(ps)
    ensures Small([p] + ps) && Stream([p] + ps) == Put(|p|, 2) + p + Stream(ps)
  {
    StreamNext([p] + ps);
    assert ([p] + ps)[1..] == ps;
  }

  lemma SplitNothing(got: nat)
    ensures Split([], got) == Some([]) && Stream([]) == [] && Small([])
  {
  }

  /** A frame is split into the packets it was made of, as long as they are not too many. */
  lemma {:induction false} FramedIsSplit(ps: seq<Bytes>, got: nat)
    requires Small(ps)
    ensures Split(Stream(ps), got) == if ps == [] || got + |ps| <= MAX_RECORDS then Some(ps) else None
    decreases |ps|
  {
    hide Split, Stream, Small, Put;
    SplitNothing(got);
    if ps != [] {
      StreamNext(ps);
      FramedIsSplit(ps[1..], got + 1);
      SplitNext(ps[0], Stream(ps[1..]), got);
    }
  }

  /** Only frames are split. */
  lemma {:induction false} SplitIsFramed(f: Bytes, got: nat)
    requires Split(f, got).Some?
    ensures var ps := Split(f, got).value;
      Stream(ps) == f && Small(ps) && (ps == [] || got + |ps| <= MAX_RECORDS)
    decreases |f|
  {
    hide Split, Stream, Small, Put;
    SplitNothing(got);
    if f != [] {
      var p, rest := SplitStarts(f, got);
      SplitIsFramed(rest, got + 1);
      StreamOfMore(p, Split(rest, got + 1).value);
    }
  }

  /** Within the limits a batch is decoded to the packets it was made of. */
  lemma DecodedEncoded(z: Zstd, ps: seq<Bytes>)
    requires Inverse(z) && Small(ps)
    ensures Decoded(z, Encoded(z, ps)) ==
      if |Stream(ps)| <= MAX_BYTES && |ps| <= MAX_RECORDS then Some(ps) else None
  {
    hide Stream, Split;
    var framed := Stream(ps);
    var packed := z.enc(framed);
    var data := Encoded(z, ps);
    FramedIsSplit(ps, 0);
    assert z.dec(packed) == Some(framed);
    if |packed| < |framed| {
      assert data[2..] == packed;
    } else {
      assert data[2..] == framed;
    }
  }

  /** A frame is as short as it can be: it carries the flag exactly if compression makes it shorter. */
  lemma EncodedIsShortest(z: Zstd, ps: seq<Bytes>)
    ensures var plain, packed := |Stream(ps)|, |z.enc(Stream(ps))|;
      && |Encoded(z, ps)| == 2 + Least(plain, packed)
      && (Encoded(z, ps)[1] == FLAG_ZSTD <==> packed < plain)
  {
  }

  /** For any bytes: they are decoded to `ps` exactly if, with a good version and flag, they are the
      frame of `ps`, compressed or not as the flag says, within every limit. */
  lemma DecodedExactly(z: Zstd, data: Bytes, ps: seq<Bytes>)
    ensures Decoded(z, data) == Some(ps) <==>
      && 2 <= |data| <= MAX_BYTES + 2 && data[0] == VERSION && data[1] in {0, FLAG_ZSTD}
      && (if data[1] == FLAG_ZSTD then z.dec(data[2..]) else Some(data[2..])) == Some(Stream(ps))
      && |Stream(ps)| <= MAX_BYTES && |ps| <= MAX_RECORDS && Small(ps)
  {
    hide Stream, Split, Small;
    if 2 <= |data| <= MAX_BYTES + 2 && data[0] == VERSION && data[1] in {0, FLAG_ZSTD} {
      var framed := if data[1] == FLAG_ZSTD then z.dec(data[2..]) else Some(data[2..]);
      if framed.Some? && Split(framed.value, 0) == Some(ps) { SplitIsFramed(framed.value, 0); }
      if framed == Some(Stream(ps)) && Small(ps) { FramedIsSplit(ps, 0); }
    }
  }

  // ---- what the flush loop builds ----

  const SLACK: int := 65537 // a length and the longest packet

  function Size(ps: seq<Bytes>): nat { |Stream(ps)| }

  lemma SizeAppend(ps: seq<Bytes>, p: Bytes)
    ensures Size(ps + [p]) == Size(ps) + 2 + |p|
  {
    StreamAppend(ps, [p]);
    assert Stream([p]) == Put(|p| % 65536, 2) + p;
  }

  function Least(a: int, b: int): int { if a < b then a else b }

  predicate Within(ps: seq<Bytes>) { |ps| <= MAX_RECORDS - 1 && Size(ps) <= MAX_BYTES - 1 }

  /** What one receive of the linger phase yields: the next queued packet, or the end. */
  datatype Event = Arrived | TimerFired | StopSignal

  function Joined(frames: seq<seq<Bytes>>): seq<Bytes> {
    if frames == [] then [] else Joined(frames[..|frames| - 1]) + frames[|frames| - 1]
  }

  class Batched {
    const z: Zstd
    const maxBatchBytes: int
    const maxBatchCount: int
    const linger: bool
    var running: bool
    var queue: seq<Bytes>

    ghost var accepted: seq<Bytes>   // every packet ever queued
    ghost var batches: seq<seq<Bytes>>
    var sent: seq<Bytes>             // the frames handed to the carrier

    /** Every frame sent is within the limits and decoded to its batch, and the batches are the
        accepted packets, in order, up to what is still queued (or what a stop cut off). */
    ghost predicate Valid()
      reads this
    {
      && Inverse(z) && maxBatchBytes <= MAX_BYTES - SLACK && maxBatchCount <= MAX_RECORDS - 1
      && Small(queue) && Joined(batches) <= accepted
      && (running ==> Joined(batches) + queue == accepted)
      && |sent| == |batches|
      && forall k :: 0 <= k < |sent| ==> Within(batches[k]) && Decoded(z, sent[k]) == Some(batches[k])
    }

    /** Whatever is configured, the limits leave room for one more packet. */
    constructor (z: Zstd, bytes: int, count: int, linger: bool)
      requires Inverse(z)
      ensures Valid() && this.z == z && this.linger == linger && accepted == [] && running
      ensures maxBatchBytes == Least(bytes, 0x10_0000 - 65537) && maxBatchCount == Least(count, 1023)
    {
      this.z, this.linger := z, linger;
      maxBatchBytes := Least(bytes, MAX_BYTES - SLACK);
      maxBatchCount := Least(count, MAX_RECORDS - 1);
      running, queue, sent, accepted, batches := true, [], [], [], [];
    }

    method Send(data: Bytes, room: bool) returns (ok: bool)
      requires Valid()
      modifies this`queue, this`accepted
      ensures Valid() && ok == (running && |data| <= 65535 && room)
      ensures accepted == if ok then old(accepted) + [data] else old(accepted)
    {
      if !running {
        return false;
      }
      if |data| > 65535 {
        return false;
      }
      if !room {
        return false;
      }
      assert Joined(batches) + (queue + [data]) == (Joined(batches) + queue) + [data];
      queue := queue + [data];
      accepted := accepted + [data];
      return true;
    }

    method Stop()
      requires Valid()
      modifies this`running
      ensures Valid() && !running
    {
      running := false;
    }

    /** The first packet, and what is queued up to the limits; `ready` of them without waiting.
        Packets that come in meanwhile count as queued. */
    method Gather(ready: nat, events: seq<Event>) returns (batch: seq<Bytes>, stop: bool)
      requires Valid() && running && queue != []
      modifies this`queue
      ensures batch + queue == old(queue) && Within(batch) && Small(batch) && Small(queue)
      ensures |batch| > 1 ==> |batch| <= maxBatchCount && Size(batch[..|batch| - 1]) < maxBatchBytes
      ensures Size(batch) < maxBatchBytes && |batch| < maxBatchCount ==> |batch| > ready || queue == []
      ensures stop ==> linger && StopSignal in events
    {
      hide Stream, Encoded, Decoded, Joined, Size;
      var first := queue[0];
      batch, stop := [first], false;
      var size := 2 + |first|;
      OneSize(first);
      queue := queue[1..];
      assert batch + queue == old(queue);
      var n := ready;
      while size < maxBatchBytes && |batch| < maxBatchCount && n > 0 && |queue| > 0
        invariant batch + queue == old(queue) && batch != [] && size == Size(batch)
        invariant |batch| == 1 || |batch| <= maxBatchCount
        invariant size <= SLACK || size < maxBatchBytes + SLACK
        invariant Small(batch) && Small(queue)
        invariant |batch| > 1 ==> Size(batch[..|batch| - 1]) < maxBatchBytes
        invariant n + |batch| == ready + 1
        decreases |queue|
      {
        batch, size := TakeOne(batch, size);
        n := n - 1;
      }
      if linger && size < maxBatchBytes && |batch| < maxBatchCount {
        var e := 0;
        while size < maxBatchBytes && |batch| < maxBatchCount && e < |events|
          invariant 0 <= e <= |events| && batch + queue == old(queue) && batch != [] && size == Size(batch)
          invariant |batch| == 1 || |batch| <= maxBatchCount
          invariant size <= SLACK || size < maxBatchBytes + SLACK
          invariant Small(batch) && Small(queue)
          invariant |batch| > 1 ==> Size(batch[..|batch| - 1]) < maxBatchBytes
          invariant |batch| > ready || queue == []
          decreases |events| - e
        {
          if events[e] == StopSignal {
            return batch, true;
          }
          if events[e] == TimerFired {
            break;
          }
          if |queue| > 0 {
            batch, size := TakeOne(batch, size);
          }
          e := e + 1;
        }
      }
    }

    method TakeOne(batch: seq<Bytes>, size: nat) returns (b: seq<Bytes>, s: nat)
      requires queue != [] && size == Size(batch) && Small(batch) && Small(queue)
      modifies this`queue
      ensures b + queue == batch + old(queue) && |b| == |batch| + 1 && b[..|batch|] == batch
      ensures |queue| == |old(queue)| - 1
      ensures s == Size(b) && s <= size + SLACK && Small(b) && Small(queue)
    {
      hide Size;
      var p := queue[0];
      queue := queue[1..];
      SizeAppend(batch, p);
      b, s := batch + [p], size + 2 + |p|;
    }

    /** One turn of the flush loop. A stop during the linger drops the batch. */
    method Flush(ready: nat, events: seq<Event>)
      requires Valid() && running && queue != []
      modifies this
      ensures Valid() && accepted == old(accepted) && old(batches) <= batches
      ensures running ==> |batches| == |old(batches)| + 1
    {
      hide Stream, Encoded, Decoded, Size, Within;
      var batch, stop := Gather(ready, events);
      if stop {
        running := false;
        return;
      }
      var encoded := EncodeBatch(z, batch);
      WithinIsDecoded(z, batch);
      assert (batches + [batch])[..|batches|] == batches;
      assert Joined(batches) + (batch + queue) == (Joined(batches) + batch) + queue;
      sent := sent + [encoded];
      batches := batches + [batch];
    }
  }

  lemma OneSize(p: Bytes)
    ensures Size([p]) == 2 + |p|
  {
    SizeAppend([], p);
    assert [] + [p] == [p];
  }

  /** A batch within the limits is never rejected. */
  lemma WithinIsDecoded(z: Zstd, ps: seq<Bytes>)
    requires Inverse(z) && Small(ps) && Within(ps)
    ensures Decoded(z, Encoded(z, ps)) == Some(ps)
  {
    DecodedEncoded(z, ps);
  }
}
