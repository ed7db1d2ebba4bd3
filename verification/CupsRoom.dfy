/** The receiving side of a room: one running buffer per member. */
module CupsRoom {
  import opened Seq32
  import opened BigEndian
  import opened AckWire
  import opened CupsStream
  import opened Records
  import CursorText

  datatype Up = Up(sender: string, packet: Bytes)
  datatype Room = Room(bufs: map<string, Bytes>, up: seq<Up>)
  datatype Message = Message(sender: string, nums: seq<u64>)

  function Tagged(sender: string, ps: seq<Bytes>): (us: seq<Up>)
    ensures |us| == |ps| && forall k :: 0 <= k < |ps| ==> us[k] == Up(sender, ps[k])
  {
    seq(|ps|, k requires 0 <= k < |ps| => Up(sender, ps[k]))
  }

  function BufOf(r: Room, who: string): Bytes { if who in r.bufs then r.bufs[who] else [] }

  /** A member with nothing pending, or with more than a packet and a message, holds no buffer. */
  function Kept(bufs: map<string, Bytes>, who: string, rest: Bytes, m: Cut): map<string, Bytes> {
    if |rest| == 0 || |rest| > MAX_PAYLOAD + m then bufs - {who} else bufs[who := rest]
  }

  function Delivered(r: Room, msg: Message, m: Cut): Room {
    match ChunkIn(msg.nums)
    case None => r
    case Some(chunk) =>
      var (ps, rest) := Take(BufOf(r, msg.sender) + chunk);
      Room(Kept(r.bufs, msg.sender, rest, m), r.up + Tagged(msg.sender, ps))
  }

  class Receiver {
    const m: Cut
    var recvBufs: map<string, Bytes>
    var up: seq<Up>

    function State(): Room
      reads this
    {
      Room(recvBufs, up)
    }

    constructor (m: Cut)
      ensures State() == Room(map[], []) && this.m == m
    {
      this.m := m;
      recvBufs, up := map[], [];
    }

    method DeliverNums(sender: string, nums: seq<u64>)
      modifies this
      ensures State() == Delivered(old(State()), Message(sender, nums), m)
    {
      hide Unpacked, Get, Put;
      var decoded := BytesFromNumbers(nums);
      if |decoded| < 2 {
        return;
      }
      var dataLen: int := Get16(decoded[..2]);
      if 2 + dataLen > |decoded| {
        return;
      }
      var chunk := decoded[2..2 + dataLen];
      var buf := (if sender in recvBufs then recvBufs[sender] else []) + chunk;
      var rest := PullOut(sender, buf);
      if |rest| == 0 || |rest| > MAX_PAYLOAD + m {
        recvBufs := recvBufs - {sender};
      } else {
        recvBufs := recvBufs[sender := rest];
      }
    }

    /** Hand up the whole packets at the head of the buffer. */
    method PullOut(sender: string, buf: Bytes) returns (rest: Bytes)
      modifies this`up
      ensures up == old(up) + Tagged(sender, Take(buf).0) && rest == Take(buf).1
    {
      hide Get, Put;
      var adv := 0;
      ghost var ps: seq<Bytes> := [];
      assert buf[0..] == buf && ps + Take(buf).0 == Take(buf).0;
      while |buf| - adv >= 2
        invariant 0 <= adv <= |buf| && up == old(up) + Tagged(sender, ps)
        invariant Take(buf) == (ps + Take(buf[adv..]).0, Take(buf[adv..]).1)
        decreases |buf| - adv
      {
        var b := buf[adv..];
        assert b[..2] == buf[adv..adv + 2];
        var n: int := Get16(buf[adv..adv + 2]);
        if n == 0 {
          adv := |buf|;
          break;
        }
        if |buf| - adv < 2 + n {
          break;
        }
        var pkt := buf[adv + 2..adv + 2 + n];
        assert b[2..2 + n] == pkt && b[2 + n..] == buf[adv + 2 + n..];
        up := up + [Up(sender, pkt)];
        assert ps + ([pkt] + Take(b[2 + n..]).0) == (ps + [pkt]) + Take(b[2 + n..]).0;
        assert Tagged(sender, ps + [pkt]) == Tagged(sender, ps) + [Up(sender, pkt)];
        ps := ps + [pkt];
        adv := adv + 2 + n;
      }
      rest := buf[adv..];
      assert ps + [] == ps;
    }
  }

  // ---- any number of members at once ----

  function After(trace: seq<Message>, m: Cut): Room {
    if trace == [] then Room(map[], []) else Delivered(After(trace[..|trace| - 1], m), trace[|trace| - 1], m)
  }

  /** Whatever messages come, a member's pending bytes are never none and never more than a packet of the
      greatest size and a message. */
  lemma {:induction false} PendingIsBounded(trace: seq<Message>, m: Cut, who: string)
    requires who in After(trace, m).bufs
    ensures 0 < |After(trace, m).bufs[who]| <= MAX_PAYLOAD + m
  {
    hide Take, ChunkIn, Tagged;
    if trace != [] {
      var before, last := After(trace[..|trace| - 1], m), trace[|trace| - 1];
      if who in before.bufs { PendingIsBounded(trace[..|trace| - 1], m, who); }
    }
  }

  function From(trace: seq<Message>, who: string): seq<seq<u64>> {
    if trace == [] then []
    else
      var last := trace[|trace| - 1];
      From(trace[..|trace| - 1], who) + if last.sender == who then [last.nums] else []
  }

  /** The packets of one member, in the order they were handed up. */
  function UpFrom(up: seq<Up>, who: string): seq<Bytes> {
    if up == [] then []
    else
      var last := up[|up| - 1];
      UpFrom(up[..|up| - 1], who) + if last.sender == who then [last.packet] else []
  }

  lemma {:induction false} UpFromTagged(up: seq<Up>, sender: string, ps: seq<Bytes>, who: string)
    ensures UpFrom(up + Tagged(sender, ps), who) == UpFrom(up, who) + if sender == who then ps else []
  {
    if ps == [] {
      assert up + Tagged(sender, ps) == up;
    } else {
      var n := |ps| - 1;
      var all := up + Tagged(sender, ps);
      assert all[..|all| - 1] == up + Tagged(sender, ps[..n]);
      UpFromTagged(up, sender, ps[..n], who);
      assert ps == ps[..n] + [ps[n]];
    }
  }

  function Flat(batches: seq<seq<Bytes>>): seq<Bytes> {
    if batches == [] then [] else Flat(batches[..|batches| - 1]) + batches[|batches| - 1]
  }

  /** The chunks a member sends for its batches, one after the other. */
  function ChunksOf(batches: seq<seq<Bytes>>, m: Cut): seq<Bytes> {
    if batches == [] then [] else ChunksOf(batches[..|batches| - 1], m) + Chunks(Stream(batches[|batches| - 1]), m)
  }

  lemma {:induction false} ChunksOfJoin(batches: seq<seq<Bytes>>, m: Cut)
    ensures Concat(ChunksOf(batches, m)) == Stream(Flat(batches))
    ensures forall k :: 0 <= k < |ChunksOf(batches, m)| ==> |ChunksOf(batches, m)[k]| <= m
  {
    if batches != [] {
      var n := |batches| - 1;
      ChunksOfJoin(batches[..n], m);
      ChunksJoin(Stream(batches[n]), m);
      ConcatAppend(ChunksOf(batches[..n], m), Chunks(Stream(batches[n]), m));
      StreamAppend(Flat(batches[..n]), batches[n]);
    }
  }

  /** What has come from one member are the messages of its batches so far, in order. */
  predicate Faithful(got: seq<seq<u64>>, cs: seq<Bytes>) {
    |got| <= |cs| && forall k :: 0 <= k < |got| ==> got[k] == CursorText.Paired(Packed(Payload(cs[k])))
  }

  lemma PairedIsRead(c: Bytes)
    requires |c| < 65536
    ensures ChunkIn(CursorText.Paired(Packed(Payload(c)))) == Some(c)
  {
    hide *;
    var ns := Packed(Payload(c));
    ChunkIsRead(c, [0]);
    ChunkIsRead(c, []);
    PairedOne(ns);
  }

  lemma PairedOne(ns: seq<u64>)
    ensures CursorText.Paired(ns) == ns + [0] || CursorText.Paired(ns) == ns + []
  {
  }

  lemma {:induction false} ConcatPrefix(cs: seq<Bytes>, n: nat)
    requires n <= |cs|
    ensures Concat(cs[..n]) <= Concat(cs)
  {
    ConcatAppend(cs[..n], cs[n..]);
    assert cs[..n] + cs[n..] == cs;
  }

  /** The member's share of the room after `n` of its messages. */
  ghost predicate UpTo(r: Room, who: string, cs: seq<Bytes>, n: nat)
    requires n <= |cs|
  {
    (UpFrom(r.up, who), BufOf(r, who)) == Take(Concat(cs[..n]))
  }

  /** Another member's message changes nothing for `who`. */
  lemma OthersDoNotDisturb(r: Room, msg: Message, who: string, m: Cut)
    requires msg.sender != who
    ensures BufOf(Delivered(r, msg, m), who) == BufOf(r, who)
    ensures UpFrom(Delivered(r, msg, m).up, who) == UpFrom(r.up, who)
  {
    hide Take, ChunkIn, UpFrom;
    if ChunkIn(msg.nums).Some? {
      UpFromTagged(r.up, msg.sender, Take(BufOf(r, msg.sender) + ChunkIn(msg.nums).value).0, who);
    }
  }

  lemma NextChunkIsTaken(r: Room, who: string, cs: seq<Bytes>, n: nat, ps: seq<Bytes>, msg: Message, m: Cut)
    requires Packets(ps) && Concat(cs) == Stream(ps) && n < |cs| && |cs[n]| < 65536
    requires UpTo(r, who, cs, n) && msg == Message(who, CursorText.Paired(Packed(Payload(cs[n]))))
    ensures UpTo(Delivered(r, msg, m), who, cs, n + 1)
  {
    PairedIsRead(cs[n]);
    ConcatPrefix(cs, n);
    ConcatPrefix(cs, n + 1);
    assert cs[..n + 1][..n] == cs[..n];
    var d, chunk := Concat(cs[..n]), cs[n];
    assert Concat(cs[..n + 1]) == d + chunk;
    hide Take, ChunkIn, UpFrom, Synced, Concat, Packed, Payload, CursorText.Paired, Stream;
    TakePrefix(d, ps);
    TakePrefix(d + chunk, ps);
    TakeAppend(d, chunk);
    UpFromTagged(r.up, who, Take(BufOf(r, who) + chunk).0, who);
  }

  lemma {:induction false} RunIsExact(trace: seq<Message>, who: string, cs: seq<Bytes>, ps: seq<Bytes>, m: Cut)
    requires Packets(ps) && Concat(cs) == Stream(ps) && forall k :: 0 <= k < |cs| ==> |cs[k]| <= m
    requires Faithful(From(trace, who), cs)
    ensures UpTo(After(trace, m), who, cs, |From(trace, who)|)
  {
    hide *;
    FromLast(trace, who, cs, m);
    if trace != [] {
      var before, msg := trace[..|trace| - 1], trace[|trace| - 1];
      var n := |From(before, who)|;
      RunIsExact(before, who, cs, ps, m);
      if msg.sender == who {
        NextChunkIsTaken(After(before, m), who, cs, n, ps, msg, m);
      } else {
        OthersKeep(After(before, m), msg, who, cs, n, m);
      }
    } else {
      NothingYet(who, cs, m);
    }
  }

  lemma NothingYet(who: string, cs: seq<Bytes>, m: Cut)
    ensures UpTo(After([], m), who, cs, 0)
  {
    assert cs[..0] == [];
  }

  /** The last message of a trace, if it is from `who`, carries the next chunk. */
  lemma FromLast(trace: seq<Message>, who: string, cs: seq<Bytes>, m: Cut)
    requires Faithful(From(trace, who), cs)
    ensures |From(trace, who)| <= |cs| && (trace == [] ==> From(trace, who) == [])
    ensures trace != [] ==>
      var before, msg := trace[..|trace| - 1], trace[|trace| - 1];
      && Faithful(From(before, who), cs) && After(trace, m) == Delivered(After(before, m), msg, m)
      && |From(trace, who)| == |From(before, who)| + (if msg.sender == who then 1 else 0)
      && (msg.sender == who ==> msg.nums == CursorText.Paired(Packed(Payload(cs[|From(before, who)|]))))
  {
    hide Packed, Payload, CursorText.Paired, Delivered;
    if trace != [] {
      var before, msg := trace[..|trace| - 1], trace[|trace| - 1];
      assert forall k :: 0 <= k < |From(before, who)| ==> From(before, who)[k] == From(trace, who)[k];
      if msg.sender == who { assert From(trace, who)[|From(before, who)|] == msg.nums; }
    }
  }

  lemma OthersKeep(r: Room, msg: Message, who: string, cs: seq<Bytes>, n: nat, m: Cut)
    requires msg.sender != who && n <= |cs| && UpTo(r, who, cs, n)
    ensures UpTo(Delivered(r, msg, m), who, cs, n)
  {
    OthersDoNotDisturb(r, msg, who, m);
  }

  /** The room delivers each member's packets exactly: whatever other members send in between, even
      garbage, what was handed up of a member is a prefix of its packets, the rest is pending in at
      most 65536 bytes (so its stream is never reset), and once all its messages came, it is all of
      them, with nothing pending. */
  lemma EveryMemberExactly(trace: seq<Message>, who: string, batches: seq<seq<Bytes>>, m: Cut)
    requires Packets(Flat(batches)) && Faithful(From(trace, who), ChunksOf(batches, m))
    ensures var r := After(trace, m);
      && UpFrom(r.up, who) <= Flat(batches) && |BufOf(r, who)| <= MAX_PAYLOAD + 1 <= MAX_PAYLOAD + m
      && (|From(trace, who)| == |ChunksOf(batches, m)| ==> UpFrom(r.up, who) == Flat(batches) && who !in r.bufs)
  {
    var cs, ps := ChunksOf(batches, m), Flat(batches);
    ChunksOfJoin(batches, m);
    var n := |From(trace, who)|;
    RunIsExact(trace, who, cs, ps, m);
    ConcatPrefix(cs, n);
    assert cs[..|cs|] == cs;
    NoEmptyBuffer(trace, m, who);
    hide Take, UpFrom, After, From, Stream, Faithful, ChunksOf, Concat;
    TakePrefix(Concat(cs[..n]), ps);
  }

  lemma {:induction false} NoEmptyBuffer(trace: seq<Message>, m: Cut, who: string)
    ensures who in After(trace, m).bufs ==> After(trace, m).bufs[who] != []
  {
    if trace != [] { NoEmptyBuffer(trace[..|trace| - 1], m, who); }
  }

  lemma DeliversPackets(r: Room, msg: Message, who: string, m: Cut)
    requires Packets(UpFrom(r.up, who))
    ensures Packets(UpFrom(Delivered(r, msg, m).up, who))
  {
    hide Take, ChunkIn, UpFrom;
    if ChunkIn(msg.nums).Some? {
      var buf := BufOf(r, msg.sender) + ChunkIn(msg.nums).value;
      TakenArePackets(buf);
      UpFromTagged(r.up, msg.sender, Take(buf).0, who);
    }
  }

  /** Whatever comes in, only packets are handed up: none empty, none longer than 65535 bytes. */
  lemma {:induction false} OnlyPacketsGoUp(trace: seq<Message>, who: string, m: Cut)
    ensures Packets(UpFrom(After(trace, m).up, who))
  {
    if trace != [] {
      hide Delivered, UpFrom;
      OnlyPacketsGoUp(trace[..|trace| - 1], who, m);
      DeliversPackets(After(trace[..|trace| - 1], m), trace[|trace| - 1], who, m);
    } else {
      assert UpFrom([], who) == [];
    }
  }

  /** Once all messages of a member came, what was handed up are its packets exactly if it sent none
      that is empty or too long. */
  lemma ExactWithoutEmptyPackets(trace: seq<Message>, who: string, batches: seq<seq<Bytes>>, m: Cut)
    requires Faithful(From(trace, who), ChunksOf(batches, m)) && |From(trace, who)| == |ChunksOf(batches, m)|
    ensures UpFrom(After(trace, m).up, who) == Flat(batches) <==> Packets(Flat(batches))
  {
    hide *;
    OnlyPacketsGoUp(trace, who, m);
    if Packets(Flat(batches)) { EveryMemberExactly(trace, who, batches, m); }
  }
}
