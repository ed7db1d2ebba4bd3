/** The sender's ring of pieces in flight, indexed by wrapped numbers. */
module SenderRing {
  import opened Seq32
  import opened BigEndian
  import opened AckWire
  import opened Acks
  import opened Flight
  import opened RoundTrip
  import FrameQueue

  datatype Entry = Entry(seqNo: u32, ok: bool, p: TxPiece)

  const MS: int := 1_000_000
  const NOTHING: TxPiece := TxPiece([], false, 0, 0, 0, 0, 0, 0)

  predicate AllIn(xs: seq<int>, live: map<int, TxPiece>) {
    forall k :: 0 <= k < |xs| ==> xs[k] in live
  }

  function Bufs(live: map<int, TxPiece>, xs: seq<int>): (bs: seq<Bytes>)
    requires AllIn(xs, live)
    ensures |bs| == |xs|
  {
    seq(|xs|, k requires 0 <= k < |xs| => live[xs[k]].buf)
  }

  /** New pieces, numbered from `first` on, as they go on the wire. */
  function Cut(first: int, low: int, news: seq<Bytes>): (bs: seq<Bytes>)
    ensures |bs| == |news|
  {
    seq(|news|, k requires 0 <= k < |news| => Framed(first + k, low, news[k]))
  }

  class Sender {
    const frames: FrameQueue.FrameQueue
    const ackInterval: int

    var seqNo: u32
    var low: u32
    var ring: array<Entry>
    var rtxQ: seq<u32>
    var ack: Option<Bytes>
    var laneTx: seq<int>
    var laneAck: seq<int>

    var srtt: int
    var rttvar: int
    var minRTT: int
    var minRTTAt: int

    ghost var tx: Tx          // the abstract state
    ghost var owner: seq<int> // the index each slot was last filled for

    /** The ring holds exactly the pieces in flight, each in the slot of its number. */
    ghost predicate Holds()
      reads this, ring
    {
      && ring.Length == RING && |owner| == RING
      && seqNo == Wrap(tx.seqNo) && low == Wrap(tx.low)
      && tx.low <= tx.seqNo + 1 <= tx.low + RING
      && laneTx == tx.laneTx && laneAck == tx.laneAck && |laneTx| == |laneAck| == LANES
      && |rtxQ| == |tx.rtxQ| && (forall k :: 0 <= k < |rtxQ| ==> rtxQ[k] == Wrap(tx.rtxQ[k]))
      && (forall i :: i in tx.live ==> tx.low <= i <= tx.seqNo)
      && (forall i :: i in tx.live ==> ring[SlotOf(i)] == Entry(Wrap(i), true, tx.live[i]) && owner[SlotOf(i)] == i)
      && (forall k :: 0 <= k < RING && ring[k].ok ==> owner[k] in tx.live && SlotOf(owner[k]) == k)
      && srtt >= 0 && rttvar >= 0 && minRTT >= 0
    }

    ghost predicate Valid()
      reads this, ring, frames
    {
      Holds() && TxOk(tx) && frames.Valid()
    }

    constructor (frames: FrameQueue.FrameQueue, first: u32, ackInterval: int)
      requires frames.Valid() && ackInterval >= 0
      ensures Valid() && fresh(ring) && this.frames == frames && this.ackInterval == ackInterval
      ensures tx == Tx(first, first + 1, map[], [], seq(LANES, _ => 0), seq(LANES, _ => 0)) && ack == None
    {
      this.frames, this.ackInterval := frames, ackInterval;
      seqNo, low, rtxQ, ack := first, Succ(first), [], None;
      laneTx, laneAck := seq(LANES, _ => 0), seq(LANES, _ => 0);
      ring := new Entry[RING](_ => Entry(0, false, NOTHING));
      srtt, rttvar, minRTT, minRTTAt := 0, 0, 0, 0;
      tx := Tx(first, first + 1, map[], [], seq(LANES, _ => 0), seq(LANES, _ => 0));
      owner := seq(RING, _ => 0);
    }

    /** A slot answers for a number iff that piece is in flight. */
    lemma Lookup(i: int)
      requires Holds() && tx.seqNo - (TWO32 - RING) < i < tx.low + HALF32
      ensures SlotOf(Wrap(i)) == SlotOf(i)
      ensures ring[SlotOf(i)].ok && ring[SlotOf(i)].seqNo == Wrap(i) <==> i in tx.live
      ensures i in tx.live ==> ring[SlotOf(i)].p == tx.live[i]
    {
      WrapSlot(i);
      var k := SlotOf(i);
      if ring[k].ok && ring[k].seqNo == Wrap(i) {
        WrapInjective(owner[k], i);
      }
    }

    /** Change what is kept about a piece in flight. */
    method Revise(slot: nat, p: TxPiece, ghost i: int)
      requires Holds() && i in tx.live && slot == SlotOf(i)
      modifies this`tx, ring
      ensures Holds() && tx == old(tx).(live := old(tx.live)[i := p])
    {
      hide Wrap, SlotOf;
      ring[slot] := ring[slot].(p := p);
      forall j | j in tx.live && j != i
        ensures SlotOf(j) != slot
      {
        SlotInjective(j, i);
      }
      tx := tx.(live := tx.live[i := p]);
    }

    /** A piece leaves: it takes the lane's next transmission number. */
    method Stamp(lane: nat) returns (n: int)
      requires Holds() && lane < LANES
      modifies this`laneTx, this`tx
      ensures Holds() && n == old(laneTx)[lane] + 1 && tx == old(tx).(laneTx := old(laneTx)[lane := n])
    {
      n := laneTx[lane] + 1;
      laneTx := laneTx[lane := n];
      tx := tx.(laneTx := laneTx);
    }

    function Rto(): (r: int)
      reads this
      ensures srtt >= 0 && rttvar >= 0 ==> 50 * MS <= r <= 2000 * MS
      ensures srtt == 0 ==> r == 500 * MS
      ensures srtt != 0 && 50 * MS <= srtt + 4 * rttvar + 2 * ackInterval <= 2000 * MS ==>
        r == srtt + 4 * rttvar + 2 * ackInterval
      ensures srtt != 0 && srtt + 4 * rttvar + 2 * ackInterval < 50 * MS ==> r == 50 * MS
      ensures srtt != 0 && srtt + 4 * rttvar + 2 * ackInterval > 2000 * MS ==> r == 2000 * MS
    {
      if srtt == 0 then 500 * MS
      else
        var r := srtt + 4 * rttvar + 2 * ackInterval;
        if r < 50 * MS then 50 * MS else if r > 2000 * MS then 2000 * MS else r
    }

    /** The walk over the retransmission queue. */
    method Retransmit(lane: nat, max: nat, out0: seq<Bytes>, others: bool, now: int)
      returns (out: seq<Bytes>, ghost sent: seq<int>)
      requires Holds() && TxOk(tx) && lane < LANES && |out0| <= max
      modifies this`rtxQ, this`laneTx, this`tx, ring
      ensures Holds() && TxOk(tx)
      ensures var w := Resend(old(tx), |old(tx).rtxQ|, lane, max - |out0|, others, now, Rto());
        && tx == AfterResend(old(tx), w) && sent == w.sent
        && AllIn(sent, old(tx.live)) && out == out0 + Bufs(old(tx.live), sent)
    {
      hide TxOk, Resend, PieceOk;
      ghost var t := tx;
      ghost var room, rto := max - |out0|, Rto();
      var keep: seq<u32> := [];
      out := out0;
      ghost var w := Walk(t.live, t.laneTx, [], []);
      var k := 0;
      WalkedStart(t, lane, room, others, now, rto, out0);
      while k < |rtxQ|
        invariant 0 <= k <= |rtxQ| && rtxQ == old(rtxQ) && |rtxQ| == |t.rtxQ|
        invariant Walked(t, w, k, lane, room, others, now, rto, keep, out0, out)
        invariant Holds() && tx == t.(live := w.live, laneTx := w.laneTx)
      {
        out, keep, w := Consider(t, w, k, lane, max, others, now, keep, out0, out);
        k := k + 1;
      }
      ResendKeepsOk(t, lane, room, others, now, rto);
      rtxQ := keep;
      tx := tx.(rtxQ := w.kept);
      sent := w.sent;
    }

    /** One entry of the queue. */
    method Consider(ghost t: Tx, ghost w: Walk, k: nat, lane: nat, max: nat, others: bool, now: int,
                    keep: seq<u32>, ghost out0: seq<Bytes>, out: seq<Bytes>)
      returns (out': seq<Bytes>, keep': seq<u32>, ghost w': Walk)
      requires Holds() && TxOk(t) && tx == t.(live := w.live, laneTx := w.laneTx) && lane < LANES
      requires k < |rtxQ| && |rtxQ| == |t.rtxQ| && |out0| <= max
      requires Walked(t, w, k, lane, max - |out0|, others, now, Rto(), keep, out0, out)
      modifies this`laneTx, this`tx, ring
      ensures Holds() && tx == t.(live := w'.live, laneTx := w'.laneTx)
      ensures Walked(t, w', k + 1, lane, max - |out0|, others, now, Rto(), keep', out0, out')
    {
      hide Wrap, SlotOf, Walked, Resend, TxOk, PieceOk;
      ghost var x := t.rtxQ[k];
      var sq := rtxQ[k];
      RecentEnough(t, k);
      WalkedStep(t, w, k, lane, max - |out0|, others, now, Rto(), keep, out0, out);
      Lookup(x);
      var e := ring[SlotOf(sq)];
      out', keep', w' := out, keep, w;
      if !e.ok || e.seqNo != sq || !e.p.queued {
        return;
      }
      var mine := others && e.p.lane == lane && now - e.p.at < 2 * Rto();
      if |out| >= max || mine {
        keep' := keep + [sq];
        w' := w.(kept := w.kept + [x]);
        return;
      }
      out' := out + [e.p.buf];
      w' := SendAgain(x, sq, lane, now, w);
    }

    method SendAgain(ghost x: int, sq: u32, lane: nat, now: int, ghost w: Walk) returns (ghost w': Walk)
      requires Holds() && lane < LANES && sq == Wrap(x) && x in tx.live && tx.live == w.live && tx.laneTx == w.laneTx
      modifies this`laneTx, this`tx, ring
      ensures Holds() && tx == old(tx).(live := w'.live, laneTx := w'.laneTx)
      ensures |w.laneTx| == LANES && w' == SendStep(w, x, lane, now)
    {
      Lookup(x);
      var e := ring[SlotOf(sq)];
      var n := Stamp(lane);
      var p := e.p.(queued := false, tries := (e.p.tries + 1) % 256, dups := 0, lane := lane, laneIdx := n, at := now);
      Revise(SlotOf(sq), p, x);
      w' := Walk(tx.live, tx.laneTx, w.kept, w.sent + [x]);
    }

    // ---- new pieces ----

    method SendNew(p: Bytes, lane: nat, now: int) returns (buf: Bytes)
      requires Holds() && lane < LANES && tx.seqNo + 1 - tx.low < RING
      modifies this`seqNo, this`laneTx, this`tx, this`owner, ring
      ensures Holds() && buf == Framed(old(tx.seqNo) + 1, old(tx.low), p)
      ensures tx == Sent(old(tx), buf, lane, now)
    {
      hide Wrap, SlotOf, Put;
      ghost var i := tx.seqNo + 1;
      SuccPred(tx.seqNo);
      WrapSlot(i);
      seqNo := Succ(seqNo);
      buf := [STRIPE_MAGIC] + Put(seqNo, 4) + Put(low, 4) + p;
      forall j | j in tx.live
        ensures SlotOf(j) != SlotOf(i)
      {
        SlotInjective(j, i);
      }
      laneTx := laneTx[lane := laneTx[lane] + 1];
      ring[SlotOf(seqNo)] := Entry(seqNo, true, TxPiece(buf, false, 0, 0, lane, laneTx[lane], now, 1));
      owner := owner[SlotOf(i) := i];
      tx := Sent(tx, buf, lane, now);
    }

    /** New pieces, until there are enough, the ring is full or the queue is empty. */
    method SendNews(lane: nat, max: nat, out0: seq<Bytes>, now: int) returns (out: seq<Bytes>, ghost news: seq<Bytes>)
      requires Valid() && lane < LANES && |out0| <= max && Recent(tx, max)
      modifies this`seqNo, this`laneTx, this`tx, this`owner, ring, frames
      ensures Valid() && frames.pieces == old(frames.pieces) + news
      ensures frames.enq == old(frames.enq) && old(frames.fate) <= frames.fate
      ensures out == out0 + Cut(old(tx.seqNo) + 1, old(tx.low), news) && |out| <= max
      ensures tx == SentAll(old(tx), news, lane, now)
      ensures |out| == max || tx.seqNo + 1 - tx.low == RING || (frames.queue == [] && frames.cur.None?)
    {
      hide TxOk, SentAll, Wrap, Diff, Cut, Sending, Sent, Recent, Holds, Valid;
      out, news := out0, [];
      HoldsLanes();
      SendingStart(tx, out0, lane, now);
      RecentLess(tx, max, max - |out0|);
      while |out| < max
        invariant Valid() && |out| <= max && frames.pieces == old(frames.pieces) + news
        invariant frames.enq == old(frames.enq) && old(frames.fate) <= frames.fate
        invariant Sending(old(tx), tx, lane, now, news, out0, out) && Recent(tx, max - |out|)
        decreases max - |out|
      {
        HoldsLanes();
        var full := RingFull();
        if full {
          break;
        }
        ghost var t := tx;
        ghost var p: Bytes;
        var buf;
        RecentLess(tx, max - |out|, 1);
        buf, p := SendNext(lane, now);
        if buf.None? {
          break;
        }
        SendingMore(old(tx), t, lane, now, news, out0, out, p);
        RecentSent(t, buf.value, lane, now, max - |out| - 1);
        news := news + [p];
        out := out + [buf.value];
      }
      SendingIs(old(tx), tx, lane, now, news, out0, out);
    }

    lemma HoldsLanes()
      requires Valid()
      ensures Holds() && |tx.laneTx| == LANES
    {
    }

    method RingFull() returns (full: bool)
      requires Holds()
      ensures if full then tx.seqNo + 1 - tx.low == RING else tx.seqNo + 1 - tx.low < RING
    {
      SuccPred(tx.seqNo);
      UnsignedDistance(tx.seqNo + 1, tx.low);
      full := (Succ(seqNo) - low) % TWO32 >= RING;
    }

    method SendNext(lane: nat, now: int) returns (buf: Option<Bytes>, ghost p: Bytes)
      requires Valid() && lane < LANES && tx.seqNo + 1 - tx.low < RING && Recent(tx, 1)
      modifies this`seqNo, this`laneTx, this`tx, this`owner, ring, frames
      ensures Valid() && frames.enq == old(frames.enq) && old(frames.fate) <= frames.fate
      ensures buf.None? ==>
        tx == old(tx) && frames.queue == [] && frames.cur.None? && frames.pieces == old(frames.pieces)
      ensures buf.Some? ==> frames.pieces == old(frames.pieces) + [p]
      ensures buf.Some? ==>
        buf.value == Framed(old(tx.seqNo) + 1, old(tx.low), p) && tx == Sent(old(tx), buf.value, lane, now)
    {
      hide TxOk, Wrap;
      p := [];
      var q := frames.NextPiece(now);
      if q.None? {
        return None, p;
      }
      p := q.value;
      SentKeepsOk(tx, Framed(tx.seqNo + 1, tx.low, p), lane, now);
      var b := SendNew(q.value, lane, now);
      return Some(b), p;
    }

    // ---- spare copies ----

    lemma HoldsNumbers()
      requires Holds()
      ensures low == Wrap(tx.low) && seqNo == Wrap(tx.seqNo) && tx.low <= tx.seqNo + 1 <= tx.low + RING
    {
    }

    /** A second copy of piece `i`, if it is worth one. */
    method CopyIfDue(x: u32, ghost i: int, lane: nat, now: int, overdue: int) returns (buf: Option<Bytes>)
      requires Holds() && x == Wrap(i) && tx.low <= i <= tx.seqNo
      modifies this`tx, ring
      ensures Holds()
      ensures buf.Some? <==> i in old(tx.live) && WorthCopy(old(tx.live)[i], lane, now, overdue)
      ensures buf.None? ==> tx == old(tx)
      ensures buf.Some? ==>
        var p := old(tx.live)[i];
        buf.value == p.buf && tx == old(tx).(live := old(tx.live)[i := p.(dups := p.dups + 1, dupAt := now)])
    {
      hide Wrap, SlotOf;
      Lookup(i);
      var e := ring[SlotOf(x)];
      if !e.ok || e.seqNo != x || e.p.queued || e.p.dups > 0 || e.p.lane == lane || now - e.p.at < overdue {
        return None;
      }
      Revise(SlotOf(x), e.p.(dups := e.p.dups + 1, dupAt := now), i);
      return Some(e.p.buf);
    }

    /** Second copies of overdue pieces, oldest first, in the room that is left. */
    method Duplicates(lane: nat, max: nat, out0: seq<Bytes>, now: int) returns (out: seq<Bytes>, ghost spare: seq<int>)
      requires Holds() && TxOk(tx) && lane < LANES && |out0| <= max
      modifies this`tx, ring
      ensures Holds() && TxOk(tx) && |out| <= max
      ensures Copied(old(tx), tx, spare, now) && AllIn(spare, old(tx.live)) && out == out0 + Bufs(old(tx.live), spare)
      ensures spare == Overdue(old(tx), lane, max - |out0|, now, srtt)
    {
      hide TxOk, Wrap, SlotOf, Diff, Bufs, Spares, Copied, WorthCopy, Holds, AllIn;
      HoldsNumbers();
      out, spare := out0, [];
      CopyNone(tx, now, out0);
      if srtt == 0 {
        return;
      }
      var overdue := srtt * 5 / 4;
      if overdue < 40 * MS {
        overdue := 40 * MS;
      }
      var scanned := 0;
      var x := low;
      ghost var i := tx.low;
      ghost var t, room := tx, max - |out0|;
      SparesNone(t, room, lane, now, overdue);
      SuccPred(tx.seqNo);
      DiffIsDistance(i, tx.seqNo + 1);
      while SeqBefore(x, Succ(seqNo)) && |out| < max && scanned < 512
        invariant Holds() && TxOk(tx) && |out| <= max && 0 <= scanned <= 512 && scanned == i - tx.low
        invariant tx.low == t.low && tx.seqNo == t.seqNo && spare == Spares(t, i, room, lane, now, overdue)
        invariant x == Wrap(i) && tx.low <= i <= tx.seqNo + 1 && Succ(seqNo) == Wrap(tx.seqNo + 1)
        invariant SeqBefore(x, Succ(seqNo)) <==> i <= tx.seqNo
        invariant forall x :: x in spare ==> x < i
        invariant Copied(old(tx), tx, spare, now) && AllIn(spare, t.live) && out == out0 + Bufs(t.live, spare)
        decreases 512 - scanned
      {
        scanned := scanned + 1;
        SparesNext(t, i, room, lane, now, overdue);
        CopiedSame(t, tx, spare, now, i);
        ghost var u := tx;
        var buf := CopyIfDue(x, i, lane, now, overdue);
        if buf.Some? {
          CopyOne(old(tx), u, spare, now, i, out0);
          out := out + [buf.value];
          spare := spare + [i];
        }
        SuccPred(i);
        x := Succ(x);
        i := i + 1;
        DiffIsDistance(i, tx.seqNo + 1);
      }
      SparesFull(t, i, Earlier(t.seqNo + 1, t.low + 512), room, lane, now, overdue);
    }

    // ---- acks ----

    /** Credit the lane of a piece that was acked, if the arrival says something about it. */
    method CreditLane(p: TxPiece, now: int) returns (original: bool)
      requires Holds()
      modifies this`laneAck, this`tx
      ensures Holds() && tx == old(tx).(laneAck := laneAck) && laneAck == CreditWith(p, now, minRTT, old(laneAck))
      ensures original <==> Original(p, now, minRTT)
    {
      original := p.dups == 0 || now - p.dupAt < minRTT * 7 / 8;
      if original && (p.tries == 1 || now - p.at >= minRTT * 7 / 8) && 0 <= p.lane < LANES
        && p.laneIdx > laneAck[p.lane] {
        laneAck := laneAck[p.lane := p.laneIdx];
      }
      tx := tx.(laneAck := laneAck);
    }

    /** Release the piece numbered `s`, if it is in flight. */
    method AckedOne(s: u32, now: int, sample: int) returns (sample': int, ghost hit: set<int>)
      requires Holds()
      modifies this`laneAck, this`tx, ring
      ensures Holds() && hit == (set j | j in old(tx.live) && Wrap(j) == s)
      ensures tx == old(tx).(live := old(tx.live) - hit, laneAck := laneAck)
      ensures LanesCredited(old(tx), hit, laneAck, now, minRTT) && Sampled(old(tx), hit, now, minRTT, sample, sample')
    {
      hide SlotOf, LanesCredited, Sampled, CreditWith, Credited;
      var slot := SlotOf(s);
      var e := ring[slot];
      sample' := sample;
      hit := set j | j in tx.live && Wrap(j) == s;
      if !e.ok || e.seqNo != s {
        SampleNone(tx, now, minRTT, sample);
        CreditNone(tx, now, minRTT);
        forall j | j in tx.live && Wrap(j) == s
          ensures false
        {
          WrapSlot(j);
        }
        assert hit == {};
        assert tx.live - hit == tx.live;
        return;
      }
      ghost var i := owner[slot];
      forall j | j in tx.live && Wrap(j) == s
        ensures j == i
      {
        WrapInjective(j, i);
      }
      assert hit == {i};
      OneSampled(tx, i, now, minRTT, sample);
      OneCredited(tx, i, now, minRTT);
      var original := CreditLane(e.p, now);
      var d := now - e.p.at;
      if e.p.tries == 1 && original && (sample == 0 || d < sample) {
        sample' := d;
      }
      ring[slot] := e.(ok := false);
      tx := tx.(live := tx.live - hit);
    }

    /** Release every number from `x` up to `end`. */
    method AckedRange(x: u32, end: u32, ghost i: int, now: int, sample: int)
      returns (x': u32, sample': int, ghost hit: set<int>)
      requires Holds() && x == Wrap(i)
      modifies this`laneAck, this`tx, ring
      ensures Holds() && x' == Wrap(Ahead(i, end))
      ensures hit == (set j | j in old(tx.live) && (Wrap(j) - x) % TWO32 < Ahead(i, end) - i)
      ensures tx == old(tx).(live := old(tx.live) - hit, laneAck := laneAck)
      ensures LanesCredited(old(tx), hit, laneAck, now, minRTT) && Sampled(old(tx), hit, now, minRTT, sample, sample')
    {
      hide LanesCredited, Sampled;
      ghost var e := Ahead(i, end);
      SampleNone(tx, now, minRTT, sample);
      CreditNone(tx, now, minRTT);
      x', sample', hit := x, sample, {};
      ghost var k := i;
      AheadStops(i, end, k);
      assert tx.live - {} == tx.live;
      while SeqBefore(x', end)
        invariant Holds() && x' == Wrap(k) && i <= k <= e
        invariant SeqBefore(x', end) <==> k < e
        invariant hit == (set j | j in old(tx.live) && (Wrap(j) - x) % TWO32 < k - i)
        invariant tx == old(tx).(live := old(tx.live) - hit, laneAck := laneAck)
        invariant LanesCredited(old(tx), hit, laneAck, now, minRTT)
          && Sampled(old(tx), hit, now, minRTT, sample, sample')
        decreases e - k
      {
        ghost var one: set<int>;
        ghost var mid, was := tx, sample';
        sample', one := AckedOne(x', now, sample');
        CreditMore(old(tx), mid, hit, one, laneAck, now, minRTT);
        SampleMore(old(tx), mid, hit, one, now, minRTT, sample, was, sample');
        NextNumber(old(tx.live), hit, one, i, k);
        hit := hit + one;
        SuccPred(k);
        x' := Succ(x');
        k := k + 1;
        AheadStops(i, end, k);
      }
    }

    /** Release everything below `cum` and move the low mark there. */
    method AdvanceLow(cum: u32, now: int) returns (sample: int, ghost hit: set<int>)
      requires Holds() && Ahead(tx.low, cum) <= tx.seqNo + 1
      modifies this`low, this`laneAck, this`tx, ring
      ensures Holds()
      ensures Advanced(old(tx), tx, hit, Ahead(old(tx.low), cum), now, minRTT)
      ensures hit <= old(tx.live).Keys && Sampled(old(tx), hit, now, minRTT, 0, sample)
    {
      hide Wrap, SlotOf, Advanced, Sampled;
      ghost var t, e := tx, Ahead(tx.low, cum);
      sample, hit := 0, {};
      AheadStops(t.low, cum, tx.low);
      AdvanceStart(t, now);
      SampleNone(t, now, minRTT, 0);
      while SeqBefore(low, cum)
        invariant Holds() && t.low <= tx.low <= e
        invariant SeqBefore(low, cum) <==> tx.low < e
        invariant Advanced(t, tx, hit, tx.low, now, minRTT)
        invariant hit <= t.live.Keys && Sampled(t, hit, now, minRTT, 0, sample)
        decreases e - tx.low
      {
        ghost var u, was := tx, sample;
        ghost var one;
        sample, one := AckedOne(low, now, sample);
        AdvanceStep(t, u, tx, hit, one, u.low, now, minRTT);
        AdvancedLive(t, u, hit, u.low, now, minRTT);
        SampleMore(t, u, hit, one, now, minRTT, 0, was, sample);
        PassLow(u.live, one);
        hit := hit + one;
        AheadStops(t.low, cum, tx.low);
      }
    }

    lemma AdvanceStart(t: Tx, now: int)
      requires Holds() && t == tx
      ensures Advanced(t, t, {}, t.low, now, minRTT)
    {
      assert t.live - {} == t.live;
    }

    method PassLow(ghost live: map<int, TxPiece>, ghost one: set<int>)
      requires Holds() && tx.low <= tx.seqNo && one == (set j | j in live && Wrap(j) == Wrap(tx.low))
        && tx.live == live - one
      modifies this`low, this`tx
      ensures Holds() && tx == old(tx).(low := old(tx.low) + 1)
    {
      assert tx.low in live ==> tx.low in one;
      SuccPred(tx.low);
      low := Succ(low);
      tx := tx.(low := tx.low + 1);
    }

    /** Release what lies between the missing runs. */
    method WalkRuns(b: Bytes, ghost a: Ack, now: int, sample: int) returns (sample': int, ghost hit: set<int>)
      requires Holds() && |b| >= ACK_HEADER && Decode(b) == Some(a)
      modifies this`laneAck, this`tx, ring
      ensures Holds()
      ensures hit == (set j | j in old(tx.live) && Takes(a, 0, old(tx.low), j))
      ensures tx == old(tx).(live := old(tx.live) - hit, laneAck := laneAck)
      ensures LanesCredited(old(tx), hit, laneAck, now, minRTT) && Sampled(old(tx), hit, now, minRTT, sample, sample')
    {
      hide Wrap, Ahead, Takes, Holds, RunAt, Walking, Sampled;
      var hi := Get32(b[5..9]);
      var n: int := b[9];
      ghost var i, t := tx.low, tx;
      LowNumber();
      var x := low;
      var r := 0;
      sample', hit := sample, {};
      WalkingStart(t, a, now);
      SampleNone(t, now, minRTT, sample);
      while r <= n && !SeqBefore(hi, x)
        invariant 0 <= r <= n + 1 && n == |a.runs| && hi == a.hi
        invariant Holds() && (r <= n ==> x == Wrap(i))
        invariant Walking(t, tx, hit, a, r, i, now, minRTT)
        invariant hit <= t.live.Keys && Sampled(t, hit, now, minRTT, sample, sample')
        decreases n + 1 - r
      {
        x, sample', i, hit := WalkOne(b, a, r, x, i, t, hit, now, sample, sample');
        r := r + 1;
      }
      WalkingEnd(t, tx, hit, a, r, i, now, minRTT);
      LowNumber();
    }

    lemma LowNumber()
      requires Holds()
      ensures low == Wrap(tx.low) && tx.laneAck == laneAck && |laneAck| == LANES
    {
    }

    lemma WalkingStart(t: Tx, a: Ack, now: int)
      requires Holds() && t == tx
      ensures Walking(t, t, {}, a, 0, t.low, now, minRTT)
    {
      assert t.live - {} == t.live;
    }

    /** The stretch before run `r`, and the run itself. */
    method WalkOne(b: Bytes, ghost a: Ack, r: nat, x: u32, ghost i: int, ghost t: Tx, ghost hit: set<int>, now: int,
                   ghost first: int, sample: int)
      returns (x': u32, sample': int, ghost i': int, ghost hit': set<int>)
      requires Holds() && |b| >= ACK_HEADER && Decode(b) == Some(a)
      requires hit <= t.live.Keys && Sampled(t, hit, now, minRTT, first, sample)
      requires r <= |a.runs| && x == Wrap(i) && !SeqBefore(a.hi, x) && Walking(t, tx, hit, a, r, i, now, minRTT)
      modifies this`laneAck, this`tx, ring
      ensures Holds() && (r < |a.runs| ==> x' == Wrap(i'))
      ensures Walking(t, tx, hit', a, r + 1, i', now, minRTT)
      ensures hit' <= t.live.Keys && Sampled(t, hit', now, minRTT, first, sample')
    {
      hide Wrap, Ahead, Takes, Holds, Walking, LeftToTake, Sampled;
      ghost var u := tx;
      ghost var one;
      var end := Succ(Get32(b[5..9]));
      if r < b[9] {
        end := RunAt(b, r).start;
      }
      x', sample', one := AckedRange(x, end, i, now, sample);
      LowNumber();
      WalkingStep(t, u, tx, hit, one, a, r, i, now, minRTT);
      WalkingLive(t, u, hit, a, r, i, now, minRTT);
      SampleMore(t, u, hit, one, now, minRTT, first, sample, sample');
      hit' := hit + one;
      i' := EndOfStretch(a, r, i);
      if r < b[9] {
        var runEnd := Plus(end, RunAt(b, r).count);
        AheadStops(i', runEnd, i');
        if SeqBefore(x', runEnd) {
          x' := runEnd;
        }
        i' := AfterRun(a, r, i);
      }
    }

    function RoundTrips(): Rtt
      reads this
    {
      Rtt(srtt, rttvar, minRTT, minRTTAt)
    }

    /** The clock is read anew here. */
    method RttSample(d: int, clock: int)
      requires Holds() && d > 0
      modifies this`srtt, this`rttvar, this`minRTT, this`minRTTAt
      ensures Holds() && RoundTrips() == Estimate(old(RoundTrips()), Sample(d, clock))
    {
      if minRTT == 0 || d < minRTT || clock - minRTTAt > 10_000 * MS {
        minRTT, minRTTAt := d, clock;
      }
      if srtt == 0 {
        srtt, rttvar := d, d / 2;
        return;
      }
      var dev := srtt - d;
      if dev < 0 {
        dev := -dev;
      }
      rttvar := (3 * rttvar + dev) / 4;
      srtt := (7 * srtt + d) / 8;
    }

    /** Queue every piece that its lane shows lost or that is older than the timeout; `crashed` stands
        for a negative shift. */
    method DetectLocked(now: int) returns (added: bool, crashed: bool)
      requires Holds() && TxOk(tx)
      modifies this`rtxQ, this`tx, ring
      ensures Holds() && TxOk(tx) && Laned(old(tx))
      ensures crashed <==> Crashes(old(tx))
      ensures !crashed ==> tx == Detect(old(tx), old(tx.seqNo) + 1, now, Rto())
      ensures !crashed ==> (added <==> |tx.rtxQ| > |old(tx.rtxQ)|)
    {
      hide TxOk, Wrap, SlotOf, Diff, PieceOk, Detect, Unshiftable;
      ghost var t := tx;
      OkLaned(t);
      DetectNone(t, now, Rto());
      var rto := Rto();
      added, crashed := false, false;
      var x := low;
      ghost var i := tx.low;
      SuccPred(tx.seqNo);
      DiffIsDistance(i, tx.seqNo + 1);
      while SeqBefore(x, Succ(seqNo))
        invariant Holds() && x == Wrap(i) && t.low <= i <= t.seqNo + 1
        invariant tx == Detect(t, i, now, rto) && tx.seqNo == t.seqNo && tx.low == t.low
        invariant Succ(seqNo) == Wrap(t.seqNo + 1) && (SeqBefore(x, Succ(seqNo)) <==> i <= t.seqNo)
        invariant |tx.rtxQ| >= |t.rtxQ| && (added <==> |tx.rtxQ| > |t.rtxQ|)
        invariant forall j :: j in t.live && j < i ==> !Unshiftable(t.live[j], t.laneAck)
        decreases t.seqNo + 1 - i
      {
        var lost;
        DetectFacts(t, i, now, rto);
        lost, crashed := Examine(x, i, t, now, rto);
        if crashed {
          return;
        }
        added := added || lost;
        SuccPred(i);
        x := Succ(x);
        i := i + 1;
        DiffIsDistance(i, t.seqNo + 1);
      }
      DetectFacts(t, t.seqNo + 1, now, rto);
    }

    method Examine(x: u32, ghost i: int, ghost t: Tx, now: int, rto: int) returns (lost: bool, crashed: bool)
      requires Holds() && TxOk(t) && Laned(t) && x == Wrap(i) && t.low <= i <= t.seqNo
      requires tx == Detect(t, i, now, rto) && tx.seqNo == t.seqNo && tx.low == t.low
      modifies this`rtxQ, this`tx, ring
      ensures crashed <==> i in t.live && Unshiftable(t.live[i], t.laneAck)
      ensures Holds() && tx == Detect(t, if crashed then i else i + 1, now, rto)
      ensures tx.seqNo == t.seqNo && tx.low == t.low
      ensures |tx.rtxQ| == |old(tx.rtxQ)| + if lost then 1 else 0
    {
      hide Wrap, SlotOf, Holds, TxOk, PieceOk;
      SlotNumbers(i);
      Lookup(i);
      DetectFacts(t, i, now, rto);
      var e := ring[SlotOf(x)];
      if !e.ok || e.seqNo != x || e.p.queued {
        return false, false;
      }
      if laneAck[e.p.lane] <= e.p.laneIdx {
        if e.p.tries == 0 {
          return false, true;
        }
        var wait := if e.p.tries - 1 < 1 then rto else 2 * rto;
        if now - e.p.at < wait {
          return false, false;
        }
      }
      Revise(SlotOf(x), e.p.(queued := true), i);
      Append(x, i);
      return true, false;
    }

    lemma SlotNumbers(i: int)
      requires Holds()
      ensures ring.Length == RING && laneAck == tx.laneAck && tx.seqNo < tx.low + RING
    {
    }

    method Append(x: u32, ghost i: int)
      requires Holds() && x == Wrap(i)
      modifies this`rtxQ, this`tx
      ensures Holds() && tx == old(tx).(rtxQ := old(tx.rtxQ) + [i])
    {
      rtxQ := rtxQ + [x];
      tx := tx.(rtxQ := tx.rtxQ + [i]);
    }

    /** Apply an ack frame, whatever its bytes. */
    method OnAck(b: Bytes, now: int, clock: int)
      returns (queued: bool, crashed: bool, ghost mid: Tx, ghost sample: int)
      requires Valid() && |b| >= ACK_HEADER
      modifies this`low, this`rtxQ, this`laneAck, this`tx, this`srtt, this`rttvar, this`minRTT, this`minRTTAt, ring
      ensures Valid()
      ensures Decode(b).None? || !Accepts(old(tx), Decode(b).value) ==>
        tx == old(tx) && RoundTrips() == old(RoundTrips()) && !queued && !crashed
      ensures Decode(b).Some? && Accepts(old(tx), Decode(b).value) ==>
        var a := Decode(b).value;
        && Acked(old(tx), mid, Released(old(tx), a), NewLow(old(tx), a), now, old(minRTT))
        && TxOk(mid) && Laned(mid) && (crashed <==> Crashes(mid))
        && (!crashed ==> tx == Detect(mid, mid.seqNo + 1, now, Rto()) && (queued <==> |tx.rtxQ| > |mid.rtxQ|))
        && Sampled(old(tx), Released(old(tx), a), now, old(minRTT), 0, sample)
        && RoundTrips() == if sample > 0 then Estimate(old(RoundTrips()), Sample(sample, clock)) else old(RoundTrips())
    {
      hide TxOk, Takes, PieceOk, RunAt, Sampled, Estimate, Crashes;
      mid, sample := tx, 0;
      ghost var t := tx;
      var cum := Get32(b[1..5]);
      var hi := Get32(b[5..9]);
      var n: int := b[9];
      if |b| < ACK_HEADER + 6 * n {
        return false, false, mid, sample;
      }
      ghost var a := Decode(b).value;
      SuccPred(tx.seqNo);
      UnsignedDistance(tx.seqNo + 1, tx.low);
      var inflight := (Succ(seqNo) - low) % TWO32;
      var d := Diff(cum, low);
      if d < -RING || d > inflight {
        return false, false, mid, sample;
      }
      d := Diff(hi, low);
      if d < -RING - 1 || d >= inflight {
        return false, false, mid, sample;
      }
      mid, queued, crashed, sample := Apply(b, a, cum, now, clock);
    }

    method Apply(b: Bytes, ghost a: Ack, cum: u32, now: int, clock: int)
      returns (ghost mid: Tx, queued: bool, crashed: bool, ghost shortest: int)
      requires Holds() && TxOk(tx) && |b| >= ACK_HEADER && Decode(b) == Some(a) && cum == a.cum && Accepts(tx, a)
      modifies this`low, this`rtxQ, this`laneAck, this`tx, this`srtt, this`rttvar, this`minRTT, this`minRTTAt, ring
      ensures Holds() && TxOk(tx)
      ensures Acked(old(tx), mid, Released(old(tx), a), NewLow(old(tx), a), now, old(minRTT))
      ensures TxOk(mid) && Laned(mid) && (crashed <==> Crashes(mid))
      ensures !crashed ==> tx == Detect(mid, mid.seqNo + 1, now, Rto()) && (queued <==> |tx.rtxQ| > |mid.rtxQ|)
      ensures Sampled(old(tx), Released(old(tx), a), now, old(minRTT), 0, shortest)
      ensures RoundTrips() ==
        if shortest > 0 then Estimate(old(RoundTrips()), Sample(shortest, clock)) else old(RoundTrips())
    {
      hide TxOk, Takes, Accepts, Ahead, Sampled, Estimate, LanesCredited, Advanced, Acked, Detect, Crashes;
      ghost var t, below, among := tx, {}, {};
      var sample;
      NewLowIs(t, a);
      sample, below := AdvanceLow(cum, now);
      ghost var t1, was := tx, sample;
      sample, among := WalkRuns(b, a, now, sample);
      AckedAll(t, t1, tx, a, below, among, now, minRTT);
      AdvancedLive(t, t1, below, NewLow(t, a), now, minRTT);
      SampleMore(t, t1, below, among, now, minRTT, 0, was, sample);
      shortest := sample;
      mid := tx;
      AckedKeepsOk(t, mid, a, now, minRTT);
      if sample > 0 {
        RttSample(sample, clock);
      }
      OkLaned(mid);
      queued, crashed := DetectLocked(now);
    }

    /** Lane `lane` asks for up to `max` frames: the ack, then retransmissions, then new pieces,
        then spare copies. `dead` and `others` are what is known about the lanes. */
    method Pull(lane: nat, max: nat, now: int, dead: bool, probed: bool, others: bool, dupOn: bool)
      returns (out: seq<Bytes>, ghost sent: seq<int>, ghost news: seq<Bytes>, ghost spare: seq<int>)
      requires Valid() && lane < LANES && Recent(tx, Max(max, 1) + 1)
      modifies this`ack, this`rtxQ, this`seqNo, this`laneTx, this`tx, this`owner, ring, frames
      ensures Valid() && ack == None && frames.pieces == old(frames.pieces) + news
      ensures frames.enq == old(frames.enq) && old(frames.fate) <= frames.fate
      ensures Pulled(old(tx), tx, if old(ack).Some? then [old(ack).value] else [], out, sent, news, spare)
      ensures dead && probed ==> tx == old(tx) && sent == [] && news == [] && spare == []
      ensures !(dead && probed) ==>
        var head := if old(ack).Some? then 1 else 0;
        var limit := if dead then head + 1 else Max(head, max);
        && PulledInTurn(old(tx), tx, lane, limit - head, dead, others, dupOn, now, Rto(), srtt, sent, news, spare)
        && (head + |sent| + |news| == limit || Drained(tx))
    {
      hide TxOk, Recent, Pulled, PulledInTurn;
      out, sent, news, spare := [], [], [], [];
      if ack.Some? {
        out := [ack.value];
        ack := None;
      }
      PulledNothing(tx, out);
      if dead && probed {
        return;
      }
      // with room for less than the ack, the code puts out the ack and nothing else
      var limit := if dead then |out| + 1 else Max(|out|, max);
      RecentLess(tx, Max(max, 1) + 1, limit);
      out, sent, news, spare := PullPieces(lane, limit, out, now, dead, others, dupOn);
    }

    /** Nothing more can be cut: the ring is full of pieces in flight, or the queue is empty. */
    ghost predicate Drained(t: Tx)
      reads this, frames
    {
      t.seqNo + 1 - t.low == RING || (frames.queue == [] && frames.cur.None?)
    }

    /** What the retransmission queue yields, unless the lane is dead. */
    method QueueTurn(lane: nat, limit: nat, head: seq<Bytes>, now: int, dead: bool, others: bool)
      returns (out: seq<Bytes>, ghost sent: seq<int>)
      requires Valid() && lane < LANES && |head| <= limit && Recent(tx, limit)
      modifies this`rtxQ, this`laneTx, this`tx, ring
      ensures Valid() && PulledSent(old(tx), tx, head, limit, sent, out)
      ensures (tx, sent) == Requeued(old(tx), lane, limit - |head|, dead, others, now, Rto())
    {
      hide TxOk, Recent, Resend, PulledSent, Bufs, Requeued;
      out, sent := head, [];
      PulledNoSent(tx, head, limit);
      NothingQueued(tx, lane, limit - |head|, dead, others, now, Rto());
      if !dead && |rtxQ| > 0 {
        out, sent := Retransmit(lane, limit, out, others, now);
        SentOut(old(tx), tx, lane, limit, head, others, now, Rto(), sent, out);
      }
    }

    method PullPieces(lane: nat, limit: nat, head: seq<Bytes>, now: int, dead: bool, others: bool, dupOn: bool)
      returns (out: seq<Bytes>, ghost sent: seq<int>, ghost news: seq<Bytes>, ghost spare: seq<int>)
      requires Valid() && lane < LANES && |head| <= limit && Recent(tx, limit)
      modifies this`rtxQ, this`seqNo, this`laneTx, this`tx, this`owner, ring, frames
      ensures Valid() && frames.pieces == old(frames.pieces) + news
      ensures frames.enq == old(frames.enq) && old(frames.fate) <= frames.fate
      ensures Pulled(old(tx), tx, head, out, sent, news, spare)
      ensures PulledInTurn(old(tx), tx, lane, limit - |head|, dead, others, dupOn, now, Rto(), srtt, sent, news, spare)
      ensures |head| + |sent| + |news| == limit || Drained(tx)
    {
      hide TxOk, Recent, Resend, SentAll, Pulled, PulledSent, PulledNews, Copied, Bufs, Cut, PulledInTurn, Requeued,
        Overdue, Holds;
      ghost var t0 := tx;
      OkBelow(t0);
      out, sent := QueueTurn(lane, limit, head, now, dead, others);
      spare := [];
      ghost var t1, out1 := tx, out;
      PulledRoom(t0, t1, head, limit, sent, out1);
      OkBelow(t1);
      out, news := SendNews(lane, limit, out, now);
      ghost var t2, out2 := tx, out;
      NewsOut(t1, t2, lane, now, news, out1, out2);
      CopyNone(t2, now, out2);
      OkBelow(t2);
      if |out| < limit && !dead && dupOn {
        out, spare := Duplicates(lane, limit, out, now);
      }
      CopiedNumbers(t2, tx, spare, now);
      PulledAll(t0, t1, t2, tx, head, out1, out2, out, sent, news, spare, limit, now);
      InTurn(t0, t1, t2, tx, lane, limit - |head|, dead, others, dupOn, now, Rto(), srtt, sent, news, spare);
    }
  }

  // ---- one step of the walk ----

  function SendStep(w: Walk, x: int, lane: int, now: int): Walk
    requires |w.laneTx| == LANES && 0 <= lane < LANES && x in w.live
  {
    var tx := w.laneTx[lane := w.laneTx[lane] + 1];
    Walk(w.live[x := Again(w.live[x], lane, tx[lane], now)], tx, w.kept, w.sent + [x])
  }

  /** After `k` entries: what is kept back, and what has been put out. */
  ghost predicate Walked(t: Tx, w: Walk, k: nat, lane: int, room: int, others: bool, now: int, rto: int,
                         keep: seq<u32>, out0: seq<Bytes>, out: seq<Bytes>)
  {
    && k <= |t.rtxQ| && |t.laneTx| == LANES && 0 <= lane < LANES
    && w == Resend(t, k, lane, room, others, now, rto)
    && |keep| == |w.kept| && (forall j :: 0 <= j < |keep| ==> keep[j] == Wrap(w.kept[j]))
    && AllIn(w.sent, t.live) && out == out0 + Bufs(t.live, w.sent)
  }

  lemma WalkedStart(t: Tx, lane: int, room: int, others: bool, now: int, rto: int, out0: seq<Bytes>)
    requires |t.laneTx| == LANES && 0 <= lane < LANES
    ensures Walked(t, Walk(t.live, t.laneTx, [], []), 0, lane, room, others, now, rto, [], out0, out0)
  {
    assert out0 + Bufs(t.live, []) == out0;
  }

  lemma RecentEnough(t: Tx, k: nat)
    requires TxOk(t) && k < |t.rtxQ|
    ensures t.seqNo - (TWO32 - RING) < t.rtxQ[k] <= t.seqNo < t.low + RING
  {
  }

  lemma SameBytes(t: Tx, w: Walk, k: nat, lane: int, room: int, now: int)
    requires k <= |t.rtxQ| && 0 <= lane < LANES && WalkOk(t, w, k, lane, room, now)
    ensures w.live.Keys == t.live.Keys && |w.laneTx| == LANES
    ensures forall i :: i in t.live ==> w.live[i].buf == t.live[i].buf
  {
    hide LiveOnce;
  }

  lemma WalkedStep(t: Tx, w: Walk, k: nat, lane: int, room: int, others: bool, now: int, rto: int,
                   keep: seq<u32>, out0: seq<Bytes>, out: seq<Bytes>)
    requires Walked(t, w, k, lane, room, others, now, rto, keep, out0, out) && k < |t.rtxQ|
    requires TxOk(t) && room >= 0
    ensures var x := t.rtxQ[k];
      && w.live.Keys == t.live.Keys && |w.laneTx| == LANES && |out| == |out0| + |w.sent|
      && (x !in w.live || !w.live[x].queued ==>
            Walked(t, w, k + 1, lane, room, others, now, rto, keep, out0, out))
      && (x in w.live && w.live[x].queued ==>
            if |w.sent| >= room || (others && w.live[x].lane == lane && now - w.live[x].at < 2 * rto) then
              Walked(t, w.(kept := w.kept + [x]), k + 1, lane, room, others, now, rto, keep + [Wrap(x)], out0, out)
            else
              Walked(t, SendStep(w, x, lane, now), k + 1, lane, room, others, now, rto, keep, out0,
              out + [w.live[x].buf]))
  {
    hide TxOk, WalkOk, Resend, Wrap;
    var x := t.rtxQ[k];
    ResendFacts(t, k, lane, room, others, now, rto);
    SameBytes(t, w, k, lane, room, now);
    ResendNext(t, k + 1, lane, room, others, now, rto);
    if x in w.live && w.live[x].queued {
      assert out0 + Bufs(t.live, w.sent) + [t.live[x].buf] == out0 + Bufs(t.live, w.sent + [x]);
    }
  }

  // ---- new pieces and spare copies ----

  /** No queued number is so old that, `n` pieces on, it could be taken for a new one. */
  ghost predicate Recent(t: Tx, n: int) {
    forall k :: 0 <= k < |t.rtxQ| ==> t.seqNo + n - (TWO32 - RING) < t.rtxQ[k]
  }

  function SentAll(t: Tx, news: seq<Bytes>, lane: int, now: int): (u: Tx)
    requires |t.laneTx| == LANES && 0 <= lane < LANES
    ensures |u.laneTx| == LANES
  {
    if news == [] then t
    else
      var u := SentAll(t, news[..|news| - 1], lane, now);
      Sent(u, Framed(u.seqNo + 1, u.low, news[|news| - 1]), lane, now)
  }

  /** The new pieces `news` have been sent and put out. */
  ghost predicate Sending(t: Tx, u: Tx, lane: int, now: int, news: seq<Bytes>, out0: seq<Bytes>, out: seq<Bytes>) {
    && |t.laneTx| == LANES && 0 <= lane < LANES
    && u == SentAll(t, news, lane, now) && u.low == t.low && u.rtxQ == t.rtxQ && u.seqNo == t.seqNo + |news|
    && out == out0 + Cut(t.seqNo + 1, t.low, news)
  }

  lemma SendingStart(t: Tx, out0: seq<Bytes>, lane: int, now: int)
    requires |t.laneTx| == LANES && 0 <= lane < LANES
    ensures Sending(t, t, lane, now, [], out0, out0)
  {
    assert out0 + Cut(t.seqNo + 1, t.low, []) == out0;
  }

  lemma SendingMore(t: Tx, u: Tx, lane: int, now: int, news: seq<Bytes>, out0: seq<Bytes>, out: seq<Bytes>, p: Bytes)
    requires Sending(t, u, lane, now, news, out0, out) && |u.laneTx| == LANES
    ensures var buf := Framed(u.seqNo + 1, u.low, p);
      Sending(t, Sent(u, buf, lane, now), lane, now, news + [p], out0, out + [buf])
  {
    assert (news + [p])[..|news|] == news;
    assert Cut(t.seqNo + 1, t.low, news + [p]) == Cut(t.seqNo + 1, t.low, news)
      + [Framed(t.seqNo + 1 + |news|, t.low, p)];
  }

  lemma SendingIs(t: Tx, u: Tx, lane: int, now: int, news: seq<Bytes>, out0: seq<Bytes>, out: seq<Bytes>)
    requires Sending(t, u, lane, now, news, out0, out)
    ensures |t.laneTx| == LANES && 0 <= lane < LANES && u == SentAll(t, news, lane, now)
    ensures out == out0 + Cut(t.seqNo + 1, t.low, news)
  {
  }

  lemma RecentSent(t: Tx, buf: Bytes, lane: int, now: int, n: int)
    requires |t.laneTx| == LANES && 0 <= lane < LANES && Recent(t, n + 1)
    ensures Recent(Sent(t, buf, lane, now), n)
  {
  }

  /** Sending adds the new pieces, numbered on from the last, and touches no other. */
  lemma {:induction false} SentAllFacts(t: Tx, news: seq<Bytes>, lane: int, now: int)
    requires |t.laneTx| == LANES && 0 <= lane < LANES
    requires forall i :: i in t.live ==> i <= t.seqNo
    ensures var u := SentAll(t, news, lane, now);
      && u.seqNo == t.seqNo + |news| && u.low == t.low && u.rtxQ == t.rtxQ && u.laneAck == t.laneAck
      && (forall i :: i in u.live <==> i in t.live || t.seqNo < i <= t.seqNo + |news|)
      && (forall i :: i in t.live ==> u.live[i] == t.live[i])
      && (forall i :: i in u.live && i > t.seqNo ==>
            u.live[i].buf == Framed(i, t.low, news[i - t.seqNo - 1]) && u.live[i].lane == lane && u.live[i].at == now)
  {
    if news != [] {
      SentAllFacts(t, news[..|news| - 1], lane, now);
    }
  }

  /** A piece worth a second copy on `lane`: sent once, elsewhere, and its ack overdue. */
  predicate WorthCopy(p: TxPiece, lane: int, now: int, overdue: int) {
    !p.queued && p.dups <= 0 && p.lane != lane && now - p.at >= overdue
  }

  /** The first `room` pieces below `upto` that are worth a copy, oldest first. */
  function Spares(t: Tx, upto: int, room: int, lane: int, now: int, overdue: int): seq<int>
    requires t.low <= upto
    decreases upto - t.low
  {
    if upto == t.low then []
    else
      var s := Spares(t, upto - 1, room, lane, now, overdue);
      if |s| < room && upto - 1 in t.live && WorthCopy(t.live[upto - 1], lane, now, overdue) then s + [upto - 1] else s
  }

  function Earlier(a: int, b: int): int { if a < b then a else b }

  /** What a pull with `room` left copies: nothing before a round trip is known, then what is overdue
      among the oldest 512 numbers in flight. */
  function Overdue(t: Tx, lane: int, room: int, now: int, srtt: int): seq<int>
    requires t.low <= t.seqNo + 1
  {
    if srtt == 0 then []
    else Spares(t, Earlier(t.seqNo + 1, t.low + 512), room, lane, now, Max(srtt * 5 / 4, 40 * MS))
  }

  /** All pieces numbered below `upto` that wait for no resend and have had no spare copy, left on another
      lane, and are overdue; oldest first. */
  function Worthy(t: Tx, upto: int, lane: int, now: int, overdue: int): (xs: seq<int>)
    requires t.low <= upto
    ensures forall i :: i in xs <==>
      && t.low <= i < upto && i in t.live && !t.live[i].queued && t.live[i].dups <= 0
      && t.live[i].lane != lane && now >= t.live[i].at + overdue
    decreases upto - t.low
  {
    if upto == t.low then []
    else
      var xs, i := Worthy(t, upto - 1, lane, now, overdue), upto - 1;
      xs + if i in t.live && !t.live[i].queued && t.live[i].dups <= 0 && t.live[i].lane != lane
              && now >= t.live[i].at + overdue then [i] else []
  }

  lemma {:induction false} SparesExactly(t: Tx, upto: int, room: nat, lane: int, now: int, overdue: int)
    requires t.low <= upto
    ensures Spares(t, upto, room, lane, now, overdue) == FirstOf(Worthy(t, upto, lane, now, overdue), room)
    decreases upto - t.low
  {
    if upto > t.low { SparesExactly(t, upto - 1, room, lane, now, overdue); }
  }

  /** Copies go to the first pieces that are worthy of one among the oldest 512 numbers, as many as there is
      room for; overdue is five quarters of the round trip, at least 40 ms, and before a round trip is
      known nothing is. */
  lemma OverdueExactly(t: Tx, lane: int, room: nat, now: int, srtt: int)
    requires t.low <= t.seqNo + 1
    ensures srtt == 0 ==> Overdue(t, lane, room, now, srtt) == []
    ensures srtt != 0 ==>
      var upto := if t.seqNo + 1 < t.low + 512 then t.seqNo + 1 else t.low + 512;
      var overdue := if srtt * 5 / 4 < 40_000_000 then 40_000_000 else srtt * 5 / 4;
      Overdue(t, lane, room, now, srtt) == FirstOf(Worthy(t, upto, lane, now, overdue), room)
  {
    SparesExactly(t, Earlier(t.seqNo + 1, t.low + 512), room, lane, now, Max(srtt * 5 / 4, 40 * MS));
  }

  lemma SparesNone(t: Tx, room: int, lane: int, now: int, overdue: int)
    ensures Spares(t, t.low, room, lane, now, overdue) == []
  {
  }

  lemma {:induction false} SparesBelow(t: Tx, upto: int, room: int, lane: int, now: int, overdue: int)
    requires t.low <= upto
    ensures forall x :: x in Spares(t, upto, room, lane, now, overdue) ==> x < upto
    decreases upto - t.low
  {
    if upto > t.low { SparesBelow(t, upto - 1, room, lane, now, overdue); }
  }

  lemma SparesNext(t: Tx, i: int, room: int, lane: int, now: int, overdue: int)
    requires t.low <= i
    ensures var s := Spares(t, i, room, lane, now, overdue);
      && i !in s
      && Spares(t, i + 1, room, lane, now, overdue) ==
           if |s| < room && i in t.live && WorthCopy(t.live[i], lane, now, overdue) then s + [i] else s
  {
    SparesBelow(t, i, room, lane, now, overdue);
  }

  /** Once there is no room left, the rest is not copied. */
  lemma {:induction false} SparesFull(t: Tx, i: int, upto: int, room: int, lane: int, now: int, overdue: int)
    requires t.low <= i <= upto && (i == upto || |Spares(t, i, room, lane, now, overdue)| >= room)
    ensures Spares(t, upto, room, lane, now, overdue) == Spares(t, i, room, lane, now, overdue)
    decreases upto - i
  {
    if i < upto { SparesFull(t, i, upto - 1, room, lane, now, overdue); }
  }

  /** Spare copies were made of the pieces in `spare`: nothing else about any piece changed. */
  ghost predicate Copied(t: Tx, t': Tx, spare: seq<int>, now: int) {
    && t' == t.(live := t'.live) && t'.live.Keys == t.live.Keys && AllIn(spare, t.live)
    && (forall i :: i in t.live ==>
          t'.live[i] == if i in spare then t.live[i].(dups := t.live[i].dups + 1, dupAt := now) else t.live[i])
  }

  lemma CopiedSame(t: Tx, t': Tx, spare: seq<int>, now: int, i: int)
    requires Copied(t, t', spare, now) && i !in spare
    ensures i in t'.live <==> i in t.live
    ensures i in t.live ==> t'.live[i] == t.live[i]
  {
  }

  lemma CopiedNumbers(t: Tx, t': Tx, spare: seq<int>, now: int)
    requires Copied(t, t', spare, now)
    ensures t'.seqNo == t.seqNo && t'.low == t.low
  {
  }

  lemma CopyNone(t: Tx, now: int, out0: seq<Bytes>)
    ensures Copied(t, t, [], now) && AllIn([], t.live) && out0 + Bufs(t.live, []) == out0
  {
  }

  lemma CopyOne(t: Tx, t': Tx, spare: seq<int>, now: int, i: int, out0: seq<Bytes>)
    requires Copied(t, t', spare, now) && i in t.live && i !in spare && TxOk(t')
    ensures var p := t'.live[i].(dups := t'.live[i].dups + 1, dupAt := now);
      && Copied(t, t'.(live := t'.live[i := p]), spare + [i], now) && AllIn(spare + [i], t.live)
      && TxOk(t'.(live := t'.live[i := p]))
      && out0 + Bufs(t.live, spare + [i]) == out0 + Bufs(t.live, spare) + [t'.live[i].buf]
  {
    assert Bufs(t.live, spare + [i]) == Bufs(t.live, spare) + [t.live[i].buf];
  }

  // ---- acks ----

  lemma CreditMore(t: Tx, mid: Tx, gone: set<int>, one: set<int>, after: seq<int>, now: int, minRTT: int)
    requires |t.laneAck| == LANES && gone <= t.live.Keys && one <= mid.live.Keys
    requires LanesCredited(t, gone, mid.laneAck, now, minRTT) && LanesCredited(mid, one, after, now, minRTT)
    requires mid == t.(live := t.live - gone, laneAck := mid.laneAck)
    ensures LanesCredited(t, gone + one, after, now, minRTT)
    ensures mid.live - one == t.live - (gone + one)
  {
    forall l | 0 <= l < LANES && after[l] != t.laneAck[l]
      ensures exists i ::
        i in gone + one && Credited(t.live[i], now, minRTT) && t.live[i].lane == l && t.live[i].laneIdx == after[l]
    {
      if after[l] != mid.laneAck[l] {
        var i :| i in one && Credited(mid.live[i], now, minRTT) && mid.live[i].lane == l
          && mid.live[i].laneIdx == after[l];
        assert i in gone + one && t.live[i] == mid.live[i];
      } else {
        var i :| i in gone && Credited(t.live[i], now, minRTT) && t.live[i].lane == l && t.live[i].laneIdx == after[l];
        assert i in gone + one;
      }
    }
  }

  function SampleWith(p: TxPiece, now: int, minRTT: int, sample: int): int {
    if Telling(p, now, minRTT) && (sample == 0 || now - p.at < sample) then now - p.at else sample
  }

  lemma OneSampled(t: Tx, i: int, now: int, minRTT: int, sample: int)
    requires i in t.live
    ensures Sampled(t, {i}, now, minRTT, sample, SampleWith(t.live[i], now, minRTT, sample))
  {
    assert i in {i};
  }

  function CreditWith(p: TxPiece, now: int, minRTT: int, laneAck: seq<int>): (r: seq<int>)
    requires |laneAck| == LANES
    ensures |r| == LANES
  {
    if Credited(p, now, minRTT) && 0 <= p.lane < LANES && p.laneIdx > laneAck[p.lane] then laneAck[p.lane := p.laneIdx]
    else laneAck
  }

  lemma OneCredited(t: Tx, i: int, now: int, minRTT: int)
    requires i in t.live && |t.laneAck| == LANES
    ensures LanesCredited(t, {i}, CreditWith(t.live[i], now, minRTT, t.laneAck), now, minRTT)
  {
    assert i in {i};
  }

  lemma CreditNone(t: Tx, now: int, minRTT: int)
    requires |t.laneAck| == LANES
    ensures LanesCredited(t, {}, t.laneAck, now, minRTT)
  {
  }

  lemma SampleNone(t: Tx, now: int, minRTT: int, sample: int)
    ensures Sampled(t, {}, now, minRTT, sample, sample)
  {
  }

  lemma SampleMore(t: Tx, mid: Tx, gone: set<int>, one: set<int>, now: int, minRTT: int, a: int, b: int, c: int)
    requires gone <= t.live.Keys && one <= mid.live.Keys && mid.live == t.live - gone
    requires Sampled(t, gone, now, minRTT, a, b) && Sampled(mid, one, now, minRTT, b, c)
    ensures gone + one <= t.live.Keys && Sampled(t, gone + one, now, minRTT, a, c)
  {
    hide Telling;
    assert forall i :: i in one ==> i in t.live && mid.live[i] == t.live[i];
    if c != b {
      var i :| i in one && Telling(mid.live[i], now, minRTT) && c == now - mid.live[i].at;
      assert i in gone + one && t.live[i] == mid.live[i];
    } else if b != a {
      var i :| i in gone && Telling(t.live[i], now, minRTT) && b == now - t.live[i].at;
      assert i in gone + one;
    }
  }

  /** The numbers at a wrapped distance of at most `k - i` from `i`, one at a time. */
  lemma NextNumber(live: map<int, TxPiece>, hit: set<int>, one: set<int>, i: int, k: int)
    requires i <= k < i + HALF32
    requires hit == (set j | j in live && (Wrap(j) - Wrap(i)) % TWO32 < k - i)
    requires one == (set j | j in live - hit && Wrap(j) == Wrap(k))
    ensures hit + one == (set j | j in live && (Wrap(j) - Wrap(i)) % TWO32 < k + 1 - i)
  {
    UnsignedDistance(k, i);
    forall j | j in live
      ensures (Wrap(j) - Wrap(i)) % TWO32 == k - i <==> Wrap(j) == Wrap(k)
    {
    }
  }

  lemma OnlyThis(live: map<int, TxPiece>, one: set<int>, k: int, t: Tx)
    requires one == (set j | j in live && Wrap(j) == Wrap(k))
    requires forall j :: j in live ==> k <= j < k + TWO32
    ensures forall j :: j in one <==> j in live && j == k
  {
    forall j | j in live ensures Wrap(j) == Wrap(k) <==> j == k { WrapInjective(j, k); }
  }

  /** What the rest of the walk still takes, besides what was hit already. */
  ghost predicate LeftToTake(live: map<int, TxPiece>, hit: set<int>, a: Ack, r: int, x: int, x0: int) {
    && 0 <= r <= |a.runs| + 1
    && forall j :: j in live ==> (Takes(a, 0, x0, j) <==> j in hit || (r <= |a.runs| && Takes(a, r, x, j)))
  }

  lemma TakeStretch(live: map<int, TxPiece>, hit: set<int>, one: set<int>, a: Ack, r: int, x: int, x0: int)
    requires LeftToTake(live, hit, a, r, x, x0) && r <= |a.runs| && !SeqBefore(a.hi, Wrap(x))
    requires one == (set j | j in live - hit && (Wrap(j) - Wrap(x)) % TWO32 < EndOfStretch(a, r, x) - x)
    ensures LeftToTake(live, hit + one, a, r + 1, if r < |a.runs| then AfterRun(a, r, x) else EndOfStretch(a, r, x), x0)
  {
    hide Wrap, Ahead, SeqBefore;
    forall j | j in live
      ensures Takes(a, 0, x0, j) <==>
        j in hit + one || (r < |a.runs| && Takes(a, r + 1, AfterRun(a, r, x), j))
    {
      assert Takes(a, r, x, j) <==>
        (Wrap(j) - Wrap(x)) % TWO32 < EndOfStretch(a, r, x) - x
        || (r < |a.runs| && Takes(a, r + 1, AfterRun(a, r, x), j));
    }
  }

  lemma WalkingEnd(t: Tx, u: Tx, hit: set<int>, a: Ack, r: int, x: int, now: int, minRTT: int)
    requires Walking(t, u, hit, a, r, x, now, minRTT) && (r <= |a.runs| ==> SeqBefore(a.hi, Wrap(x)))
    ensures hit == (set j | j in t.live && Takes(a, 0, t.low, j))
    ensures u == t.(live := t.live - hit, laneAck := u.laneAck) && LanesCredited(t, hit, u.laneAck, now, minRTT)
  {
    AllTaken(t.live, hit, a, r, x, t.low);
  }

  lemma AllTaken(live: map<int, TxPiece>, hit: set<int>, a: Ack, r: int, x: int, x0: int)
    requires LeftToTake(live, hit, a, r, x, x0) && hit <= live.Keys
    requires r <= |a.runs| ==> SeqBefore(a.hi, Wrap(x))
    ensures hit == (set j | j in live && Takes(a, 0, x0, j))
  {
  }

  lemma DetectNone(t: Tx, now: int, rto: int)
    requires Laned(t)
    ensures Detect(t, t.low, now, rto) == t
  {
  }

  lemma OkLaned(t: Tx)
    requires TxOk(t)
    ensures Laned(t)
  {
  }

  lemma AckedAll(t: Tx, t1: Tx, t2: Tx, a: Ack, below: set<int>, among: set<int>, now: int, minRTT: int)
    requires TxOk(t) && Advanced(t, t1, below, NewLow(t, a), now, minRTT) && |t1.laneAck| == LANES
    requires among == (set j | j in t1.live && Takes(a, 0, t1.low, j))
    requires t2 == t1.(live := t1.live - among, laneAck := t2.laneAck)
    requires LanesCredited(t1, among, t2.laneAck, now, minRTT)
    ensures Acked(t, t2, Released(t, a), NewLow(t, a), now, minRTT)
    ensures below + among == Released(t, a) && below <= t.live.Keys && among <= t1.live.Keys
  {
    hide Takes;
    assert below + among == Released(t, a);
    CreditMore(t, t1.(low := t.low), below, among, t2.laneAck, now, minRTT);
  }

  // ---- pull ----

  /** What one pull does: `head` (the ack) goes out first, then copies of the pieces in `sent`, then
      the new pieces, numbered on, then spare copies. No piece in flight is lost or altered. */
  ghost predicate Pulled(t: Tx, u: Tx, head: seq<Bytes>, out: seq<Bytes>, sent: seq<int>, news: seq<Bytes>,
    spare: seq<int>) {
    && u.seqNo == t.seqNo + |news| && u.low == t.low
    && (forall i :: i in u.live <==> i in t.live || t.seqNo < i <= u.seqNo)
    && (forall i :: i in t.live ==> u.live[i].buf == t.live[i].buf)
    && (forall i :: i in u.live && i > t.seqNo ==>
      i <= u.seqNo && u.live[i].buf == Framed(i, t.low, news[i - t.seqNo - 1]))
    && AllIn(sent, t.live) && (forall x :: x in sent ==> t.live[x].queued) && AllIn(spare, u.live)
    && out == head + Bufs(t.live, sent) + Cut(t.seqNo + 1, t.low, news) + Bufs(u.live, spare)
  }

  /** The queue's turn, when the lane is not dead. */
  function Requeued(t: Tx, lane: int, room: int, dead: bool, others: bool, now: int, rto: int): (Tx, seq<int>)
    requires |t.laneTx| == LANES && 0 <= lane < LANES
  {
    if dead then (t, [])
    else
      var w := Resend(t, |t.rtxQ|, lane, room, others, now, rto);
      (AfterResend(t, w), w.sent)
  }

  /** A pull with `room` frames resends what the queue yields, then sends the new pieces, then copies
      what is overdue in the room left over. */
  ghost predicate PulledInTurn(t: Tx, u: Tx, lane: int, room: int, dead: bool, others: bool, dupOn: bool,
                               now: int, rto: int, srtt: int, sent: seq<int>, news: seq<Bytes>, spare: seq<int>)
  {
    && |t.laneTx| == LANES && 0 <= lane < LANES
    && var (t1, resent) := Requeued(t, lane, room, dead, others, now, rto);
    && sent == resent && |t1.laneTx| == LANES
    && var t2 := SentAll(t1, news, lane, now);
    && var left := room - |sent| - |news|;
    && t2.low <= t2.seqNo + 1
    && spare == (if left > 0 && !dead && dupOn then Overdue(t2, lane, left, now, srtt) else [])
    && Copied(t2, u, spare, now)
  }

  lemma InTurn(t: Tx, t1: Tx, t2: Tx, u: Tx, lane: int, room: int, dead: bool, others: bool, dupOn: bool,
               now: int, rto: int, srtt: int, sent: seq<int>, news: seq<Bytes>, spare: seq<int>)
    requires |t.laneTx| == LANES && 0 <= lane < LANES && (t1, sent) == Requeued(t, lane, room, dead, others, now, rto)
    requires |t1.laneTx| == LANES && t2 == SentAll(t1, news, lane, now) && t2.low <= t2.seqNo + 1
      && Copied(t2, u, spare, now)
    requires var left := room - |sent| - |news|;
      spare == if left > 0 && !dead && dupOn then Overdue(t2, lane, left, now, srtt) else []
    ensures PulledInTurn(t, u, lane, room, dead, others, dupOn, now, rto, srtt, sent, news, spare)
  {
  }

  lemma NothingQueued(t: Tx, lane: int, room: int, dead: bool, others: bool, now: int, rto: int)
    requires |t.laneTx| == LANES && 0 <= lane < LANES
    ensures dead || t.rtxQ == [] ==> Requeued(t, lane, room, dead, others, now, rto) == (t, [])
    ensures !dead ==>
      var w := Resend(t, |t.rtxQ|, lane, room, others, now, rto);
      Requeued(t, lane, room, dead, others, now, rto) == (AfterResend(t, w), w.sent)
  {
  }

  ghost predicate PulledSent(t: Tx, u: Tx, head: seq<Bytes>, limit: int, sent: seq<int>, out: seq<Bytes>) {
    && u.seqNo == t.seqNo && u.low == t.low && u.live.Keys == t.live.Keys && Recent(u, limit)
    && (forall i :: i in t.live ==> i <= t.seqNo && u.live[i].buf == t.live[i].buf)
    && AllIn(sent, t.live) && (forall x :: x in sent ==> t.live[x].queued)
    && |out| <= limit && out == head + Bufs(t.live, sent)
  }

  ghost predicate PulledNews(t: Tx, u: Tx, news: seq<Bytes>, out1: seq<Bytes>, out2: seq<Bytes>) {
    && u.seqNo == t.seqNo + |news| && u.low == t.low
    && (forall i :: i in u.live <==> i in t.live || t.seqNo < i <= u.seqNo)
    && (forall i :: i in t.live ==> u.live[i].buf == t.live[i].buf)
    && (forall i :: i in u.live && i > t.seqNo ==>
      i <= u.seqNo && u.live[i].buf == Framed(i, t.low, news[i - t.seqNo - 1]))
    && out2 == out1 + Cut(t.seqNo + 1, t.low, news)
  }

  lemma PulledNothing(t: Tx, head: seq<Bytes>)
    requires TxOk(t)
    ensures Pulled(t, t, head, head, [], [], [])
  {
    assert head + Bufs(t.live, []) + Cut(t.seqNo + 1, t.low, []) + Bufs(t.live, []) == head;
  }

  lemma PulledNoSent(t: Tx, head: seq<Bytes>, limit: int)
    requires TxOk(t) && |head| <= limit && Recent(t, limit)
    ensures PulledSent(t, t, head, limit, [], head)
  {
    assert head + Bufs(t.live, []) == head;
  }

  lemma OkBelow(t: Tx)
    requires TxOk(t)
    ensures |t.laneTx| == LANES && t.low <= t.seqNo + 1 && forall i :: i in t.live ==> i <= t.seqNo
  {
  }

  lemma PulledRoom(t: Tx, u: Tx, head: seq<Bytes>, limit: int, sent: seq<int>, out: seq<Bytes>)
    requires PulledSent(t, u, head, limit, sent, out)
    ensures |out| <= limit && |out| == |head| + |sent| && Recent(u, limit)
  {
  }

  lemma SentOut(t: Tx, u: Tx, lane: int, limit: int, head: seq<Bytes>, others: bool, now: int, rto: int,
                sent: seq<int>, out: seq<Bytes>)
    requires TxOk(t) && 0 <= lane < LANES && |head| <= limit && Recent(t, limit)
    requires var w := Resend(t, |t.rtxQ|, lane, limit - |head|, others, now, rto);
      u == AfterResend(t, w) && sent == w.sent && AllIn(sent, t.live) && out == head + Bufs(t.live, sent)
    ensures PulledSent(t, u, head, limit, sent, out)
  {
    ResendFacts(t, |t.rtxQ|, lane, limit - |head|, others, now, rto);
    assert t.rtxQ[..|t.rtxQ|] == t.rtxQ;
    forall k | 0 <= k < |u.rtxQ| ensures t.seqNo + limit - (TWO32 - RING) < u.rtxQ[k] {
      assert u.rtxQ[k] in u.rtxQ;
    }
  }

  lemma NewsOut(t: Tx, u: Tx, lane: int, now: int, news: seq<Bytes>, out1: seq<Bytes>, out2: seq<Bytes>)
    requires |t.laneTx| == LANES && 0 <= lane < LANES && u == SentAll(t, news, lane, now)
    requires forall i :: i in t.live ==> i <= t.seqNo
    requires out2 == out1 + Cut(t.seqNo + 1, t.low, news)
    ensures PulledNews(t, u, news, out1, out2)
  {
    SentAllFacts(t, news, lane, now);
  }

  lemma PulledAll(t: Tx, t1: Tx, t2: Tx, u: Tx, head: seq<Bytes>, out1: seq<Bytes>, out2: seq<Bytes>, out: seq<Bytes>,
                  sent: seq<int>, news: seq<Bytes>, spare: seq<int>, limit: int, now: int)
    requires PulledSent(t, t1, head, limit, sent, out1) && PulledNews(t1, t2, news, out1, out2)
    requires Copied(t2, u, spare, now) && out == out2 + Bufs(t2.live, spare)
    ensures Pulled(t, u, head, out, sent, news, spare)
  {
    SameBufs(t2, u, spare, now);
  }

  lemma SameBufs(t: Tx, u: Tx, spare: seq<int>, now: int)
    requires Copied(t, u, spare, now)
    ensures AllIn(spare, u.live) && Bufs(u.live, spare) == Bufs(t.live, spare)
    ensures forall i :: i in t.live ==> u.live[i].buf == t.live[i].buf
  {
    forall i | i in t.live ensures u.live[i].buf == t.live[i].buf {
      if i in spare {
        assert u.live[i] == t.live[i].(dups := t.live[i].dups + 1, dupAt := now);
      }
    }
    forall k | 0 <= k < |spare| ensures Bufs(u.live, spare)[k] == Bufs(t.live, spare)[k] {
      var x := spare[k];
      assert x in t.live;
    }
  }

  lemma RecentLess(t: Tx, n: int, m: int)
    requires Recent(t, n) && m <= n
    ensures Recent(t, m)
  {
  }

  /** The low mark has advanced to `k`, releasing `hit`. */
  ghost predicate Advanced(t: Tx, u: Tx, hit: set<int>, k: int, now: int, minRTT: int) {
    && |t.laneAck| == LANES
    && hit == (set j | j in t.live && j < k)
    && u == t.(live := t.live - hit, laneAck := u.laneAck, low := k)
    && LanesCredited(t, hit, u.laneAck, now, minRTT)
  }

  lemma AdvancedLive(t: Tx, u: Tx, hit: set<int>, k: int, now: int, minRTT: int)
    requires Advanced(t, u, hit, k, now, minRTT)
    ensures u.live == t.live - hit
  {
  }

  lemma WalkingLive(t: Tx, u: Tx, hit: set<int>, a: Ack, r: int, x: int, now: int, minRTT: int)
    requires Walking(t, u, hit, a, r, x, now, minRTT)
    ensures u.live == t.live - hit && hit <= t.live.Keys
  {
  }

  lemma AdvanceStep(t: Tx, u: Tx, v: Tx, hit: set<int>, one: set<int>, k: int, now: int, minRTT: int)
    requires Advanced(t, u, hit, k, now, minRTT) && k < t.low + TWO32 / 2
    requires forall j :: j in t.live ==> t.low <= j < t.low + RING
    requires t.low <= k
    requires one == (set j | j in u.live && Wrap(j) == Wrap(k))
    requires v == u.(live := u.live - one, laneAck := v.laneAck) && LanesCredited(u, one, v.laneAck, now, minRTT)
    ensures Advanced(t, v.(low := k + 1), hit + one, k + 1, now, minRTT)
  {
    CreditMore(t, u.(low := t.low), hit, one, v.laneAck, now, minRTT);
    OnlyThis(u.live, one, k, t);
  }

  /** The walk has released `hit` and stands at `x` before run `r`. */
  ghost predicate Walking(t: Tx, u: Tx, hit: set<int>, a: Ack, r: int, x: int, now: int, minRTT: int) {
    && |t.laneAck| == LANES && hit <= t.live.Keys
    && LeftToTake(t.live, hit, a, r, x, t.low)
    && u == t.(live := t.live - hit, laneAck := u.laneAck)
    && LanesCredited(t, hit, u.laneAck, now, minRTT)
  }

  lemma WalkingStep(t: Tx, u: Tx, v: Tx, hit: set<int>, one: set<int>, a: Ack, r: int, x: int, now: int, minRTT: int)
    requires Walking(t, u, hit, a, r, x, now, minRTT) && r <= |a.runs| && !SeqBefore(a.hi, Wrap(x))
    requires one == (set j | j in u.live && (Wrap(j) - Wrap(x)) % TWO32 < EndOfStretch(a, r, x) - x)
    requires v == u.(live := u.live - one, laneAck := v.laneAck) && LanesCredited(u, one, v.laneAck, now, minRTT)
    ensures var x' := if r < |a.runs| then AfterRun(a, r, x) else EndOfStretch(a, r, x);
      Walking(t, v, hit + one, a, r + 1, x', now, minRTT)
  {
    hide Wrap, Ahead, SeqBefore, Takes, EndOfStretch;
    CreditMore(t, u, hit, one, v.laneAck, now, minRTT);
    TakeStretch(t.live, hit, one, a, r, x, t.low);
  }
}
