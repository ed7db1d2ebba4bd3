/** The receiver's ring of slots, indexed by wrapped numbers. */
module ReorderBuffer {
  import opened Seq32
  import opened BigEndian
  import opened AckWire
  import opened Reorder
  import opened Acks

  datatype Slot = Slot(seqNo: u32, data: Bytes, at: int, ok: bool)
  datatype Out = Out(b: Bytes, gap: bool)

  const EMPTY: Slot := Slot(0, [], 0, false)

  class ReorderBuffer {
    var started: bool
    var next: u32
    var hi: u32
    var ring: array<Slot>
    var count: nat
    var out: seq<Out>
    var gapNext: bool

    ghost var rx: Rx          // the abstract state
    ghost var owner: seq<int> // the index each slot was last filled for

    /** The ring holds exactly the buffered pieces, each in the slot of its number. */
    ghost predicate Holds()
      reads this, ring
    {
      && ring.Length == RING && |owner| == RING
      && started == rx.started && gapNext == rx.gapNext && count == |rx.buf|
      && (started ==> next == Wrap(rx.next) && hi == Wrap(rx.hi))
      && |out| == |rx.out|
      && (forall j :: 0 <= j < |out| ==> out[j] == Out(rx.out[j].data, rx.out[j].gap))
      && (forall i :: i in rx.buf ==>
            ring[SlotOf(i)] == Slot(Wrap(i), rx.buf[i].data, rx.buf[i].at, true) && owner[SlotOf(i)] == i)
      && (forall k :: 0 <= k < RING && ring[k].ok ==> owner[k] in rx.buf && SlotOf(owner[k]) == k)
      && (forall i :: i in rx.buf ==> rx.next <= i < rx.next + RING)
    }

    ghost predicate Valid()
      reads this, ring
    {
      Holds() && RxOk(rx)
    }

    constructor (ghost anchor: int)
      ensures Valid() && fresh(ring)
      ensures rx == Rx(false, anchor, anchor - 1, map[], false, [])
    {
      started, next, hi, count, gapNext, out := false, 0, 0, 0, false, [];
      ring := new Slot[RING](_ => EMPTY);
      rx := Rx(false, anchor, anchor - 1, map[], false, []);
      owner := seq(RING, _ => 0);
    }

    /** The lookup every method makes: a slot answers for a number iff that piece is buffered. */
    lemma Lookup(i: int)
      requires Holds() && rx.next - HALF32 <= i < rx.next + HALF32
      ensures SlotOf(Wrap(i)) == SlotOf(i)
      ensures ring[SlotOf(i)].ok && ring[SlotOf(i)].seqNo == Wrap(i) <==> i in rx.buf
    {
      WrapSlot(i);
      var k := SlotOf(i);
      if ring[k].ok && ring[k].seqNo == Wrap(i) {
        WrapInjective(owner[k], i);
      }
    }

    method DrainLocked()
      requires Holds() && started
      modifies this`next, this`count, this`out, this`gapNext, this`rx, ring
      ensures Holds() && rx == Drain(old(rx))
    {
      while count > 0
        invariant Holds() && started && Drain(rx) == Drain(old(rx))
        decreases count
      {
        Lookup(rx.next);
        var slot := SlotOf(next);
        var sl := ring[slot];
        if !sl.ok || sl.seqNo != next {
          return;
        }
        TakeNext(slot, sl);
      }
    }

    /** One turn of the drain: hand up the piece in the slot of `next`. */
    method TakeNext(slot: nat, sl: Slot)
      requires Holds() && started && rx.next in rx.buf && slot == SlotOf(rx.next) && sl == ring[slot]
      modifies this`next, this`count, this`out, this`gapNext, this`rx, ring
      ensures Holds() && rx == PopNext(old(rx)) && count == old(count) - 1
    {
      hide Wrap, Diff, SeqBefore, Succ, Pred, Plus, SlotOf;
      ghost var i := rx.next;
      assert (rx.buf - {i}).Keys == rx.buf.Keys - {i};
      ring[slot] := EMPTY;
      count := count - 1;
      next := Succ(next);
      out := out + [Out(sl.data, gapNext)];
      gapNext := false;
      rx := PopNext(rx);
      SuccPred(i);
      forall j | j in rx.buf
        ensures ring[SlotOf(j)] == Slot(Wrap(j), rx.buf[j].data, rx.buf[j].at, true) && owner[SlotOf(j)] == j
      {
        SlotInjective(j, i);
      }
    }

    method LowestLocked(limit: u32, ghost lim: int) returns (low: u32)
      requires Holds() && started && limit == Wrap(lim) && rx.next <= lim <= rx.next + 2 * RING
      ensures low == Wrap(FirstBuffered(rx.buf, rx.next, lim))
    {
      hide Wrap, Diff, SeqBefore, Succ, Pred, Plus, SlotOf;
      var s := next;
      ghost var i := rx.next;
      DiffIsDistance(i, lim);
      while SeqBefore(s, limit)
        invariant rx.next <= i <= lim && s == Wrap(i)
        invariant SeqBefore(s, limit) <==> i < lim
        invariant forall j :: rx.next <= j < i ==> j !in rx.buf
        decreases lim - i
      {
        Lookup(i);
        var sl := ring[SlotOf(s)];
        if sl.ok && sl.seqNo == s {
          FirstBufferedIs(rx.buf, rx.next, lim, i);
          return s;
        }
        s := Succ(s);
        SuccPred(i);
        i := i + 1;
        DiffIsDistance(i, lim);
      }
      FirstBufferedIs(rx.buf, rx.next, lim, lim);
      return limit;
    }

    method SkipToLocked(s: u32, ghost i: int)
      requires Holds() && started && s == Wrap(i) && rx.next - RING <= i <= rx.next + 2 * RING
      requires forall k :: k in rx.buf && rx.next < i ==> i <= k
      modifies this`next, this`count, this`out, this`gapNext, this`rx, ring
      ensures Holds() && rx == SkipTo(old(rx), i)
    {
      DiffIsDistance(rx.next, i);
      if SeqBefore(next, s) {
        gapNext := true;
        next := s;
        rx := rx.(next := i, gapNext := true);
      }
      DrainLocked();
    }

    method StartAt(s: u32, low: u32)
      requires Holds() && rx.buf == map[]
      modifies this`started, this`next, this`hi, this`rx
      ensures Holds() && rx == Reorder.StartAt(old(rx), s, low)
    {
      ghost var begun := Reorder.StartAt(rx, s, low);
      StartNumbers(rx, s, low);
      started := true;
      next := s;
      var d := (s - low) % TWO32;
      if d < RING / 2 {
        next := low;
      }
      hi := Pred(next);
      rx := begun;
    }

    method ResyncLocked(s: u32, low: u32)
      requires Holds() && started
      modifies this`started, this`next, this`hi, this`count, this`gapNext, this`rx, ring
      ensures Holds() && rx == Restart(old(rx), s, low)
    {
      for k := 0 to RING
        modifies ring
        invariant ring.Length == RING && forall j :: 0 <= j < k ==> !ring[j].ok
      {
        ring[k] := EMPTY;
      }
      count, gapNext := 0, true;
      rx := rx.(buf := map[], gapNext := true);
      StartAt(s, low);
    }

    method Position(s: u32, low: u32)
      requires Valid()
      modifies this`started, this`next, this`hi, this`count, this`gapNext, this`rx, ring
      ensures Valid() && rx == Reorder.Position(old(rx), s, low)
    {
      PositionOk(rx, s, low);
      if !started {
        StartAt(s, low);
      }
      var d := Diff(s, next);
      if d >= 2 * RING || d < -RING {
        ResyncLocked(s, low);
      }
    }

    /** File a piece, for any numbers whatever. */
    method Push(s: u32, low: u32, data: Bytes, now: int)
      requires Valid()
      modifies this`started, this`next, this`hi, this`count, this`out, this`gapNext, this`rx, this`owner, ring
      ensures Valid() && rx == Reorder.Push(old(rx), s, low, data, now)
    {
      PositionOk(rx, s, low);
      Position(s, low);
      File(s, data, now);
    }

    method File(s: u32, data: Bytes, now: int)
      requires Valid() && started && -RING <= Near(rx.next, s) - rx.next < 2 * RING
      modifies this`next, this`hi, this`count, this`out, this`gapNext, this`rx, this`owner, ring
      ensures Valid() && rx == Reorder.File(old(rx), Near(old(rx.next), s), data, now)
    {
      hide Wrap, Diff, SeqBefore, Succ, Pred, Plus, SlotOf;
      ghost var i := Near(rx.next, s);
      NearIsNear(rx.next, s);
      FileKeepsOk(rx, i, data, now);
      DiffIsDistance(i, rx.next);
      if SeqBefore(s, next) {
        return;
      }
      GiveUpFacts(rx, i);
      MakeRoom(s, i);
      Lookup(i);
      var sl := ring[SlotOf(s)];
      if sl.ok && sl.seqNo == s {
        return;
      }
      Fill(s, i, data, now);
      DrainLocked();
    }

    lemma RoomNeeded(s: u32, i: int)
      requires Holds() && started && s == Wrap(i) && 0 <= i - rx.next < 2 * RING
      ensures (s - next) % TWO32 == i - rx.next
    {
      UnsignedDistance(i, rx.next);
    }

    method MakeRoom(s: u32, ghost i: int)
      requires Valid() && started && s == Wrap(i) && rx.next <= i < rx.next + 2 * RING
      modifies this`next, this`count, this`out, this`gapNext, this`rx, ring
      ensures Holds() && started && rx == GiveUp(old(rx), i)
    {
      RoomNeeded(s, i);
      while (s - next) % TWO32 >= RING
        invariant Holds() && started && Settled(rx)
        invariant rx.next <= i < rx.next + 2 * RING && (s - next) % TWO32 == i - rx.next
        invariant GiveUp(rx, i) == GiveUp(old(rx), i)
        decreases i - rx.next
      {
        ghost var was := rx;
        SkipHole(s, i);
        GiveUpStep(was, i);
        RoomNeeded(s, i);
      }
    }

    method SkipHole(s: u32, ghost i: int)
      requires Holds() && started && Settled(rx) && s == Wrap(i) && rx.next + RING <= i < rx.next + 2 * RING
      modifies this`next, this`count, this`out, this`gapNext, this`rx, ring
      ensures Holds() && rx == SkipTo(old(rx), FirstBuffered(old(rx.buf), old(rx.next), i))
    {
      GiveUpStep(rx, i);
      var lowest := LowestLocked(s, i);
      SkipToLocked(lowest, FirstBuffered(rx.buf, rx.next, i));
    }

    /** No buffered piece has the slot of one that is not. */
    lemma SlotIsFree(i: int)
      requires Holds() && rx.next <= i < rx.next + RING && i !in rx.buf
      ensures forall j :: j in rx.buf ==> SlotOf(j) != SlotOf(i)
    {
      hide Wrap, SlotOf;
      forall j | j in rx.buf ensures SlotOf(j) != SlotOf(i) { SlotInjective(j, i); }
    }

    /** Put a piece in its slot. */
    method Fill(s: u32, ghost i: int, data: Bytes, now: int)
      requires Holds() && started && s == Wrap(i) && rx.next <= i < rx.next + RING && i !in rx.buf
      requires rx.next - 2 * RING <= rx.hi + 1 <= rx.next + RING
      modifies this`hi, this`count, this`rx, this`owner, ring
      ensures Holds() && rx == Insert(old(rx), i, data, now)
    {
      hide Wrap, Diff, SeqBefore, Succ, Pred, Plus, SlotOf, RxOk;
      Lookup(i);
      SlotIsFree(i);
      ghost var slot := SlotOf(i);
      ring[SlotOf(s)] := Slot(s, data, now, true);
      count := count + 1;
      owner := owner[slot := i];
      DiffIsDistance(rx.hi, i);
      if SeqBefore(hi, s) {
        hi := s;
      }
      rx := Insert(rx, i, data, now);
    }

    /** One pass of the hole timer. */
    method Expire(now: int, deadline: int)
      requires Valid()
      modifies this`next, this`count, this`out, this`gapNext, this`rx, ring
      ensures Valid() && rx == Reorder.Expire(old(rx), now, deadline)
    {
      var busy := true;
      while busy && count > 0
        invariant Valid()
        invariant Reorder.Expire(rx, now, deadline) == Reorder.Expire(old(rx), now, deadline)
        invariant !busy ==> Reorder.Expire(rx, now, deadline) == rx
        decreases busy, |rx.buf|
      {
        busy := ExpireFirst(now, deadline);
      }
      if busy {
        ExpireEmpty(rx, now, deadline);
      }
    }

    lemma SomethingBuffered()
      requires Valid() && count > 0
      ensures rx.buf != map[] && started && next == Wrap(rx.next) && ring.Length == RING
      ensures forall i :: i in rx.buf ==> ring[SlotOf(i)].at == rx.buf[i].at
    {
    }

    method ExpireFirst(now: int, deadline: int) returns (skipped: bool)
      requires Valid() && count > 0
      modifies this`next, this`count, this`out, this`gapNext, this`rx, ring
      ensures Valid() && (skipped ==> |rx.buf| < |old(rx.buf)|)
      ensures Reorder.Expire(rx, now, deadline) == Reorder.Expire(old(rx), now, deadline)
      ensures !skipped ==> Reorder.Expire(rx, now, deadline) == rx
    {
      hide Wrap, Diff, SeqBefore, Succ, Pred, Plus, SlotOf, FirstBuffered, SkipTo, Drain, Reorder.Expire, Holds, RxOk;
      SomethingBuffered();
      ExpireStep(rx, now, deadline);
      ghost var lim := rx.next + RING;
      ghost var i := FirstBuffered(rx.buf, rx.next, lim);
      WrapAdd(rx.next, RING);
      var low := LowestLocked(Plus(next, RING), lim);
      Lookup(i);
      if now - ring[SlotOf(low)].at <= deadline {
        return false;
      }
      SkipToLocked(low, i);
      return true;
    }

    /** The end of the missing run that starts at `s`. */
    method EndOfRun(s: u32, top: u32, ghost from: int, ghost end: int) returns (e: u32, ghost i: int)
      requires Valid() && started && s == Wrap(from) && top == Wrap(end)
      requires rx.next <= from < end <= rx.hi && from !in rx.buf && end in rx.buf
      ensures e == Wrap(i) && from < i <= end && i in rx.buf
      ensures forall x :: from <= x < i ==> x !in rx.buf
    {
      hide Wrap, Diff, SeqBefore, Succ, Pred, Plus, SlotOf;
      e, i := s, from;
      DiffIsDistance(i, end);
      while SeqBefore(e, top) && (e - s) % TWO32 < 65535
        invariant from <= i <= end && e == Wrap(i) && (e - s) % TWO32 == i - from
        invariant SeqBefore(e, top) <==> i < end
        invariant forall x :: from <= x < i ==> x !in rx.buf
        decreases end - i
      {
        Lookup(i);
        var sl := ring[SlotOf(e)];
        if sl.ok && sl.seqNo == e {
          break;
        }
        e := Succ(e);
        SuccPred(i);
        i := i + 1;
        DiffIsDistance(i, end);
        UnsignedDistance(i, from);
      }
    }

    /** The ack frame: it reports what the receiver has, run by run. */
    method AckFrame() returns (b: Bytes)
      requires Valid() && started
      ensures exists a :: Reports(rx, a) && b == Encode(ToWire(a))
    {
      var top := hi;
      DiffIsDistance(rx.hi, rx.next);
      if SeqBefore(top, next) {
        top := Pred(next);
      }
      SuccPred(rx.next);
      var n, body;
      ghost var a;
      n, body, top, a := ListRuns(top);
      b := [ACK_MAGIC] + Put(next, 4) + Put(top, 4) + [n] + body;
    }

    method ListRuns(hi': u32) returns (n: byte, body: Bytes, top: u32, ghost a: IdxAck)
      requires Valid() && started && hi' == Wrap(rx.hi)
      ensures Reports(rx, a) && n == |a.runs| && top == Wrap(a.hi) && body == EncodeRuns(WireRuns(a.runs))
    {
      hide Wrap, Diff, SeqBefore, Succ, Pred, Plus, SlotOf, Scanned, Reports, EncodeRuns, WireRuns, Put;
      ScannedStart(rx);
      var s := next;
      ghost var i, end := rx.next, rx.hi;
      ghost var runs: seq<Gap> := [];
      var count: nat := 0;
      body, top := [], hi';
      DiffIsDistance(i, rx.hi);
      while SeqBefore(s, top)
        invariant s == Wrap(i) && top == hi' && end == rx.hi
        invariant rx.next <= i && (i <= rx.hi || i == rx.next)
        invariant SeqBefore(s, top) <==> i < rx.hi
        invariant count <= ACK_MAX_RUNS && Scanned(rx, count, body, runs, i)
        decreases rx.hi - i
      {
        Lookup(i);
        var sl := ring[SlotOf(s)];
        if sl.ok && sl.seqNo == s {
          s := Succ(s);
          ScannedBuffered(rx, count, body, runs, i);
          SuccPred(i);
          i := i + 1;
        } else if count == ACK_MAX_RUNS {
          top := Pred(s);
          SuccPred(i);
          end := i - 1;
          break;
        } else {
          var start := s;
          ghost var from := i;
          s, i := EndOfRun(s, top, i, rx.hi);
          ScannedRun(rx, count, body, runs, from, i, start, s);
          body := body + Put(start, 4) + Put((s - start) % TWO32, 2);
          runs := runs + [Gap(from, i)];
          count := count + 1;
        }
        DiffIsDistance(i, rx.hi);
      }
      ScannedReports(rx, count, body, runs, i, end);
      n := count;
      a := IdxAck(rx.next, end, runs);
    }
  }
}
