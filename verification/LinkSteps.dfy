/** The steps of `Link` are what the sender and receiver objects promise; and a run that starts late. */
module LinkSteps {
  import opened Seq32
  import opened AckWire
  import opened Reorder
  import opened Acks
  import opened Flight
  import opened Frames
  import FQ = FrameQueue
  import opened SenderRing
  import opened Link

  /** What a pull of the sender promises is what the step asks for: the queue's pieces grew by `news`,
      and they are still the first pieces of what it kept. */
  lemma PullIsAStep(l: Link, s: Step)
    requires FromQueue(l) && s.Pull? && TxOk(s.t') && Pulled(l.t, s.t', s.head, s.out, s.sent, s.news, s.spare)
    requires l.fate <= s.fate' && |s.fate'| <= |l.enq| && CutFrom(l.cut + s.news, FQ.Kept(l.enq, s.fate'), l.p)
    ensures Can(l, s) && FromQueue(Do(l, s)) && Do(l, s).cut == l.cut + s.news
  {
    hide IsPiece, FQ.Kept, TxOk, Pulled;
    forall k | 0 <= k < |s.news| ensures IsPiece(FQ.Kept(l.enq, s.fate'), |l.cut| + k, l.p, s.news[k]) {
      assert (l.cut + s.news)[|l.cut| + k] == s.news[k];
    }
  }

  /** An ack that was sent is short enough for its bytes. */
  lemma SentAckFits(l: Link, a: IdxAck)
    requires Inv(l) && a in l.acks
    ensures Short(a.runs) && |a.runs| <= ACK_MAX_RUNS
  {
    AckIsTruthful(l, a);
    hide Inv, RxOk;
  }

  /** What the sender makes of an ack that was sent, whatever bytes follow it, is an arrival of it. */
  lemma AckIsAStep(l: Link, a: IdxAck, tail: Bytes, t': Tx, mid: Tx, at: int, minRTT: int, rto: int)
    requires Inv(l) && a in l.acks && Short(a.runs) && a.cum > l.t.low - HALF32 + 8 * RING && |l.t.laneAck| == LANES
    requires |a.runs| < 256 && |Encode(ToWire(a)) + tail| >= ACK_HEADER
    requires var read := Decode(Encode(ToWire(a)) + tail);
      if read.None? || !Accepts(l.t, read.value) then t' == l.t
      else
        && Acked(l.t, mid, Released(l.t, read.value), NewLow(l.t, read.value), at, minRTT)
        && TxOk(mid) && Laned(mid) && !Crashes(mid) && t' == Detect(mid, mid.seqNo + 1, at, rto)
    ensures Can(l, AckArrives(a, t', mid, at, minRTT, rto))
    ensures Do(l, AckArrives(a, t', mid, at, minRTT, rto)) == l.(t := t')
  {
    DecodeEncode(ToWire(a), tail);
    hide Inv, Encode, Decode, Accepts, Acked, TxOk, Crashes, Detect, Releases, NewLow;
  }

  /** The bytes of an ack frame of the receiver are those of an ack it may send. */
  lemma AckFrameIsAStep(l: Link, b: Bytes) returns (a: IdxAck)
    requires Inv(l) && l.rx.started && exists a :: Reports(l.rx, a) && b == Encode(ToWire(a))
    ensures Can(l, SendAck(a)) && Short(a.runs) && |a.runs| < 256 && b == Encode(ToWire(a))
  {
    hide Inv, Encode, RxOk;
    a :| Reports(l.rx, a) && b == Encode(ToWire(a));
  }

  /** What the receiver makes of the bytes of a piece is an arrival of it. */
  lemma ArrivalIsAStep(l: Link, i: int, at: int, rx': Rx)
    requires Inv(l) && Can(l, Arrive(i, at)) && RxOk(l.rx)
    requires l.base <= i < l.base + |l.cut| && |l.stamps| == |l.cut|
    requires var b := WireOf(l, i);
      |b| > 9 && b[0] == STRIPE_MAGIC ==> rx' == Push(l.rx, Get32(b[1..5]), Get32(b[5..9]), b[9..], at)
    ensures Do(l, Arrive(i, at)).rx == rx'
    ensures rx' == Push(l.rx, Wrap(i), Wrap(l.stamps[i - l.base]), l.cut[i - l.base], at)
  {
    InvSender(l);
    CutNotEmpty(l, i);
    ArrivalReads(l, i, at);
    DoArrive(l, i, at);
    FramedReads(i, l.stamps[i - l.base], l.cut[i - l.base]);
    hide Inv, Can, Do, Push, RxOk;
  }

  // ---- a run that starts late ----

  const LATE: int := RING / 2 + 1

  lemma LateIs()
    ensures LATE == RING / 2 + 1
  {
  }

  /** A frame that is cut into `LATE` pieces of one byte. */
  function LongFrame(): (f: Bytes)
    ensures |f| == LATE
  {
    seq(LATE, _ => 0)
  }

  lemma {:induction false} LongMark(n: nat)
    requires n < LATE
    ensures MarkOf([LongFrame()], n, 1) == Mark(0, n)
  {
    if n > 0 { LongMark(n - 1); }
  }

  function LongPieces(): (ps: seq<Bytes>)
    ensures |ps| == LATE
  {
    seq(LATE, n requires 0 <= n < LATE => PieceAt([LongFrame()], Mark(0, n), 1))
  }

  lemma LongPiecesAreCut(n: nat)
    requires n < LATE
    ensures IsPiece([LongFrame()], n, 1, LongPieces()[n])
  {
    LongMark(n);
  }

  lemma LongKept()
    ensures FQ.Kept([FQ.QFrame(LongFrame(), 0)], [true]) == [LongFrame()]
  {
    hide LongFrame;
    assert [true][..0] == [];
    assert FQ.Kept([FQ.QFrame(LongFrame(), 0)], []) == [];
  }

  lemma LongIsNext(l1: Link)
    requires l1.enq == [FQ.QFrame(LongFrame(), 0)] && l1.fate == [] && l1.cut == [] && l1.p == 1
    ensures CutNext(l1, LongPieces(), [true])
  {
    LongKept();
    hide FQ.Kept, IsPiece, LongPieces, LongFrame;
    forall k | 0 <= k < LATE ensures IsPiece(FQ.Kept(l1.enq, [true]), |l1.cut| + k, l1.p, LongPieces()[k]) {
      LongPiecesAreCut(k);
    }
  }

  /** With the frame enqueued one pull puts out all its pieces. */
  lemma LongPull(l: Link, l1: Link) returns (s: Step)
    requires Start(l) && l.p == 1 && l.t.rtxQ == [] && l1 == l.(enq := [FQ.QFrame(LongFrame(), 0)])
    ensures s.Pull? && Can(l1, s) && s.news == LongPieces() && s.fate' == [true]
  {
    hide *;
    StartQuiet(l);
    LongIsNext(l1);
    var t', out := AllSent(l.t);
    s := Pull(t', [], out, [], LongPieces(), [], [true]);
    CanPullThese(l1, s);
  }

  lemma CanPullThese(l: Link, s: Step)
    requires s.Pull? && TxOk(s.t') && Pulled(l.t, s.t', s.head, s.out, s.sent, s.news, s.spare)
    requires CutNext(l, s.news, s.fate')
    ensures Can(l, s)
  {
    hide TxOk, Pulled, CutNext;
  }

  lemma StartQuiet(l: Link)
    requires Start(l)
    ensures TxOk(l.t) && l.t.live == map[] && l.t.low == l.t.seqNo + 1 && |l.t.laneTx| == LANES
    ensures l.enq == [] && l.fate == [] && l.cut == [] && RxOk(l.rx) && !l.rx.started
  {
  }

  lemma {:induction false} SentAllKeepsOk(t: Tx, news: seq<Bytes>, lane: int, now: int)
    requires TxOk(t) && 0 <= lane < LANES && |t.laneTx| == LANES
    requires Recent(t, |news|) && t.seqNo + |news| + 1 - t.low <= RING
    ensures var u := SentAll(t, news, lane, now);
      TxOk(u) && u.seqNo == t.seqNo + |news| && u.low == t.low && u.rtxQ == t.rtxQ
  {
    hide TxOk, Framed;
    if news != [] {
      var n := |news| - 1;
      SentAllKeepsOk(t, news[..n], lane, now);
      var u := SentAll(t, news[..n], lane, now);
      SentKeepsOk(u, Framed(u.seqNo + 1, u.low, news[n]), lane, now);
    }
  }

  /** A sender with nothing in flight sends all these pieces. */
  lemma AllSent(t: Tx) returns (u: Tx, out: seq<Bytes>)
    requires TxOk(t) && t.live == map[] && t.low == t.seqNo + 1 && t.rtxQ == [] && |t.laneTx| == LANES
    ensures TxOk(u) && Pulled(t, u, [], out, [], LongPieces(), [])
  {
    var news := LongPieces();
    u := SentAll(t, news, 0, 0);
    SentAllKeepsOk(t, news, 0, 0);
    out := Cut(t.seqNo + 1, t.low, news);
    PulledNoSent(t, [], LATE);
    assert [] + out == out;
    NewsOut(t, u, 0, 0, news, [], out);
    CopyNone(u, 0, out);
    hide TxOk, PulledSent, PulledNews, Pulled, SentAll, Cut, LongPieces, Copied, Bufs;
    PulledAll(t, t, u, u, [], [], out, out, [], news, [], LATE, 0);
  }

  /** The frame is enqueued, its pieces are sent, and the one half a window past the first arrives. */
  lemma LateRun(l: Link, at: int) returns (l2: Link, steps: seq<Step>)
    requires Start(l) && l.p == 1 && l.t.rtxQ == []
    ensures Inv(l2) && Runs(l, steps) && FirstIndex(steps) == Some(l.base + RING / 2)
    ensures Can(l2, Arrive(l.base + RING / 2, at)) && After(l, steps) == Do(l2, Arrive(l.base + RING / 2, at))
    ensures l2.base == l.base && !l2.rx.started && !l2.expired && l2.cut == LongPieces()
    ensures l2.enq == [FQ.QFrame(LongFrame(), 0)] && l2.fate == [true] && l2.rx == l.rx
  {
    hide TxOk, Pulled, IsPiece, FQ.Kept, LongPieces, LongFrame, Inv, OnLane, CutNext, Position;
    var e := Enqueue(FQ.QFrame(LongFrame(), 0));
    StartQuiet(l);
    StartHolds(l);
    var l1 := Do(l, e);
    var s := LongPull(l, l1);
    l2 := Do(l1, s);
    EnqueueKeeps(l, e);
    StepKeeps(l1, s);
    InvSender(l2);
    SenderCount(l2);
    var a := Arrive(l.base + RING / 2, at);
    assert Can(l2, a);
    steps := [e, s, a];
    hide *;
    RunsThree(l, e, s, a);
  }

  lemma RunsThree(l: Link, e: Step, s: Step, a: Step)
    requires Can(l, e) && Can(Do(l, e), s) && Can(Do(Do(l, e), s), a) && e.Enqueue? && s.Pull? && a.Arrive?
    ensures Runs(l, [e, s, a]) && After(l, [e, s, a]) == Do(Do(Do(l, e), s), a) && FirstIndex([e, s, a]) == Some(a.i)
  {
    hide Can, Do;
    RunFirst(Do(Do(l, e), s), a, []);
    RunFirst(Do(l, e), s, [a]);
    RunFirst(l, e, [s, a]);
    assert [a] + [] == [a] && [s] + [a] == [s, a] && [e] + [s, a] == [e, s, a];
  }

  lemma RunFirst(l: Link, s: Step, rest: seq<Step>)
    requires Can(l, s) && Runs(Do(l, s), rest)
    ensures Runs(l, [s] + rest) && After(l, [s] + rest) == After(Do(l, s), rest)
    ensures FirstIndex([s] + rest) == if s.Arrive? then Some(s.i) else FirstIndex(rest)
  {
    hide Can, Do;
    assert ([s] + rest)[1..] == rest;
  }

  /** The last piece continues a frame whose start was not seen. */
  lemma LastPieceAlone(out: seq<Piece>, i: int)
    requires out == [Piece(i, LongPieces()[LATE - 1], false)]
    ensures Assemble(out).up == []
  {
    assert out[..0] == [];
    assert Assemble([]) == Asm(None, []);
    var b := LongPieces()[LATE - 1];
    assert b == [CONT] + LongFrame()[LATE - 1..];
  }

  /** The receiver has the piece that just arrived; what comes before the next one it drops. */
  lemma JustArrived(l: Link, i: int, at: int)
    requires Inv(l) && Can(l, Arrive(i, at))
    ensures var e := Do(l, Arrive(i, at)); e.rx.started && Has(e.rx, i)
  {
    hide *;
    ArrivalMeans(l, i, at);
    ArriveFrame(l, Arrive(i, at));
    var l' := Do(l, Arrive(i, at));
    var p := if l.rx.started then l.rx else Begun(l.rx, l'.start);
    NextIsMissing(p);
    BegunReceives(l, p, l'.start);
    ReceivedHolds(l, p, l'.start);
    FileKeeps(l.base, l.cut, p, l'.start, i, at);
    HoldingStarted(l.base, l.cut, File(p, i, l.cut[i - l.base], at), l'.start);
  }

  lemma NextIsMissing(r: Rx)
    requires RxOk(r)
    ensures r.next !in r.buf
  {
  }

  lemma ReceivedHolds(l: Link, p: Rx, start: int)
    requires Received(l, p, start)
    ensures Holding(l.base, l.cut, p, start)
  {
  }

  lemma PassedIsDropped(e: Link, i: int, at: int)
    requires Inv(e) && Can(e, Arrive(i, at)) && e.rx.started && i < e.rx.next
    ensures Do(e, Arrive(i, at)).rx == e.rx
  {
    ArrivalMeans(e, i, at);
    hide Inv, Can, Do, RxOk;
  }

  lemma ArriveLeaves(l: Link, i: int, at: int)
    requires Can(l, Arrive(i, at))
    ensures var e := Do(l, Arrive(i, at));
      e.base == l.base && e.cut == l.cut && e.enq == l.enq && e.fate == l.fate && e.expired == l.expired
  {
    hide OnLane, Position, RxOk;
  }

  lemma HasMeans(r: Rx, i: int)
    requires Has(r, i)
    ensures i < r.next || i in r.buf
  {
  }

  lemma OnlyTheLast(e: Link, i: int)
    requires Inv(e) && Has(e.rx, i) && i == e.base + |e.cut| - 1 && e.start == i
    requires e.start <= e.rx.next <= e.base + |e.cut| && |e.rx.out| == e.rx.next - e.start
    requires forall j :: 0 <= j < |e.rx.out| ==> e.rx.out[j] == Piece(e.start + j, e.cut[e.start + j - e.base], false)
    ensures e.rx.next == i + 1 && e.rx.out == [Piece(i, e.cut[|e.cut| - 1], false)]
  {
    InvBounds(e);
    HasMeans(e.rx, i);
    hide Inv, Has, Can;
  }

  lemma AllDropped(e: Link)
    requires Inv(e) && e.rx.started && e.rx.next == e.base + |e.cut|
    ensures forall i, now :: Can(e, Arrive(i, now)) ==> Do(e, Arrive(i, now)).rx == e.rx
  {
    InvBounds(e);
    hide Inv, Can, Do;
    forall i, now | Can(e, Arrive(i, now)) ensures Do(e, Arrive(i, now)).rx == e.rx { PassedIsDropped(e, i, now); }
  }

  /** If the piece half a window past the first one is the first to arrive, the receiver begins with it:
      of the frame it ends nothing is handed up, and the pieces before it change nothing any more. */
  lemma LateStartLosesAFrame(l: Link, at: int) returns (steps: seq<Step>)
    requires Start(l) && l.p == 1 && l.t.rtxQ == []
    ensures Runs(l, steps) && FirstIndex(steps) == Some(l.base + RING / 2)
    ensures var e := After(l, steps);
      && e.start == l.base + RING / 2 && e.enq == [FQ.QFrame(LongFrame(), 0)] && e.fate == [true]
      && |e.cut| == LATE && !e.expired && e.rx.started && Assemble(e.rx.out).up == []
    ensures var e := After(l, steps);
      forall i, now :: Can(e, Arrive(i, now)) ==> Do(e, Arrive(i, now)).rx == e.rx
  {
    hide *;
    var l2;
    l2, steps := LateRun(l, at);
    var e, i0 := After(l, steps), l.base + RING / 2;
    JustArrived(l2, i0, at);
    ArriveKeeps(l2, Arrive(i0, at));
    ArriveLeaves(l2, i0, at);
    DeliversAStretch(l, steps);
    BeginsWhere(l.base, i0);
    LateIs();
    OnlyTheLast(e, i0);
    LastPieceAlone(e.rx.out, i0);
    AllDropped(e);
  }
}
