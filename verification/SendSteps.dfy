/** The runs of the sender are those of the sender object; and a run that ends the code. */
module SendSteps {
  import opened Seq32
  import opened AckWire
  import opened Departures
  import opened Flight
  import opened SenderRing
  import opened SendRuns

  function Numbers(first: int, n: nat): (xs: seq<int>)
    ensures |xs| == n
  {
    seq(n, k requires 0 <= k < n => first + k)
  }

  lemma NumbersMore(first: int, n: nat)
    ensures Numbers(first, n + 1) == Numbers(first, n) + [first + n]
  {
  }

  /** What a pull promises is a run: a walk unless the lane is dead, the new pieces, then the copies.
      What leaves are the pieces resent, then the new ones under the next numbers. */
  lemma PullIsARun(r: Sending, u: Tx, lane: nat, room: nat, dead: bool, others: bool, dupOn: bool, now: int, rto: int,
                   srtt: int, sent: seq<int>, news: seq<Bytes>, spare: seq<int>)
    returns (steps: seq<Step>)
    requires Inv(r) && lane < LANES && TxOk(u) && Recent(r.t, |news|)
    requires PulledInTurn(r.t, u, lane, room, dead, others, dupOn, now, rto, srtt, sent, news, spare)
    ensures Runs(r, steps) && After(r, steps).t == u
    ensures After(r, steps).sends ==
      r.sends + Leave(sent, lane, now) + Leave(Numbers(r.t.seqNo + 1, |news|), lane, now)
  {
    hide *;
    InTurnMeans(r, u, lane, room, dead, others, dupOn, now, rto, srtt, sent, news, spare);
    var walk := if dead then [] else [SendAgain(lane, room, others, now, rto)];
    var r1 := WalkIsARun(r, lane, room, dead, others, now, rto);
    InvLanes(r1);
    RoomForNews(r, u, lane, room, dead, others, now, rto, news);
    var rest := RestIsARun(r1, u, lane, now, news, spare);
    InvLanes(r);
    RunsOn(r, walk, rest);
    steps := walk + rest;
  }

  lemma InTurnMeans(r: Sending, u: Tx, lane: nat, room: nat, dead: bool, others: bool, dupOn: bool, now: int, rto: int,
                    srtt: int, sent: seq<int>, news: seq<Bytes>, spare: seq<int>)
    requires lane < LANES && PulledInTurn(r.t, u, lane, room, dead, others, dupOn, now, rto, srtt, sent, news, spare)
    ensures |r.t.laneTx| == LANES
    ensures var (t1, resent) := Requeued(r.t, lane, room, dead, others, now, rto);
      && sent == resent && |t1.laneTx| == LANES
      && Copied(SentAll(t1, news, lane, now), u, spare, now)
      && u.seqNo == SentAll(t1, news, lane, now).seqNo && u.low == SentAll(t1, news, lane, now).low
  {
    hide Requeued, SentAll, Overdue;
  }

  /** The new pieces and the copies. */
  lemma RestIsARun(r: Sending, u: Tx, lane: nat, now: int, news: seq<Bytes>, spare: seq<int>) returns (steps: seq<Step>)
    requires Inv(r) && lane < LANES && |r.t.laneTx| == LANES
    requires Recent(r.t, |news|) && r.t.seqNo + |news| + 1 - r.t.low <= RING
    requires Copied(SentAll(r.t, news, lane, now), u, spare, now)
    ensures Runs(r, steps) && After(r, steps).t == u
    ensures After(r, steps).sends == r.sends + Leave(Numbers(r.t.seqNo + 1, |news|), lane, now)
  {
    steps := NewsAreARun(r, lane, now, news);
    var r1 := After(r, steps);
    InvLanes(r1);
    hide Inv, Recent, Copied, SentAll, Runs, After;
    var s := SendCopies(u, spare, now);
    assert Can(r1, s);
    RunsOne(r1, s);
    RunsOn(r, steps, [s]);
    steps := steps + [s];
  }

  lemma WalkIsARun(r: Sending, lane: nat, room: nat, dead: bool, others: bool, now: int, rto: int) returns (r1: Sending)
    requires Inv(r) && lane < LANES && |r.t.laneTx| == LANES
    ensures var walk := if dead then [] else [SendAgain(lane, room, others, now, rto)];
      Runs(r, walk) && r1 == After(r, walk) && Inv(r1) && r1.t == Requeued(r.t, lane, room, dead, others, now, rto).0
    ensures r1.t.seqNo == r.t.seqNo
    ensures r1.sends == r.sends + Leave(Requeued(r.t, lane, room, dead, others, now, rto).1, lane, now)
  {
    hide TxOk, Resend, PiecesAre, LanesAre, MarksAre, Numbered, Without;
    r1 := r;
    if dead {
      assert r.sends + Leave([], lane, now) == r.sends;
    } else {
      InvLanes(r);
      var s := SendAgain(lane, room, others, now, rto);
      RunsOne(r, s);
      StepKeeps(r, s);
      r1 := Do(r, s);
    }
  }

  lemma InvLanes(r: Sending)
    requires Inv(r)
    ensures |r.t.laneTx| == |r.t.laneAck| == LANES && r.t.low <= r.t.seqNo + 1
  {
  }

  /** After the walk there is room in the ring and in the number space for the new pieces. */
  lemma RoomForNews(r: Sending, u: Tx, lane: nat, room: nat, dead: bool, others: bool, now: int, rto: int,
                    news: seq<Bytes>)
    requires Inv(r) && lane < LANES && |r.t.laneTx| == LANES && TxOk(u) && Recent(r.t, |news|)
    requires var t1 := Requeued(r.t, lane, room, dead, others, now, rto).0;
      |t1.laneTx| == LANES && u.seqNo == SentAll(t1, news, lane, now).seqNo && u.low == SentAll(t1, news, lane, now).low
    ensures var t1 := Requeued(r.t, lane, room, dead, others, now, rto).0;
      Recent(t1, |news|) && t1.seqNo + |news| + 1 - t1.low <= RING
  {
    var t1 := Requeued(r.t, lane, room, dead, others, now, rto).0;
    hide TxOk, Resend, SentAll;
    SentNumbers(t1, news, lane, now);
    NumbersFit(u);
    if !dead { KeptRecent(r, lane, room, others, now, rto, |news|); }
  }

  lemma NumbersFit(u: Tx)
    requires TxOk(u)
    ensures u.seqNo + 1 <= u.low + RING
  {
  }

  lemma KeptRecent(r: Sending, lane: nat, room: nat, others: bool, now: int, rto: int, n: int)
    requires Inv(r) && lane < LANES && |r.t.laneTx| == LANES && Recent(r.t, n)
    ensures var w := Resend(r.t, |r.t.rtxQ|, lane, room, others, now, rto); Recent(AfterResend(r.t, w), n)
  {
    ResendFacts(r.t, |r.t.rtxQ|, lane, room, others, now, rto);
    assert r.t.rtxQ[..|r.t.rtxQ|] == r.t.rtxQ;
    hide TxOk, Resend, LiveOnce;
    var w := Resend(r.t, |r.t.rtxQ|, lane, room, others, now, rto);
    forall k | 0 <= k < |w.kept| ensures r.t.seqNo + n - (TWO32 - RING) < w.kept[k] {
      assert w.kept[k] in w.kept;
    }
  }

  lemma {:induction false} SentNumbers(t: Tx, news: seq<Bytes>, lane: int, now: int)
    requires |t.laneTx| == LANES && 0 <= lane < LANES
    ensures var u := SentAll(t, news, lane, now); u.seqNo == t.seqNo + |news| && u.low == t.low && u.rtxQ == t.rtxQ
  {
    if news != [] { SentNumbers(t, news[..|news| - 1], lane, now); }
  }

  lemma {:induction false} NewsAreARun(r: Sending, lane: nat, now: int, news: seq<Bytes>) returns (steps: seq<Step>)
    requires Inv(r) && lane < LANES && |r.t.laneTx| == LANES
    requires Recent(r.t, |news|) && r.t.seqNo + |news| + 1 - r.t.low <= RING
    ensures Runs(r, steps) && After(r, steps).t == SentAll(r.t, news, lane, now) && Inv(After(r, steps))
    ensures After(r, steps).sends == r.sends + Leave(Numbers(r.t.seqNo + 1, |news|), lane, now)
    decreases |news|
  {
    hide *;
    steps := [];
    NoNews(r, lane, now);
    if news != [] {
      SentAllNext(r.t, lane, now, news);
      var n := |news| - 1;
      RecentLess(r.t, |news|, n);
      steps := NewsAreARun(r, lane, now, news[..n]);
      var r1 := After(r, steps);
      SentNumbers(r.t, news[..n], lane, now);
      InvLanes(r1);
      var s := SendNew(news[n], lane, now);
      OneNew(r, r1, lane, now, news[n], n);
      RunsOne(r1, s);
      RunsOn(r, steps, [s]);
      StepKeeps(r1, s);
      OneMore(r.sends, r.t.seqNo + 1, n, lane, now);
      steps := steps + [s];
    }
  }

  lemma OneMore(sends: seq<Departure>, first: int, n: nat, lane: int, now: int)
    ensures sends + Leave(Numbers(first, n), lane, now) + [Departure(first + n, lane, now)]
         == sends + Leave(Numbers(first, n + 1), lane, now)
  {
    NumbersMore(first, n);
    LeaveMore(Numbers(first, n), first + n, lane, now);
  }

  lemma NoNews(r: Sending, lane: nat, now: int)
    requires lane < LANES && |r.t.laneTx| == LANES
    ensures Runs(r, []) && After(r, []) == r && SentAll(r.t, [], lane, now) == r.t
    ensures r.sends + Leave(Numbers(r.t.seqNo + 1, 0), lane, now) == r.sends
  {
  }

  lemma SentAllNext(t: Tx, lane: nat, now: int, news: seq<Bytes>)
    requires lane < LANES && |t.laneTx| == LANES && news != []
    ensures var u := SentAll(t, news[..|news| - 1], lane, now);
      SentAll(t, news, lane, now) == Sent(u, Framed(u.seqNo + 1, u.low, news[|news| - 1]), lane, now)
  {
  }

  lemma OneNew(r: Sending, r1: Sending, lane: nat, now: int, p: Bytes, n: nat)
    requires Inv(r1) && lane < LANES && Recent(r.t, n + 1) && r.t.seqNo + n + 2 - r.t.low <= RING
    requires r1.t.seqNo == r.t.seqNo + n && r1.t.low == r.t.low && r1.t.rtxQ == r.t.rtxQ
    ensures Can(r1, SendNew(p, lane, now))
    ensures var r2 := Do(r1, SendNew(p, lane, now));
      && r2.t == Sent(r1.t, Framed(r1.t.seqNo + 1, r1.t.low, p), lane, now)
      && r2.sends == r1.sends + [Departure(r1.t.seqNo + 1, lane, now)]
  {
    InvLanes(r1);
    hide Inv, Framed;
  }

  /** What an ack promises is a run: it is taken, then losses are looked for. */
  lemma AckIsARun(r: Sending, a: Ack, mid: Tx, u: Tx, now: int, minRTT: int, rto: int)
    requires Inv(r) && |r.t.laneAck| == LANES && Accepts(r.t, a) && Laned(mid) && !Crashes(mid)
    requires Acked(r.t, mid, Released(r.t, a), NewLow(r.t, a), now, minRTT)
    requires mid.low <= mid.seqNo + 1 && u == Detect(mid, mid.seqNo + 1, now, rto)
    ensures var steps := [TakeAck(a, mid, now, minRTT), FindLost(now, rto)];
      Runs(r, steps) && After(r, steps) == r.(t := u, seen := r.seen + Shown(r, Released(r.t, a), now, minRTT))
  {
    InvLanes(r);
    hide Acked, Accepts, Detect, Crashes, Inv;
    RunsOne(r, TakeAck(a, mid, now, minRTT));
    AckLanes(r.t, mid, a, now, minRTT);
    RunsOne(r.(t := mid, seen := r.seen + Shown(r, Released(r.t, a), now, minRTT)), FindLost(now, rto));
    RunsOn(r, [TakeAck(a, mid, now, minRTT)], [FindLost(now, rto)]);
    assert [TakeAck(a, mid, now, minRTT)] + [FindLost(now, rto)] == [TakeAck(a, mid, now, minRTT), FindLost(now, rto)];
  }

  lemma AckLanes(t: Tx, mid: Tx, a: Ack, now: int, minRTT: int)
    requires |t.laneAck| == LANES && Acked(t, mid, Released(t, a), NewLow(t, a), now, minRTT)
    ensures mid.laneTx == t.laneTx && |mid.laneAck| == LANES
  {
  }

  // ---- how a pull spends its room ----

  /** A copy may go to it on the lane. */
  predicate Deserves(t: Tx, i: int, lane: int, now: int, overdue: int) {
    && i in t.live && !t.live[i].queued && t.live[i].dups <= 0 && t.live[i].lane != lane
    && now >= t.live[i].at + overdue
  }

  lemma {:induction false} WorthySame(t: Tx, u: Tx, upto: int, more: int, lane: int, now: int, overdue: int)
    requires t.low == u.low <= upto <= more
    requires forall i :: t.low <= i < more ==>
      (Deserves(u, i, lane, now, overdue) <==> i < upto && Deserves(t, i, lane, now, overdue))
    ensures Worthy(u, more, lane, now, overdue) == Worthy(t, upto, lane, now, overdue)
    decreases more - t.low
  {
    if more > upto {
      WorthySame(t, u, upto, more - 1, lane, now, overdue);
      assert !Deserves(u, more - 1, lane, now, overdue);
    } else if upto > t.low {
      WorthySame(t, u, upto - 1, upto - 1, lane, now, overdue);
      assert Deserves(u, upto - 1, lane, now, overdue) <==> Deserves(t, upto - 1, lane, now, overdue);
    }
  }

  /** What left in this pull deserves no copy from it, and the rest is as it was. */
  lemma {:induction false} NewsDeserveNone(t: Tx, news: seq<Bytes>, lane: int, now: int, overdue: int)
    requires |t.laneTx| == LANES && 0 <= lane < LANES
    ensures var u := SentAll(t, news, lane, now);
      && u.seqNo == t.seqNo + |news| && u.low == t.low
      && forall i :: i <= u.seqNo ==>
        (Deserves(u, i, lane, now, overdue) <==> i <= t.seqNo && Deserves(t, i, lane, now, overdue))
  {
    if news != [] {
      NewsDeserveNone(t, news[..|news| - 1], lane, now, overdue);
      hide Framed;
      var v := SentAll(t, news[..|news| - 1], lane, now);
      var u := SentAll(t, news, lane, now);
      forall i | i <= u.seqNo
        ensures Deserves(u, i, lane, now, overdue) <==> i <= t.seqNo && Deserves(t, i, lane, now, overdue)
      {
        assert i < u.seqNo ==> (Deserves(u, i, lane, now, overdue) <==> Deserves(v, i, lane, now, overdue));
      }
    }
  }

  lemma ResentDeserveNone(t: Tx, lane: int, room: nat, dead: bool, others: bool, now: int, rto: int, overdue: int)
    requires TxOk(t) && 0 <= lane < LANES
    ensures var u := Requeued(t, lane, room, dead, others, now, rto).0;
      && |u.laneTx| == LANES && u.seqNo == t.seqNo && u.low == t.low
      && forall i :: Deserves(u, i, lane, now, overdue) <==> Deserves(t, i, lane, now, overdue)
  {
    ResendFacts(t, |t.rtxQ|, lane, room, others, now, rto);
    hide Resend, LiveOnce;
  }

  lemma TurnIs(t: Tx, u: Tx, lane: nat, room: nat, dead: bool, others: bool, dupOn: bool, now: int, rto: int,
               srtt: int, sent: seq<int>, news: seq<Bytes>, spare: seq<int>)
    requires TxOk(t) && lane < LANES
    requires PulledInTurn(t, u, lane, room, dead, others, dupOn, now, rto, srtt, sent, news, spare)
    ensures |t.laneTx| == LANES
    ensures sent == if dead then [] else Resend(t, |t.rtxQ|, lane, room, others, now, rto).sent
    ensures var t1 := Requeued(t, lane, room, dead, others, now, rto).0;
      && |t1.laneTx| == LANES
      && var t2 := SentAll(t1, news, lane, now);
      && t2.low <= t2.seqNo + 1
      && spare == if room - |sent| - |news| > 0 && !dead && dupOn
                  then Overdue(t2, lane, room - |sent| - |news|, now, srtt) else []
  {
    hide TxOk, Resend, SentAll, Overdue, Copied;
    NothingQueued(t, lane, room, dead, others, now, rto);
    OnLanes(t);
  }

  lemma CopiesOf(t: Tx, t2: Tx, lane: nat, room: nat, now: int, srtt: int)
    requires t2.low == t.low <= t.seqNo + 1 <= t2.seqNo + 1 && srtt != 0
    requires forall i :: i <= t2.seqNo ==>
      (Deserves(t2, i, lane, now, Ripe(srtt)) <==> i <= t.seqNo && Deserves(t, i, lane, now, Ripe(srtt)))
    ensures Overdue(t2, lane, room, now, srtt) ==
      FirstOf(Worthy(t, Earlier(t.seqNo + 1, t.low + 512), lane, now, Ripe(srtt)), room)
  {
    hide Overdue, Worthy, Deserves, FirstOf;
    OverdueExactly(t2, lane, room, now, srtt);
    WorthySame(t, t2, Earlier(t.seqNo + 1, t.low + 512), Earlier(t2.seqNo + 1, t.low + 512), lane, now, Ripe(srtt));
  }

  /** The age from which a copy may go. */
  function Ripe(srtt: int): int { if srtt * 5 / 4 < 40_000_000 then 40_000_000 else srtt * 5 / 4 }

  lemma NothingFirst(xs: seq<int>)
    ensures FirstOf(xs, 0) == []
  {
  }

  lemma NothingRipe(t: Tx, lane: nat, room: nat, now: int)
    requires t.low <= t.seqNo + 1
    ensures Overdue(t, lane, room, now, 0) == []
  {
  }

  lemma LowIsLow(t: Tx)
    requires TxOk(t)
    ensures t.low <= t.seqNo + 1
  {
  }

  /** How a pull spends its room: first on the pieces that wait and may leave on this lane, in their order;
      then on new pieces; what is left then on copies of the overdue pieces, oldest first. A dead lane gets
      no resends and no copies. */
  lemma PullSplits(t: Tx, u: Tx, lane: nat, room: nat, dead: bool, others: bool, dupOn: bool, now: int, rto: int,
                   srtt: int, sent: seq<int>, news: seq<Bytes>, spare: seq<int>)
    requires TxOk(t) && lane < LANES && |sent| + |news| <= room
    requires PulledInTurn(t, u, lane, room, dead, others, dupOn, now, rto, srtt, sent, news, spare)
    ensures sent == if dead then [] else FirstOf(Ready(t, |t.rtxQ|, lane, others, now, rto), room)
    ensures dead || !dupOn || srtt == 0 ==> spare == []
    ensures !dead && dupOn && srtt != 0 ==>
      var upto := if t.seqNo + 1 < t.low + 512 then t.seqNo + 1 else t.low + 512;
      spare == FirstOf(Worthy(t, upto, lane, now, Ripe(srtt)), room - |sent| - |news|)
  {
    hide *;
    TurnIs(t, u, lane, room, dead, others, dupOn, now, rto, srtt, sent, news, spare);
    LowIsLow(t);
    EarlierIs(t.seqNo + 1, t.low + 512);
    ResendExactly(t, |t.rtxQ|, lane, room, others, now, rto);
    var t1 := Requeued(t, lane, room, dead, others, now, rto).0;
    var t2 := SentAll(t1, news, lane, now);
    var left := room - |sent| - |news|;
    ResentDeserveNone(t, lane, room, dead, others, now, rto, Ripe(srtt));
    NewsDeserveNone(t1, news, lane, now, Ripe(srtt));
    NothingRipe(t2, lane, left, now);
    if srtt != 0 {
      CopiesOf(t, t2, lane, left, now, srtt);
      NothingFirst(Worthy(t, Earlier(t.seqNo + 1, t.low + 512), lane, now, Ripe(srtt)));
    }
  }

  lemma EarlierIs(a: int, b: int)
    ensures Earlier(a, b) == if a < b then a else b
  {
  }

  // ---- a run that reaches the count of zero ----

  /** The time of the `n`th resend, two timeouts after the one before. */
  function At(n: nat, rto: nat): nat { if n == 0 then 0 else At(n - 1, rto) + 2 * rto }

  function OftenSent(i: int, n: nat, rto: nat): seq<Departure> {
    (if n == 0 then [] else OftenSent(i, n - 1, rto)) + [Departure(i, 0, At(n, rto))]
  }

  lemma {:induction false} OftenLeft(i: int, n: nat, rto: nat)
    ensures Left(OftenSent(i, n, rto), i) == n + 1
  {
    hide At;
    if n > 0 { OftenLeft(i, n - 1, rto); }
    LeftMore(if n == 0 then [] else OftenSent(i, n - 1, rto), Departure(i, 0, At(n, rto)), i);
  }

  /** One piece, sent and then lost and sent again `n` times on lane 0. */
  function OneLost(first: int, buf: Bytes, n: nat, rto: nat): Sending {
    var p := TxPiece(buf, false, 0, 0, 0, n + 1, At(n, rto), (1 + n) % 256);
    Sending(Tx(first + 1, first + 1, map[first + 1 := p], [], Zeros()[0 := n + 1], Zeros()),
            OftenSent(first + 1, n, rto), map[], {})
  }

  function Rounds(n: nat, rto: nat): seq<Step> {
    if n == 0 then []
    else Rounds(n - 1, rto) + [FindLost(At(n, rto), rto), SendAgain(0, 1, false, At(n, rto), rto)]
  }

  /** The piece is found lost. */
  lemma OneFound(first: int, buf: Bytes, n: nat, rto: nat)
    requires (1 + n) % 256 != 0 && rto > 0
    ensures var r, now := OneLost(first, buf, n, rto), At(n + 1, rto);
      Can(r, FindLost(now, rto)) && Do(r, FindLost(now, rto)) == r.(t := Queued(r.t, first + 1))
  {
    var r, now := OneLost(first, buf, n, rto), At(n + 1, rto);
    var i := first + 1;
    assert !Unshiftable(r.t.live[i], r.t.laneAck);
    assert Detect(r.t, i, now, rto) == r.t;
    assert Lost(r.t.live[i], r.t.laneAck, now, rto);
  }

  /** It goes out again. */
  lemma OneAgain(first: int, buf: Bytes, n: nat, now: int, rto: nat)
    ensures var t := Queued(OneLost(first, buf, n, rto).t, first + 1);
      var w := Resend(t, |t.rtxQ|, 0, 1, false, now, rto);
      && w.sent == [first + 1] && w.kept == []
      && w.live == t.live[first + 1 := Again(t.live[first + 1], 0, n + 2, now)] && w.laneTx == t.laneTx[0 := n + 2]
  {
    var t := Queued(OneLost(first, buf, n, rto).t, first + 1);
    assert t.rtxQ == [first + 1];
    assert Resend(t, 0, 0, 1, false, now, rto) == Walk(t.live, t.laneTx, [], []);
    hide At;
    assert t.laneTx[0] == n + 1;
  }

  lemma AgainIsLost(first: int, buf: Bytes, n: nat, rto: nat)
    ensures var r, now := OneLost(first, buf, n, rto), At(n + 1, rto);
      var r1, s := r.(t := Queued(r.t, first + 1)), SendAgain(0, 1, false, now, rto);
      Can(r1, s) && Do(r1, s) == OneLost(first, buf, n + 1, rto)
  {
    var r, now := OneLost(first, buf, n, rto), At(n + 1, rto);
    OneAgain(first, buf, n, now, rto);
    hide Resend, At, Zeros;
    assert Zeros()[0 := n + 1][0 := n + 2] == Zeros()[0 := n + 2];
    assert Without(map[], [first + 1]) == map[];
    assert Leave([first + 1], 0, now) == [Departure(first + 1, 0, now)];
  }

  lemma OneRound(first: int, buf: Bytes, n: nat, rto: nat)
    requires (1 + n) % 256 != 0 && rto > 0
    ensures var r, now := OneLost(first, buf, n, rto), At(n + 1, rto);
      var steps := [FindLost(now, rto), SendAgain(0, 1, false, now, rto)];
      Runs(r, steps) && After(r, steps) == OneLost(first, buf, n + 1, rto)
  {
    var r, now := OneLost(first, buf, n, rto), At(n + 1, rto);
    var s1, s2 := FindLost(now, rto), SendAgain(0, 1, false, now, rto);
    OneFound(first, buf, n, rto);
    hide Resend, Detect, At, Crashes;
    AgainIsLost(first, buf, n, rto);
    var r1 := Do(r, s1);
    hide Do, Can, OneLost;
    RunsOne(r, s1);
    RunsOne(r1, s2);
    RunsOn(r, [s1], [s2]);
    assert [s1] + [s2] == [s1, s2];
  }

  lemma {:induction false} ManyRounds(first: int, buf: Bytes, n: nat, rto: nat)
    requires n <= 255 && rto > 0
    ensures Runs(OneLost(first, buf, 0, rto), Rounds(n, rto))
    ensures After(OneLost(first, buf, 0, rto), Rounds(n, rto)) == OneLost(first, buf, n, rto)
  {
    hide *;
    RoundsNext(first, buf, n, rto);
    if n > 0 {
      ManyRounds(first, buf, n - 1, rto);
      OneRound(first, buf, n - 1, rto);
      RunsOn(OneLost(first, buf, 0, rto), Rounds(n - 1, rto),
             [FindLost(At(n, rto), rto), SendAgain(0, 1, false, At(n, rto), rto)]);
    }
  }

  lemma RoundsNext(first: int, buf: Bytes, n: nat, rto: nat)
    ensures n == 0 ==>
      var r := OneLost(first, buf, 0, rto); Runs(r, Rounds(n, rto)) && After(r, Rounds(n, rto)) == r
    ensures n > 0 ==>
      Rounds(n, rto) == Rounds(n - 1, rto) + [FindLost(At(n, rto), rto), SendAgain(0, 1, false, At(n, rto), rto)]
  {
    hide OneLost, At;
  }

  lemma FirstSend(r: Sending, p: Bytes, rto: nat)
    requires Start(r)
    ensures var s, buf := SendNew(p, 0, 0), Framed(r.t.seqNo + 1, r.t.low, p);
      Can(r, s) && Do(r, s) == OneLost(r.t.seqNo, buf, 0, rto)
  {
    var buf := Framed(r.t.seqNo + 1, r.t.low, p);
    hide Framed;
    assert [] + [Departure(r.t.seqNo + 1, 0, 0)] == [Departure(r.t.seqNo + 1, 0, 0)];
    assert Without(map[], [r.t.seqNo + 1]) == map[];
    assert OftenSent(r.t.seqNo + 1, 0, rto) == [Departure(r.t.seqNo + 1, 0, 0)];
  }

  lemma LastLookCrashes(first: int, buf: Bytes, rto: nat)
    ensures var e := OneLost(first, buf, 255, rto);
      Laned(e.t) && Crashes(e.t) && e.sends == OftenSent(first + 1, 255, rto)
  {
    hide At, OftenSent;
    var e := OneLost(first, buf, 255, rto);
    assert Unshiftable(e.t.live[first + 1], e.t.laneAck);
  }

  /** One piece that is lost 255 times in a row and sent again each time: none of the looks for losses
      on the way ends the code, and the next one does. */
  lemma LostTooOften(r: Sending, p: Bytes, rto: nat)
    requires Start(r) && rto > 0
    ensures var steps := [SendNew(p, 0, 0)] + Rounds(255, rto);
      && Runs(r, steps)
      && Laned(After(r, steps).t) && Crashes(After(r, steps).t) && Left(After(r, steps).sends, r.t.seqNo + 1) == 256
  {
    hide *;
    var s, buf := SendNew(p, 0, 0), Framed(r.t.seqNo + 1, r.t.low, p);
    FirstSend(r, p, rto);
    RunsOne(r, s);
    ManyRounds(r.t.seqNo, buf, 255, rto);
    RunsOn(r, [s], Rounds(255, rto));
    OftenLeft(r.t.seqNo + 1, 255, rto);
    LastLookCrashes(r.t.seqNo, buf, rto);
  }
}
