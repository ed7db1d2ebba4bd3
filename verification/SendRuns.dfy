/** Runs of the sender, against the history of what left: when a piece counts as lost, and when its
    eight-bit count ends the code. */
module SendRuns {
  import opened Seq32
  import opened AckWire
  import opened Departures
  import opened Flight
  import opened SenderRing

  /** `sends` is the history of what left, `copied` the time of each spare copy made of a piece since it
      last left, and `seen` the positions of the departures that acks showed to have come through. */
  datatype Sending = Sending(t: Tx, sends: seq<Departure>, copied: map<int, int>, seen: set<int>)

  /** What the sender does under its lock: a pull is a walk over the queue, new pieces and spare copies;
      an ack releases pieces and then looks for losses, as the timer does. */
  datatype Step =
    | SendNew(p: Bytes, lane: nat, now: int)
    | SendAgain(lane: nat, room: nat, others: bool, now: int, rto: int)
    | SendCopies(t': Tx, spare: seq<int>, now: int)
    | TakeAck(a: Ack, t': Tx, now: int, minRTT: int)
    | FindLost(now: int, rto: int)

  function Zeros(): (z: seq<int>)
    ensures |z| == LANES && forall k :: 0 <= k < LANES ==> z[k] == 0
  {
    seq(LANES, _ => 0)
  }

  ghost predicate Start(r: Sending) {
    r == Sending(Tx(r.t.seqNo, r.t.seqNo + 1, map[], [], Zeros(), Zeros()), [], map[], {})
  }

  ghost predicate Can(r: Sending, s: Step) {
    |r.t.laneTx| == |r.t.laneAck| == LANES &&
    match s
    case SendNew(p, lane, now) => lane < LANES && r.t.seqNo + 1 - r.t.low < RING && Recent(r.t, 1)
    case SendAgain(lane, room, others, now, rto) => lane < LANES
    case SendCopies(t', spare, now) => Copied(r.t, t', spare, now)
    case TakeAck(a, t', now, minRTT) =>
      Accepts(r.t, a) && Acked(r.t, t', Released(r.t, a), NewLow(r.t, a), now, minRTT)
    case FindLost(now, rto) => Laned(r.t) && r.t.low <= r.t.seqNo + 1 && !Crashes(r.t)
  }

  function Without(copied: map<int, int>, xs: seq<int>): map<int, int> {
    map i | i in copied && i !in xs :: copied[i]
  }

  function With(copied: map<int, int>, xs: seq<int>, now: int): map<int, int> {
    map i | i in copied.Keys + (set x | x in xs) :: if i in xs then now else copied[i]
  }

  /** What comes through shows that the last departure of piece `i` did: no spare copy and no earlier
      departure can have come through instead, each less than seven eighths of a round trip old. */
  predicate Shows(r: Sending, i: int, now: int, minRTT: int) {
    && (i in r.copied ==> now - r.copied[i] < minRTT * 7 / 8)
    && Last(r.sends, i) >= 0
    && (Left(r.sends, i) % 256 == 1 || now - r.sends[Last(r.sends, i)].at >= minRTT * 7 / 8)
  }

  /** The departures that are shown to have come through when the pieces in `gone` are acked. */
  function Shown(r: Sending, gone: set<int>, now: int, minRTT: int): set<int> {
    set i | i in gone && Shows(r, i, now, minRTT) :: Last(r.sends, i)
  }

  ghost function Do(r: Sending, s: Step): Sending
    requires Can(r, s)
  {
    match s
    case SendNew(p, lane, now) =>
      r.(t := Sent(r.t, Framed(r.t.seqNo + 1, r.t.low, p), lane, now),
         sends := r.sends + [Departure(r.t.seqNo + 1, lane, now)], copied := Without(r.copied, [r.t.seqNo + 1]))
    case SendAgain(lane, room, others, now, rto) =>
      var w := Resend(r.t, |r.t.rtxQ|, lane, room, others, now, rto);
      r.(t := AfterResend(r.t, w), sends := r.sends + Leave(w.sent, lane, now), copied := Without(r.copied, w.sent))
    case SendCopies(t', spare, now) => r.(t := t', copied := With(r.copied, spare, now))
    case TakeAck(a, t', now, minRTT) =>
      r.(t := t', seen := r.seen + Shown(r, Released(r.t, a), now, minRTT))
    case FindLost(now, rto) => r.(t := Detect(r.t, r.t.seqNo + 1, now, rto))
  }

  ghost predicate Runs(r: Sending, steps: seq<Step>)
    decreases |steps|
  {
    steps == [] || (Can(r, steps[0]) && Runs(Do(r, steps[0]), steps[1..]))
  }

  ghost function After(r: Sending, steps: seq<Step>): Sending
    requires Runs(r, steps)
    decreases |steps|
  {
    if steps == [] then r else After(Do(r, steps[0]), steps[1..])
  }

  lemma {:induction false} RunsOn(r: Sending, steps: seq<Step>, more: seq<Step>)
    requires Runs(r, steps) && Runs(After(r, steps), more)
    ensures Runs(r, steps + more) && After(r, steps + more) == After(After(r, steps), more)
    decreases |steps|
  {
    if steps == [] {
      assert steps + more == more;
    } else {
      RunsOn(Do(r, steps[0]), steps[1..], more);
      assert (steps + more)[1..] == steps[1..] + more;
    }
  }

  lemma RunsOne(r: Sending, s: Step)
    requires Can(r, s)
    ensures Runs(r, [s]) && After(r, [s]) == Do(r, s)
  {
    assert [s][1..] == [];
  }

  // ---- what the sender keeps is what the history says ----

  ghost predicate PieceIs(p: TxPiece, sends: seq<Departure>, copied: map<int, int>, i: int) {
    var k := Last(sends, i);
    && k >= 0 && p.lane == sends[k].lane && p.laneIdx == Ordinal(sends, k) && p.at == sends[k].at
    && p.tries == Left(sends, i) % 256
    && p.dups >= 0 && (p.dups > 0 <==> i in copied) && (i in copied ==> p.dupAt == copied[i])
  }

  ghost predicate PiecesAre(live: map<int, TxPiece>, sends: seq<Departure>, copied: map<int, int>) {
    forall i :: i in live ==> PieceIs(live[i], sends, copied, i)
  }

  ghost predicate LanesAre(laneTx: seq<int>, sends: seq<Departure>) {
    |laneTx| == LANES && forall l :: 0 <= l < LANES ==> laneTx[l] == OnLane(sends, l)
  }

  /** Every departure was that of a piece that got a number, on a lane. */
  ghost predicate Numbered(sends: seq<Departure>, seqNo: int) {
    forall k :: 0 <= k < |sends| ==> sends[k].i <= seqNo && 0 <= sends[k].lane < LANES
  }

  /** A lane's mark is the number of the last departure on it that was shown to have come through. */
  ghost predicate MarksAre(laneAck: seq<int>, sends: seq<Departure>, seen: set<int>) {
    && |laneAck| == LANES
    && (forall k :: k in seen ==>
          0 <= k < |sends| && 0 <= sends[k].lane < LANES && Ordinal(sends, k) <= laneAck[sends[k].lane])
    && (forall l :: 0 <= l < LANES && laneAck[l] != 0 ==>
          exists k :: k in seen && 0 <= k < |sends| && sends[k].lane == l && Ordinal(sends, k) == laneAck[l])
    && (forall l :: 0 <= l < LANES ==> laneAck[l] >= 0)
  }

  ghost predicate Inv(r: Sending) {
    && TxOk(r.t) && PiecesAre(r.t.live, r.sends, r.copied) && LanesAre(r.t.laneTx, r.sends)
    && Numbered(r.sends, r.t.seqNo) && MarksAre(r.t.laneAck, r.sends, r.seen)
  }

  /** Piece `d.i` leaves: it is the last departure on its lane and has no copy any more. */
  lemma PieceLeaves(p: TxPiece, sends: seq<Departure>, copied: map<int, int>, d: Departure)
    requires PieceIs(p, sends, copied, d.i)
    ensures PieceIs(Again(p, d.lane, OnLane(sends, d.lane) + 1, d.at), sends + [d], Without(copied, [d.i]), d.i)
  {
    LeftMore(sends, d, d.i);
    OrdinalLast(sends, d);
    hide Left, Last, OnLane, Ordinal;
  }

  lemma OtherStays(p: TxPiece, sends: seq<Departure>, copied: map<int, int>, d: Departure, i: int)
    requires PieceIs(p, sends, copied, i) && i != d.i
    ensures PieceIs(p, sends + [d], Without(copied, [d.i]), i)
  {
    LeftMore(sends, d, i);
    OrdinalStays(sends, d, Last(sends, i));
    hide Left, Last, OnLane, Ordinal;
  }

  lemma LanesMore(laneTx: seq<int>, sends: seq<Departure>, d: Departure)
    requires LanesAre(laneTx, sends) && 0 <= d.lane < LANES
    ensures LanesAre(laneTx[d.lane := laneTx[d.lane] + 1], sends + [d])
  {
    forall l | 0 <= l < LANES ensures laneTx[d.lane := laneTx[d.lane] + 1][l] == OnLane(sends + [d], l) {
      OnLaneMore(sends, d, l);
    }
  }

  lemma MarksStay(laneAck: seq<int>, sends: seq<Departure>, seen: set<int>, d: Departure)
    requires MarksAre(laneAck, sends, seen)
    ensures MarksAre(laneAck, sends + [d], seen)
  {
    hide Ordinal;
    var more := sends + [d];
    forall k | 0 <= k < |sends| ensures Ordinal(more, k) == Ordinal(sends, k) && more[k] == sends[k] {
      OrdinalStays(sends, d, k);
    }
    forall l | 0 <= l < LANES && laneAck[l] != 0
      ensures exists k :: k in seen && 0 <= k < |more| && more[k].lane == l && Ordinal(more, k) == laneAck[l]
    {
      var k :| k in seen && 0 <= k < |sends| && sends[k].lane == l && Ordinal(sends, k) == laneAck[l];
      assert more[k].lane == l && Ordinal(more, k) == laneAck[l];
    }
  }

  lemma NeverLeft(sends: seq<Departure>, i: int)
    requires forall k :: 0 <= k < |sends| ==> sends[k].i != i
    ensures Left(sends, i) == 0 && Last(sends, i) == -1
  {
    assert Last(sends, i) < 0;
  }

  lemma PiecesMore(live: map<int, TxPiece>, sends: seq<Departure>, copied: map<int, int>, d: Departure, p: TxPiece)
    requires PiecesAre(live, sends, copied) && PieceIs(p, sends + [d], Without(copied, [d.i]), d.i)
    ensures PiecesAre(live[d.i := p], sends + [d], Without(copied, [d.i]))
  {
    hide PieceIs, Without;
    forall i | i in live && i != d.i ensures PieceIs(live[i], sends + [d], Without(copied, [d.i]), i) {
      OtherStays(live[i], sends, copied, d, i);
    }
  }

  lemma NumberedMore(sends: seq<Departure>, seqNo: int, d: Departure, seqNo': int)
    requires Numbered(sends, seqNo) && seqNo <= seqNo' && d.i <= seqNo' && 0 <= d.lane < LANES
    ensures Numbered(sends + [d], seqNo')
  {
  }

  lemma NewKeeps(r: Sending, s: Step)
    requires Inv(r) && s.SendNew? && Can(r, s)
    ensures Inv(Do(r, s))
  {
    hide *;
    var d := Departure(r.t.seqNo + 1, s.lane, s.now);
    InvParts(r);
    NewParts(r, s, d);
    LanesMore(r.t.laneTx, r.sends, d);
    MarksStay(r.t.laneAck, r.sends, r.seen, d);
    NumberedMore(r.sends, r.t.seqNo, d, r.t.seqNo + 1);
    NewPiece(r, s, d);
    PiecesMore(r.t.live, r.sends, r.copied, d, Do(r, s).t.live[d.i]);
    MakeInv(Do(r, s));
  }

  lemma InvParts(r: Sending)
    requires Inv(r)
    ensures TxOk(r.t) && PiecesAre(r.t.live, r.sends, r.copied) && LanesAre(r.t.laneTx, r.sends)
    ensures Numbered(r.sends, r.t.seqNo) && MarksAre(r.t.laneAck, r.sends, r.seen)
  {
  }

  lemma MakeInv(r: Sending)
    requires TxOk(r.t) && PiecesAre(r.t.live, r.sends, r.copied) && LanesAre(r.t.laneTx, r.sends)
    requires Numbered(r.sends, r.t.seqNo) && MarksAre(r.t.laneAck, r.sends, r.seen)
    ensures Inv(r)
  {
  }

  lemma NewParts(r: Sending, s: Step, d: Departure)
    requires TxOk(r.t) && s.SendNew? && Can(r, s) && d == Departure(r.t.seqNo + 1, s.lane, s.now)
    ensures |r.t.laneTx| == LANES && 0 <= d.lane < LANES && d.i in Do(r, s).t.live && TxOk(Do(r, s).t)
    ensures Do(r, s).t.live == r.t.live[d.i := Do(r, s).t.live[d.i]] && Do(r, s).t.seqNo == r.t.seqNo + 1
    ensures Do(r, s).t.laneTx == r.t.laneTx[d.lane := r.t.laneTx[d.lane] + 1] && Do(r, s).t.laneAck == r.t.laneAck
    ensures Do(r, s).sends == r.sends + [d] && Do(r, s).seen == r.seen && Do(r, s).copied == Without(r.copied, [d.i])
  {
    SentKeepsOk(r.t, Framed(r.t.seqNo + 1, r.t.low, s.p), s.lane, s.now);
    hide TxOk, Framed, Without;
  }

  lemma NewPiece(r: Sending, s: Step, d: Departure)
    requires Inv(r) && s.SendNew? && Can(r, s) && d == Departure(r.t.seqNo + 1, s.lane, s.now)
    ensures d.i in Do(r, s).t.live
    ensures PieceIs(Do(r, s).t.live[d.i], r.sends + [d], Without(r.copied, [d.i]), d.i)
  {
    NeverLeft(r.sends, d.i);
    LeftMore(r.sends, d, d.i);
    OrdinalLast(r.sends, d);
    hide TxOk, Framed, Left, Last, OnLane, Ordinal, MarksAre;
  }

  /** Along the walk the pieces, the lanes and the history stay in step. */
  lemma {:induction false} WalkInStep(r: Sending, n: nat, lane: nat, room: nat, others: bool, now: int, rto: int)
    requires Inv(r) && n <= |r.t.rtxQ| && lane < LANES && |r.t.laneTx| == LANES
    ensures var w := Resend(r.t, n, lane, room, others, now, rto);
      var sends := r.sends + Leave(w.sent, lane, now);
      && w.live.Keys == r.t.live.Keys
      && PiecesAre(w.live, sends, Without(r.copied, w.sent)) && LanesAre(w.laneTx, sends)
      && Numbered(sends, r.t.seqNo) && MarksAre(r.t.laneAck, sends, r.seen)
  {
    hide PieceIs, LanesAre, MarksAre, TxOk;
    if n == 0 {
      assert r.sends + Leave([], lane, now) == r.sends;
      assert Without(r.copied, []) == r.copied;
    } else {
      WalkInStep(r, n - 1, lane, room, others, now, rto);
      var w := Resend(r.t, n - 1, lane, room, others, now, rto);
      var sends := r.sends + Leave(w.sent, lane, now);
      var x := r.t.rtxQ[n - 1];
      if x in w.live && w.live[x].queued {
        LiveIsNumbered(r, x);
        OneInStep(r, w, x, lane, now);
      }
    }
  }

  lemma LiveIsNumbered(r: Sending, x: int)
    requires Inv(r) && x in r.t.live
    ensures x <= r.t.seqNo
  {
  }

  lemma OneInStep(r: Sending, w: Walk, x: int, lane: nat, now: int)
    requires x in w.live && x <= r.t.seqNo && lane < LANES && |w.laneTx| == LANES
    requires var sends := r.sends + Leave(w.sent, lane, now);
      && PiecesAre(w.live, sends, Without(r.copied, w.sent)) && LanesAre(w.laneTx, sends)
      && Numbered(sends, r.t.seqNo) && MarksAre(r.t.laneAck, sends, r.seen)
    ensures var sends := r.sends + Leave(w.sent + [x], lane, now);
      var laneTx := w.laneTx[lane := w.laneTx[lane] + 1];
      && PiecesAre(w.live[x := Again(w.live[x], lane, laneTx[lane], now)], sends, Without(r.copied, w.sent + [x]))
      && LanesAre(laneTx, sends) && Numbered(sends, r.t.seqNo) && MarksAre(r.t.laneAck, sends, r.seen)
  {
    hide *;
    var sends, d := r.sends + Leave(w.sent, lane, now), Departure(x, lane, now);
    var copied := Without(r.copied, w.sent);
    LeaveMore(w.sent, x, lane, now);
    assert r.sends + (Leave(w.sent, lane, now) + [d]) == sends + [d];
    WithoutMore(r.copied, w.sent, x);
    LanesMore(w.laneTx, sends, d);
    MarksStay(r.t.laneAck, sends, r.seen, d);
    NumberedMore(sends, r.t.seqNo, d, r.t.seqNo);
    LaneIs(w.laneTx, sends, lane);
    PieceOf(w.live, sends, copied, x);
    PieceLeaves(w.live[x], sends, copied, d);
    PiecesMore(w.live, sends, copied, d, Again(w.live[x], lane, OnLane(sends, lane) + 1, now));
  }

  lemma WithoutMore(copied: map<int, int>, xs: seq<int>, x: int)
    ensures Without(copied, xs + [x]) == Without(Without(copied, xs), [x])
  {
  }

  lemma LaneIs(laneTx: seq<int>, sends: seq<Departure>, l: nat)
    requires LanesAre(laneTx, sends) && l < LANES
    ensures |laneTx| == LANES && laneTx[l] == OnLane(sends, l)
  {
  }

  lemma PieceOf(live: map<int, TxPiece>, sends: seq<Departure>, copied: map<int, int>, i: int)
    requires PiecesAre(live, sends, copied) && i in live
    ensures PieceIs(live[i], sends, copied, i)
  {
  }

  lemma AgainKeeps(r: Sending, s: Step)
    requires Inv(r) && s.SendAgain? && Can(r, s)
    ensures Inv(Do(r, s))
  {
    ResendKeepsOk(r.t, s.lane, s.room, s.others, s.now, s.rto);
    WalkInStep(r, |r.t.rtxQ|, s.lane, s.room, s.others, s.now, s.rto);
    hide TxOk, Resend, PiecesAre, LanesAre, MarksAre, Numbered, WalkOk, Without, Leave;
  }

  lemma CopiesKeep(r: Sending, s: Step)
    requires Inv(r) && s.SendCopies? && Can(r, s)
    ensures Inv(Do(r, s))
  {
    hide LanesAre, MarksAre, Numbered, Left, Last, Ordinal;
    forall i | i in s.t'.live
      ensures s.t'.live[i].queued == r.t.live[i].queued && PieceOk(s.t'.live[i], r.t.laneTx)
      ensures PieceIs(s.t'.live[i], r.sends, With(r.copied, s.spare, s.now), i)
    {
      assert PieceIs(r.t.live[i], r.sends, r.copied, i);
    }
  }

  lemma LostKeeps(r: Sending, s: Step)
    requires Inv(r) && s.FindLost? && Can(r, s)
    ensures Inv(Do(r, s))
  {
    DetectFacts(r.t, r.t.seqNo + 1, s.now, s.rto);
    hide TxOk, Detect, LanesAre, MarksAre, Numbered, Left, Last, Ordinal;
    var d := Do(r, s).t;
    forall i | i in d.live ensures PieceIs(d.live[i], r.sends, r.copied, i) {
      assert PieceIs(r.t.live[i], r.sends, r.copied, i);
    }
  }

  /** An arrival is credited exactly if it shows the last departure of its piece. */
  lemma CreditedShows(r: Sending, i: int, now: int, minRTT: int)
    requires Inv(r) && i in r.t.live
    ensures Credited(r.t.live[i], now, minRTT) <==> Shows(r, i, now, minRTT)
    ensures 0 <= Last(r.sends, i) < |r.sends| && r.t.live[i].lane == r.sends[Last(r.sends, i)].lane
    ensures r.t.live[i].laneIdx == Ordinal(r.sends, Last(r.sends, i)) && 0 <= r.t.live[i].lane < LANES
  {
    assert PieceIs(r.t.live[i], r.sends, r.copied, i);
    hide TxOk, LanesAre, MarksAre, Left, Last, Ordinal;
  }

  lemma MarksMore(r: Sending, after: seq<int>, gone: set<int>, now: int, minRTT: int)
    requires Inv(r) && |r.t.laneAck| == LANES && gone <= r.t.live.Keys && LanesCredited(r.t, gone, after, now, minRTT)
    ensures MarksAre(after, r.sends, r.seen + Shown(r, gone, now, minRTT))
  {
    forall i | i in gone
      ensures Credited(r.t.live[i], now, minRTT) <==> Shows(r, i, now, minRTT)
      ensures 0 <= Last(r.sends, i) < |r.sends| && r.t.live[i].lane == r.sends[Last(r.sends, i)].lane
      ensures r.t.live[i].laneIdx == Ordinal(r.sends, Last(r.sends, i)) && 0 <= r.t.live[i].lane < LANES
    {
      CreditedShows(r, i, now, minRTT);
    }
    hide TxOk, PiecesAre, LanesAre, Numbered, Credited, Shows, Ordinal, Last;
    var seen := r.seen + Shown(r, gone, now, minRTT);
    forall k | k in seen
      ensures 0 <= k < |r.sends| && 0 <= r.sends[k].lane < LANES && Ordinal(r.sends, k) <= after[r.sends[k].lane]
    {
      if k !in r.seen {
        var i :| i in gone && Shows(r, i, now, minRTT) && Last(r.sends, i) == k;
        assert r.t.live[i].laneIdx <= after[r.t.live[i].lane];
      }
    }
    forall l | 0 <= l < LANES && after[l] != 0
      ensures exists k :: k in seen && 0 <= k < |r.sends| && r.sends[k].lane == l && Ordinal(r.sends, k) == after[l]
    {
      if after[l] != r.t.laneAck[l] {
        var i :|
          i in gone && Credited(r.t.live[i], now, minRTT) && r.t.live[i].lane == l && r.t.live[i].laneIdx == after[l];
        assert Last(r.sends, i) in seen;
      } else {
        var k :| k in r.seen && 0 <= k < |r.sends| && r.sends[k].lane == l && Ordinal(r.sends, k) == after[l];
        assert k in seen;
      }
    }
  }

  lemma AckKeeps(r: Sending, s: Step)
    requires Inv(r) && s.TakeAck? && Can(r, s)
    ensures Inv(Do(r, s))
  {
    AckedKeepsOk(r.t, s.t', s.a, s.now, s.minRTT);
    MarksMore(r, s.t'.laneAck, Released(r.t, s.a), s.now, s.minRTT);
    hide TxOk, Accepts, LanesCredited, LanesAre, MarksAre, PieceIs, Numbered, Shows, Releases, Last;
  }

  lemma StepKeeps(r: Sending, s: Step)
    requires Inv(r) && Can(r, s)
    ensures Inv(Do(r, s))
  {
    hide *;
    match s {
      case SendNew(_, _, _) => NewKeeps(r, s);
      case SendAgain(_, _, _, _, _) => AgainKeeps(r, s);
      case SendCopies(_, _, _) => CopiesKeep(r, s);
      case TakeAck(_, _, _, _) => AckKeeps(r, s);
      case FindLost(_, _) => LostKeeps(r, s);
    }
  }

  lemma StartHolds(r: Sending)
    requires Start(r)
    ensures Inv(r)
  {
  }

  /** What the sender keeps of each piece and lane is what the history says, in every run: when and where
      a piece last left, as which one on its lane, how often in eight bits, and the last departure on each
      lane that was shown to have come through. */
  lemma {:induction false} RunKeeps(r: Sending, steps: seq<Step>)
    requires Inv(r) && Runs(r, steps)
    ensures Inv(After(r, steps))
    decreases |steps|
  {
    hide Inv, Can, Do;
    if steps != [] {
      StepKeeps(r, steps[0]);
      RunKeeps(Do(r, steps[0]), steps[1..]);
    }
  }

  // ---- when a piece is lost ----

  /** Something that left later on the lane of piece `i` has come through. */
  ghost predicate Overtaken(r: Sending, i: int) {
    exists k :: k in r.seen && Last(r.sends, i) < k < |r.sends| && Last(r.sends, i) >= 0
                && r.sends[k].lane == r.sends[Last(r.sends, i)].lane
  }

  lemma OvertakenIs(r: Sending, i: int)
    requires Inv(r) && i in r.t.live && |r.t.laneAck| == LANES
    ensures 0 <= r.t.live[i].lane < LANES
    ensures Overtaken(r, i) <==> r.t.laneAck[r.t.live[i].lane] > r.t.live[i].laneIdx
  {
    assert PieceIs(r.t.live[i], r.sends, r.copied, i);
    var j := Last(r.sends, i);
    var l := r.sends[j].lane;
    OrdinalPositive(r.sends, j);
    hide TxOk, LanesAre, PiecesAre, Left, Last, Ordinal;
    if Overtaken(r, i) {
      var k :| k in r.seen && j < k < |r.sends| && r.sends[k].lane == l;
      OrdinalOrders(r.sends, j, k);
    }
    if r.t.laneAck[l] > r.t.live[i].laneIdx {
      var k :| k in r.seen && 0 <= k < |r.sends| && r.sends[k].lane == l && Ordinal(r.sends, k) == r.t.laneAck[l];
      OrdinalOrders(r.sends, j, k);
    }
  }

  /** Looking for losses ends the code exactly if some piece neither queued nor overtaken on its lane
      has left a multiple of 256 times, in every state of every run. */
  lemma CrashesExactly(r: Sending, steps: seq<Step>)
    requires Start(r) && Runs(r, steps)
    ensures var e := After(r, steps);
      && Laned(e.t) && (forall i :: i in e.t.live ==> Left(e.sends, i) > 0)
      && (Crashes(e.t) <==>
            exists i :: i in e.t.live && !e.t.live[i].queued && !Overtaken(e, i) && Left(e.sends, i) % 256 == 0)
  {
    StartHolds(r);
    RunKeeps(r, steps);
    hide Start, Runs, After;
    CrashIs(After(r, steps));
  }

  lemma CrashIs(e: Sending)
    requires Inv(e)
    ensures Laned(e.t) && forall i :: i in e.t.live ==> Left(e.sends, i) > 0
    ensures Crashes(e.t) <==>
      exists i :: i in e.t.live && !e.t.live[i].queued && !Overtaken(e, i) && Left(e.sends, i) % 256 == 0
  {
    OkLaned(e.t);
    forall i | i in e.t.live
      ensures Left(e.sends, i) > 0 && e.t.live[i].tries == Left(e.sends, i) % 256 && 0 <= e.t.live[i].lane < LANES
      ensures Overtaken(e, i) <==> e.t.laneAck[e.t.live[i].lane] > e.t.live[i].laneIdx
    {
      assert PieceIs(e.t.live[i], e.sends, e.copied, i);
      OvertakenIs(e, i);
    }
    hide Inv, Overtaken, Left;
  }

  /** A look at time `now` with timeout `rto`, in any state of any run: a piece not yet queued is queued
      exactly if it was overtaken on its lane, or its last departure is one timeout ago, two if it had
      left before. (A count that has come round to one again means one timeout again.) */
  lemma LookQueuesExactly(r: Sending, steps: seq<Step>, now: int, rto: int, i: int)
    requires Start(r) && Runs(r, steps) && Can(After(r, steps), FindLost(now, rto)) && i in After(r, steps).t.live
    ensures var e := After(r, steps);
      var u, k := Do(e, FindLost(now, rto)).t, Last(e.sends, i);
      && i in u.live && k >= 0 && (u.live[i].queued <==> i in u.rtxQ)
      && (u.live[i].queued <==>
            || e.t.live[i].queued || Overtaken(e, i)
            || now >= e.sends[k].at + if Left(e.sends, i) % 256 == 1 then rto else 2 * rto)
  {
    StartHolds(r);
    RunKeeps(r, steps);
    hide Start, Runs, After;
    LookIs(After(r, steps), now, rto, i);
  }

  lemma LookIs(e: Sending, now: int, rto: int, i: int)
    requires Inv(e) && Can(e, FindLost(now, rto)) && i in e.t.live
    ensures var u, k := Do(e, FindLost(now, rto)).t, Last(e.sends, i);
      && i in u.live && k >= 0 && (u.live[i].queued <==> i in u.rtxQ)
      && (u.live[i].queued <==>
            || e.t.live[i].queued || Overtaken(e, i)
            || now >= e.sends[k].at + if Left(e.sends, i) % 256 == 1 then rto else 2 * rto)
  {
    DetectFacts(e.t, e.t.seqNo + 1, now, rto);
    OvertakenIs(e, i);
    assert PieceIs(e.t.live[i], e.sends, e.copied, i);
    NoCrash(e, i);
    QueuedAreListed(Detect(e.t, e.t.seqNo + 1, now, rto), i);
    hide TxOk, PiecesAre, Numbered, LanesAre, MarksAre, Overtaken, Detect, Crashes, Left, Last, Ordinal;
    assert i <= e.t.seqNo by { LiveIsNumbered(e, i); }
  }

  lemma NoCrash(e: Sending, i: int)
    requires Inv(e) && Laned(e.t) && !Crashes(e.t) && i in e.t.live
    ensures !Unshiftable(e.t.live[i], e.t.laneAck)
  {
  }

  lemma QueuedAreListed(t: Tx, i: int)
    requires TxOk(t) && i in t.live
    ensures t.live[i].queued <==> i in t.rtxQ
  {
  }

  /** The first time a piece waits one timeout, resent it waits two, and overtaken it does not wait. */
  lemma LossBorders(r: Sending, steps: seq<Step>, now: int, rto: int, i: int)
    requires Start(r) && Runs(r, steps) && Can(After(r, steps), FindLost(now, rto)) && i in After(r, steps).t.live
    requires !After(r, steps).t.live[i].queued
    ensures var e := After(r, steps);
      var queued, k := i in Do(e, FindLost(now, rto)).t.rtxQ, Last(e.sends, i);
      && k >= 0
      && (Overtaken(e, i) ==> queued)
      && (!Overtaken(e, i) && Left(e.sends, i) == 1 ==> (queued <==> now >= e.sends[k].at + rto))
      && (!Overtaken(e, i) && 1 < Left(e.sends, i) < 256 ==> (queued <==> now >= e.sends[k].at + 2 * rto))
  {
    hide *;
    LookQueuesExactly(r, steps, now, rto, i);
  }

  /** What an ack feeds the round-trip estimate is the time since a released piece left, which had left
      no more than once and of which no spare copy can have come through (a count that has come round
      to one looks the same). */
  lemma SampleIsARoundTrip(r: Sending, steps: seq<Step>, gone: set<int>, now: int, minRTT: int, sample: int)
    requires Start(r) && Runs(r, steps) && gone <= After(r, steps).t.live.Keys
    requires sample != 0 && Sampled(After(r, steps).t, gone, now, minRTT, 0, sample)
    ensures var e := After(r, steps);
      exists i ::
        && i in gone && Last(e.sends, i) >= 0 && sample == now - e.sends[Last(e.sends, i)].at
        && Left(e.sends, i) % 256 == 1 && (i in e.copied ==> now - e.copied[i] < minRTT * 7 / 8)
  {
    StartHolds(r);
    RunKeeps(r, steps);
    hide Start, Runs, After;
    SampleIs(After(r, steps), gone, now, minRTT, sample);
  }

  lemma SampleIs(e: Sending, gone: set<int>, now: int, minRTT: int, sample: int)
    requires Inv(e) && gone <= e.t.live.Keys && sample != 0 && Sampled(e.t, gone, now, minRTT, 0, sample)
    ensures exists i ::
      && i in gone && Last(e.sends, i) >= 0 && sample == now - e.sends[Last(e.sends, i)].at
      && Left(e.sends, i) % 256 == 1 && (i in e.copied ==> now - e.copied[i] < minRTT * 7 / 8)
  {
    hide TxOk, Numbered, LanesAre, MarksAre, Left, Last, Ordinal;
    var i :| i in gone && Telling(e.t.live[i], now, minRTT) && sample == now - e.t.live[i].at;
    assert PieceIs(e.t.live[i], e.sends, e.copied, i);
  }

}
