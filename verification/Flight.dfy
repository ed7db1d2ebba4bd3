/** The sending half of the striped link: pieces in flight, the retransmission queue, and what an
    ack or a timeout does to them. `Tx` is the reference, over unbounded indices. */
module Flight {
  import opened Seq32
  import opened BigEndian
  import opened AckWire
  import opened Acks

  const LANES: int := 64
  const STRIPE_MAGIC: byte := 0xA7

  /** A piece in flight. `queued` means it waits in the retransmission queue; `laneIdx` is the
      number of its last transmission on `lane`. */
  datatype TxPiece = TxPiece(buf: Bytes, queued: bool, dups: int, dupAt: int, lane: int, laneIdx: int, at: int,
    tries: int)

  /** `seqNo` is the last index handed out, `low` the lowest not yet acked. */
  datatype Tx = Tx(seqNo: int, low: int, live: map<int, TxPiece>, rtxQ: seq<int>, laneTx: seq<int>, laneAck: seq<int>)

  ghost predicate TxOk(t: Tx) {
    && |t.laneTx| == LANES && |t.laneAck| == LANES
    && t.low <= t.seqNo + 1 <= t.low + RING
    && (forall i :: i in t.live ==> t.low <= i <= t.seqNo && PieceOk(t.live[i], t.laneTx))
    && (forall i :: i in t.live ==> (t.live[i].queued <==> i in t.rtxQ))
    && LiveOnce(t.rtxQ, t.live)
    && (forall k :: 0 <= k < |t.rtxQ| ==> t.seqNo - (TWO32 - RING) < t.rtxQ[k] <= t.seqNo)
  }

  /** No piece in flight is listed twice. */
  ghost predicate LiveOnce(q: seq<int>, live: map<int, TxPiece>) {
    forall a, b :: 0 <= a < b < |q| && q[a] in live ==> q[a] != q[b]
  }

  predicate PieceOk(p: TxPiece, laneTx: seq<int>)
    requires |laneTx| == LANES
  {
    0 <= p.lane < LANES && p.laneIdx <= laneTx[p.lane] && 0 <= p.tries <= 255
  }

  /** The wire form of a piece: magic, its number, the sender's low mark when it was cut. */
  function Framed(i: int, low: int, p: Bytes): Bytes {
    Widths();
    [STRIPE_MAGIC] + Put(Wrap(i), 4) + Put(Wrap(low), 4) + p
  }

  /** The receiver reads back the number, the low mark and the piece. */
  lemma FramedReads(i: int, low: int, p: Bytes)
    ensures var b := Framed(i, low, p);
      && |b| == 9 + |p| && b[0] == STRIPE_MAGIC
      && Get32(b[1..5]) == Wrap(i) && Get32(b[5..9]) == Wrap(low) && b[9..] == p
  {
    Widths();
    var b := Framed(i, low, p);
    assert b[1..5] == Put(Wrap(i), 4) && b[5..9] == Put(Wrap(low), 4);
    GetPut(Wrap(i), 4);
    GetPut(Wrap(low), 4);
  }

  // ---- sending ----

  function Sent(t: Tx, buf: Bytes, lane: int, now: int): Tx
    requires |t.laneTx| == LANES && 0 <= lane < LANES
  {
    var tx := t.laneTx[lane := t.laneTx[lane] + 1];
    t.(seqNo := t.seqNo + 1, laneTx := tx,
       live := t.live[t.seqNo + 1 := TxPiece(buf, false, 0, 0, lane, tx[lane], now, 1)])
  }

  lemma SentKeepsOk(t: Tx, buf: Bytes, lane: int, now: int)
    requires TxOk(t) && 0 <= lane < LANES && t.seqNo + 1 - t.low < RING
    requires forall k :: 0 <= k < |t.rtxQ| ==> t.seqNo + 1 - (TWO32 - RING) < t.rtxQ[k]
    ensures TxOk(Sent(t, buf, lane, now))
  {
    assert t.seqNo + 1 !in t.rtxQ;
  }

  /** The progress of one walk over the retransmission queue. */
  datatype Walk = Walk(live: map<int, TxPiece>, laneTx: seq<int>, kept: seq<int>, sent: seq<int>)

  /** A piece that goes out again on `lane`. */
  function Again(p: TxPiece, lane: int, laneIdx: int, now: int): TxPiece {
    p.(queued := false, tries := (p.tries + 1) % 256, dups := 0, lane := lane, laneIdx := laneIdx, at := now)
  }

  /** The first `n` entries of the queue: stale ones are dropped, a piece is kept back while there
      is no room or, for a while, on the lane that lost it; the rest go out again. */
  function Resend(t: Tx, n: nat, lane: int, room: int, others: bool, now: int, rto: int): (w: Walk)
    requires n <= |t.rtxQ| && |t.laneTx| == LANES && 0 <= lane < LANES
    ensures |w.laneTx| == LANES
  {
    if n == 0 then Walk(t.live, t.laneTx, [], [])
    else
      var w := Resend(t, n - 1, lane, room, others, now, rto);
      var x := t.rtxQ[n - 1];
      if x !in w.live || !w.live[x].queued then w
      else
        var p := w.live[x];
        if |w.sent| >= room || (others && p.lane == lane && now - p.at < 2 * rto) then w.(kept := w.kept + [x])
        else
          var tx := w.laneTx[lane := w.laneTx[lane] + 1];
          Walk(w.live[x := Again(p, lane, tx[lane], now)], tx, w.kept, w.sent + [x])
  }

  function AfterResend(t: Tx, w: Walk): Tx {
    t.(live := w.live, laneTx := w.laneTx, rtxQ := w.kept)
  }

  /** A walk drops no piece and changes no bytes; what it sends was waiting, and every piece
      still waiting is kept in the queue, once. */
  ghost predicate WalkOk(t: Tx, w: Walk, n: nat, lane: int, room: int, now: int)
    requires n <= |t.rtxQ| && 0 <= lane < LANES
  {
    && w.live.Keys == t.live.Keys && |w.laneTx| == |t.laneTx| == LANES
    && |w.sent| <= room
    && (forall i :: i in w.sent ==> i in t.live && t.live[i].queued && i in t.rtxQ[..n])
    && (forall i :: i in w.kept ==> i in t.live && t.live[i].queued && i in t.rtxQ[..n] && i !in w.sent)
    && (forall i :: i in t.rtxQ[..n] && i in t.live && t.live[i].queued ==> i in w.kept || i in w.sent)
    && LiveOnce(w.kept, t.live)
    && (forall i :: i in t.live && i !in w.sent ==> w.live[i] == t.live[i])
    && (forall i :: i in w.sent ==> exists k :: w.live[i] == Again(t.live[i], lane, k, now) && k <= w.laneTx[lane])
    && (forall l :: 0 <= l < LANES ==> t.laneTx[l] <= w.laneTx[l])
  }

  lemma {:induction false} ResendFacts(t: Tx, n: nat, lane: int, room: int, others: bool, now: int, rto: int)
    requires TxOk(t) && n <= |t.rtxQ| && 0 <= lane < LANES && room >= 0
    ensures WalkOk(t, Resend(t, n, lane, room, others, now, rto), n, lane, room, now)
  {
    hide *;
    OnLanes(t);
    if n == 0 {
      WalkStart(t, lane, room, others, now, rto);
    } else {
      ResendFacts(t, n - 1, lane, room, others, now, rto);
      WalkOn(t, Resend(t, n - 1, lane, room, others, now, rto), n, lane, room, now);
      ResendNext(t, n, lane, room, others, now, rto);
    }
  }

  lemma OnLanes(t: Tx)
    requires TxOk(t)
    ensures |t.laneTx| == LANES
  {
  }

  lemma WalkStart(t: Tx, lane: int, room: int, others: bool, now: int, rto: int)
    requires TxOk(t) && 0 <= lane < LANES && room >= 0
    ensures WalkOk(t, Resend(t, 0, lane, room, others, now, rto), 0, lane, room, now)
  {
  }

  lemma ResendNext(t: Tx, n: nat, lane: int, room: int, others: bool, now: int, rto: int)
    requires |t.laneTx| == LANES && 0 < n <= |t.rtxQ| && 0 <= lane < LANES
    ensures var x, w := t.rtxQ[n - 1], Resend(t, n - 1, lane, room, others, now, rto);
      Resend(t, n, lane, room, others, now, rto) ==
        if x !in w.live || !w.live[x].queued then w
        else if |w.sent| >= room || (others && w.live[x].lane == lane && now - w.live[x].at < 2 * rto) then
          w.(kept := w.kept + [x])
        else
          var tx := w.laneTx[lane := w.laneTx[lane] + 1];
          Walk(w.live[x := Again(w.live[x], lane, tx[lane], now)], tx, w.kept, w.sent + [x])
  {
  }

  /** Whatever the walk does at the next entry, what it keeps to holds on. */
  lemma WalkOn(t: Tx, w: Walk, n: nat, lane: int, room: int, now: int)
    requires TxOk(t) && 0 < n <= |t.rtxQ| && 0 <= lane < LANES && WalkOk(t, w, n - 1, lane, room, now)
    ensures |w.laneTx| == LANES
    ensures var x := t.rtxQ[n - 1];
      && (x in w.live <==> x in t.live)
      && (x in t.live ==> w.live[x] == t.live[x] && x !in w.sent)
      && if x !in t.live || !t.live[x].queued then WalkOk(t, w, n, lane, room, now)
         else
           var tx := w.laneTx[lane := w.laneTx[lane] + 1];
           && WalkOk(t, w.(kept := w.kept + [x]), n, lane, room, now)
           && (|w.sent| < room ==>
                 WalkOk(t, Walk(w.live[x := Again(w.live[x], lane, tx[lane], now)], tx, w.kept, w.sent + [x]),
                        n, lane, room, now))
  {
    hide *;
    var x := t.rtxQ[n - 1];
    assert t.rtxQ[..n] == t.rtxQ[..n - 1] + [x];
    SameKeys(t, w, n - 1, lane, room, now);
    if x in t.live {
      OnlyOnce(t, n);
      NotYetSent(t, w, n - 1, lane, room, now, x);
    }
    if x in t.live && t.live[x].queued {
      WalkKeep(t, w, n, lane, room, now);
      if |w.sent| < room { WalkSend(t, w, n, lane, room, now); }
    } else {
      WalkSkip(t, w, n, lane, room, now);
    }
  }

  lemma OnlyOnce(t: Tx, n: nat)
    requires TxOk(t) && 0 < n <= |t.rtxQ| && t.rtxQ[n - 1] in t.live
    ensures t.rtxQ[n - 1] !in t.rtxQ[..n - 1]
  {
  }

  lemma WalkSkip(t: Tx, w: Walk, n: nat, lane: int, room: int, now: int)
    requires 0 < n <= |t.rtxQ| && 0 <= lane < LANES && WalkOk(t, w, n - 1, lane, room, now)
    requires t.rtxQ[..n] == t.rtxQ[..n - 1] + [t.rtxQ[n - 1]]
    requires var x := t.rtxQ[n - 1]; x in t.live ==> !w.live[x].queued
    ensures WalkOk(t, w, n, lane, room, now)
  {
    var x := t.rtxQ[n - 1];
    if x in t.live && t.live[x].queued {
      assert x in w.sent;
    }
  }

  lemma WalkKeep(t: Tx, w: Walk, n: nat, lane: int, room: int, now: int)
    requires 0 < n <= |t.rtxQ| && 0 <= lane < LANES && WalkOk(t, w, n - 1, lane, room, now)
    requires t.rtxQ[..n] == t.rtxQ[..n - 1] + [t.rtxQ[n - 1]]
    requires var x := t.rtxQ[n - 1]; x in t.live && t.live[x].queued && x !in t.rtxQ[..n - 1]
    ensures WalkOk(t, w.(kept := w.kept + [t.rtxQ[n - 1]]), n, lane, room, now)
  {
  }

  lemma WalkSend(t: Tx, w: Walk, n: nat, lane: int, room: int, now: int)
    requires 0 < n <= |t.rtxQ| && 0 <= lane < LANES && WalkOk(t, w, n - 1, lane, room, now) && |w.sent| < room
    requires t.rtxQ[..n] == t.rtxQ[..n - 1] + [t.rtxQ[n - 1]]
    requires var x := t.rtxQ[n - 1]; x in t.live && t.live[x].queued && x !in t.rtxQ[..n - 1]
    ensures var x := t.rtxQ[n - 1];
      var tx := w.laneTx[lane := w.laneTx[lane] + 1];
      WalkOk(t, Walk(w.live[x := Again(w.live[x], lane, tx[lane], now)], tx, w.kept, w.sent + [x]), n, lane, room, now)
  {
    var x := t.rtxQ[n - 1];
    assert x !in w.sent && x !in w.kept;
    var tx := w.laneTx[lane := w.laneTx[lane] + 1];
    var w' := Walk(w.live[x := Again(w.live[x], lane, tx[lane], now)], tx, w.kept, w.sent + [x]);
    forall i | i in w'.sent
      ensures exists k :: w'.live[i] == Again(t.live[i], lane, k, now) && k <= tx[lane]
    {
      if i == x {
        assert w'.live[x] == Again(t.live[x], lane, tx[lane], now);
      } else {
        var k :| w.live[i] == Again(t.live[i], lane, k, now) && k <= w.laneTx[lane];
        assert w'.live[i] == Again(t.live[i], lane, k, now);
      }
    }
  }

  function FirstOf(xs: seq<int>, n: nat): seq<int> { if |xs| <= n then xs else xs[..n] }

  /** Of the first `n` in the queue, the pieces in flight that wait, in order. */
  function Waiting(t: Tx, n: nat): seq<int>
    requires n <= |t.rtxQ|
  {
    if n == 0 then []
    else
      var x := t.rtxQ[n - 1];
      Waiting(t, n - 1) + if x in t.live && t.live[x].queued then [x] else []
  }

  /** Those of them that may leave on a lane at once: while others work, the lane that a piece left on less
      than two timeouts ago has to wait. */
  function Ready(t: Tx, n: nat, lane: int, others: bool, now: int, rto: int): seq<int>
    requires n <= |t.rtxQ|
  {
    if n == 0 then []
    else
      var x := t.rtxQ[n - 1];
      Ready(t, n - 1, lane, others, now, rto) +
      if x in t.live && t.live[x].queued && !(others && t.live[x].lane == lane && now < t.live[x].at + 2 * rto)
      then [x] else []
  }

  /** The pieces of `xs` that are not in `ys`. */
  function Rest(xs: seq<int>, ys: seq<int>): seq<int> {
    if xs == [] then [] else Rest(xs[..|xs| - 1], ys) + if xs[|xs| - 1] in ys then [] else [xs[|xs| - 1]]
  }

  lemma RestMore(xs: seq<int>, x: int, ys: seq<int>)
    ensures Rest(xs + [x], ys) == Rest(xs, ys) + if x in ys then [] else [x]
  {
    assert (xs + [x])[..|xs|] == xs;
  }

  lemma {:induction false} RestSame(xs: seq<int>, ys: seq<int>, zs: seq<int>)
    requires forall x :: x in xs ==> (x in ys <==> x in zs)
    ensures Rest(xs, ys) == Rest(xs, zs)
  {
    if xs != [] {
      var before, x := xs[..|xs| - 1], xs[|xs| - 1];
      assert before + [x] == xs && x in xs;
      RestMore(before, x, ys);
      RestMore(before, x, zs);
      RestSame(before, ys, zs);
    }
  }

  lemma {:induction false} WaitingAre(t: Tx, n: nat)
    requires n <= |t.rtxQ|
    ensures forall x :: x in Waiting(t, n) ==> x in t.rtxQ[..n] && x in t.live
  {
    if n > 0 {
      WaitingAre(t, n - 1);
      assert t.rtxQ[..n] == t.rtxQ[..n - 1] + [t.rtxQ[n - 1]];
    }
  }

  /** The walk sends the first pieces that may leave, as many as there is room for, in queue order; of the
      pieces that wait it keeps the others, in order. */
  lemma {:induction false} ResendExactly(t: Tx, n: nat, lane: int, room: nat, others: bool, now: int, rto: int)
    requires TxOk(t) && n <= |t.rtxQ| && 0 <= lane < LANES
    ensures var w := Resend(t, n, lane, room, others, now, rto);
      w.sent == FirstOf(Ready(t, n, lane, others, now, rto), room) && w.kept == Rest(Waiting(t, n), w.sent)
  {
    hide *;
    OnLanes(t);
    NoWalk(t, lane, room, others, now, rto);
    if n > 0 {
      var x, w := t.rtxQ[n - 1], Resend(t, n - 1, lane, room, others, now, rto);
      ResendExactly(t, n - 1, lane, room, others, now, rto);
      WalkNext(t, n, lane, room, others, now, rto);
      WaitingNext(t, n);
      ReadyNext(t, n, lane, others, now, rto);
      RestMore(Waiting(t, n - 1), x, w.sent);
      RestMore(Waiting(t, n - 1), x, w.sent + [x]);
      FirstMore(Ready(t, n - 1, lane, others, now, rto), x, room);
      if x in t.live { RestSame(Waiting(t, n - 1), w.sent, w.sent + [x]); }
    }
  }

  lemma NoWalk(t: Tx, lane: int, room: nat, others: bool, now: int, rto: int)
    requires |t.laneTx| == LANES && 0 <= lane < LANES
    ensures var w := Resend(t, 0, lane, room, others, now, rto);
      w.sent == FirstOf(Ready(t, 0, lane, others, now, rto), room) && w.kept == Rest(Waiting(t, 0), w.sent)
  {
  }

  lemma FirstMore(xs: seq<int>, x: int, n: nat)
    ensures FirstOf(xs + [x], n) == if |FirstOf(xs, n)| >= n then FirstOf(xs, n) else FirstOf(xs, n) + [x]
  {
  }

  lemma ReadyNext(t: Tx, n: nat, lane: int, others: bool, now: int, rto: int)
    requires 0 < n <= |t.rtxQ|
    ensures var x, xs := t.rtxQ[n - 1], Ready(t, n - 1, lane, others, now, rto);
      Ready(t, n, lane, others, now, rto) ==
        if x in t.live && t.live[x].queued && !(others && t.live[x].lane == lane && now < t.live[x].at + 2 * rto)
        then xs + [x] else xs
  {
  }

  /** One entry of the queue. */
  lemma WalkNext(t: Tx, n: nat, lane: int, room: nat, others: bool, now: int, rto: int)
    requires TxOk(t) && 0 < n <= |t.rtxQ| && 0 <= lane < LANES
    ensures |t.laneTx| == LANES
    ensures var x, w := t.rtxQ[n - 1], Resend(t, n - 1, lane, room, others, now, rto);
      var w' := Resend(t, n, lane, room, others, now, rto);
      && (x in t.live ==> x !in Waiting(t, n - 1) && x !in w.sent)
      && if !(x in t.live && t.live[x].queued) then w'.sent == w.sent && w'.kept == w.kept
         else if |w.sent| >= room || (others && t.live[x].lane == lane && now < t.live[x].at + 2 * rto)
         then w'.sent == w.sent && w'.kept == w.kept + [x]
         else w'.sent == w.sent + [x] && w'.kept == w.kept
  {
    hide *;
    OnLanes(t);
    ResendFacts(t, n - 1, lane, room, others, now, rto);
    WalkOn(t, Resend(t, n - 1, lane, room, others, now, rto), n, lane, room, now);
    ResendNext(t, n, lane, room, others, now, rto);
    WaitingAre(t, n - 1);
    if t.rtxQ[n - 1] in t.live { OnlyOnce(t, n); }
  }

  lemma SameKeys(t: Tx, w: Walk, n: nat, lane: int, room: int, now: int)
    requires n <= |t.rtxQ| && 0 <= lane < LANES && WalkOk(t, w, n, lane, room, now)
    ensures w.live.Keys == t.live.Keys && |w.laneTx| == LANES
  {
  }

  lemma NotYetSent(t: Tx, w: Walk, n: nat, lane: int, room: int, now: int, x: int)
    requires n <= |t.rtxQ| && 0 <= lane < LANES && WalkOk(t, w, n, lane, room, now) && x !in t.rtxQ[..n]
    ensures x !in w.sent && (x in w.live <==> x in t.live) && (x in t.live ==> w.live[x] == t.live[x])
  {
  }

  lemma WaitingNext(t: Tx, n: nat)
    requires 0 < n <= |t.rtxQ|
    ensures var x := t.rtxQ[n - 1];
      Waiting(t, n) == if x in t.live && t.live[x].queued then Waiting(t, n - 1) + [x] else Waiting(t, n - 1)
  {
  }

  /** After the walk the books still balance. */
  lemma ResendKeepsOk(t: Tx, lane: int, room: int, others: bool, now: int, rto: int)
    requires TxOk(t) && 0 <= lane < LANES && room >= 0
    ensures var w := Resend(t, |t.rtxQ|, lane, room, others, now, rto);
      TxOk(AfterResend(t, w)) && WalkOk(t, w, |t.rtxQ|, lane, room, now)
  {
    ResendFacts(t, |t.rtxQ|, lane, room, others, now, rto);
    var w := Resend(t, |t.rtxQ|, lane, room, others, now, rto);
    assert t.rtxQ[..|t.rtxQ|] == t.rtxQ;
    forall i | i in w.sent
      ensures !w.live[i].queued && PieceOk(w.live[i], w.laneTx)
    {
      var k :| w.live[i] == Again(t.live[i], lane, k, now) && k <= w.laneTx[lane];
    }
    forall k | 0 <= k < |w.kept| ensures t.seqNo - (TWO32 - RING) < w.kept[k] <= t.seqNo {
      assert w.kept[k] in w.kept;
    }
  }

  // ---- acks ----

  function Max(a: int, b: int): int { if a < b then b else a }

  /** Only an ack about the pieces of this run counts. */
  predicate Accepts(t: Tx, a: Ack) {
    var inflight := t.seqNo + 1 - t.low;
    && -RING <= Diff(a.cum, Wrap(t.low)) <= inflight
    && -RING - 1 <= Diff(a.hi, Wrap(t.low)) < inflight
  }

  function EndOfStretch(a: Ack, r: nat, x: int): int
    requires r <= |a.runs|
  {
    Ahead(x, if r < |a.runs| then a.runs[r].start else Succ(a.hi))
  }

  function AfterRun(a: Ack, r: nat, x: int): int
    requires r < |a.runs|
  {
    Ahead(EndOfStretch(a, r, x), Plus(a.runs[r].start, a.runs[r].count))
  }

  /** The walk over the runs, at `x` before run `r`, releases index `j`. */
  predicate Takes(a: Ack, r: nat, x: int, j: int)
    requires r <= |a.runs|
    decreases |a.runs| - r
  {
    !SeqBefore(a.hi, Wrap(x)) &&
    ((Wrap(j) - Wrap(x)) % TWO32 < EndOfStretch(a, r, x) - x
     || (r < |a.runs| && Takes(a, r + 1, AfterRun(a, r, x), j)))
  }

  function NewLow(t: Tx, a: Ack): int { Ahead(t.low, a.cum) }

  /** What an accepted ack releases, for any bytes whatever. */
  predicate Releases(t: Tx, a: Ack, j: int) {
    t.low <= j < NewLow(t, a) || Takes(a, 0, NewLow(t, a), j)
  }

  function Released(t: Tx, a: Ack): set<int> {
    set j | j in t.live && Releases(t, a, j)
  }

  /** The arrival says something about the lane the piece last left on. */
  predicate Credited(p: TxPiece, now: int, minRTT: int) {
    Original(p, now, minRTT) && (p.tries == 1 || now - p.at >= minRTT * 7 / 8)
  }

  /** It came in before a spare copy could have. */
  predicate Original(p: TxPiece, now: int, minRTT: int) {
    p.dups == 0 || now - p.dupAt < minRTT * 7 / 8
  }

  /** It tells the round trip: there is no doubt which copy came in. */
  predicate Telling(p: TxPiece, now: int, minRTT: int) {
    p.tries == 1 && Original(p, now, minRTT)
  }

  /** `laneAck` rises to the highest transmission credited, lane by lane, and no further. */
  ghost predicate LanesCredited(t: Tx, gone: set<int>, after: seq<int>, now: int, minRTT: int)
    requires |t.laneAck| == LANES && forall i :: i in gone ==> i in t.live
  {
    && |after| == LANES
    && (forall l :: 0 <= l < LANES ==> t.laneAck[l] <= after[l])
    && (forall i :: i in gone && Credited(t.live[i], now, minRTT) && 0 <= t.live[i].lane < LANES ==>
          t.live[i].laneIdx <= after[t.live[i].lane])
    && (forall l :: 0 <= l < LANES && after[l] != t.laneAck[l] ==>
          exists i ::
            i in gone && Credited(t.live[i], now, minRTT) && t.live[i].lane == l && t.live[i].laneIdx == after[l])
  }

  /** What a sample became while the pieces in `gone` were acked: the round trip of one that tells it,
      the shortest of all unless one of them took no time at all. */
  ghost predicate Sampled(t: Tx, gone: set<int>, now: int, minRTT: int, before: int, after: int)
    requires forall i :: i in gone ==> i in t.live
  {
    && (after == before || exists i :: i in gone && Telling(t.live[i], now, minRTT) && after == now - t.live[i].at)
    && ((forall i :: i in gone && Telling(t.live[i], now, minRTT) ==> now - t.live[i].at != 0) ==>
          && (before != 0 ==> after != 0 && after <= before)
          && (forall i :: i in gone && Telling(t.live[i], now, minRTT) ==> after != 0 && after <= now - t.live[i].at))
  }

  /** The state after the pieces in `gone` were acked. */
  ghost predicate Acked(t: Tx, t': Tx, gone: set<int>, low: int, now: int, minRTT: int)
    requires |t.laneAck| == LANES
  {
    && t'.seqNo == t.seqNo && t'.low == low && t'.rtxQ == t.rtxQ && t'.laneTx == t.laneTx
    && gone <= t.live.Keys && t'.live == t.live - gone
    && LanesCredited(t, gone, t'.laneAck, now, minRTT)
  }

  lemma AckedKeepsOk(t: Tx, t': Tx, a: Ack, now: int, minRTT: int)
    requires TxOk(t) && Accepts(t, a) && Acked(t, t', Released(t, a), NewLow(t, a), now, minRTT)
    ensures TxOk(t') && t.low <= t'.low
  {
    NewLowIs(t, a);
  }

  lemma NewLowIs(t: Tx, a: Ack)
    requires TxOk(t) && Accepts(t, a)
    ensures t.low <= NewLow(t, a) <= t.seqNo + 1
  {
    NearIsNear(t.low, a.cum);
    AheadIs(t.low, Near(t.low, a.cum));
  }

  /** One turn of the walk, at `x` before run `r`: the stretch up to the run, then what lies behind it. */
  lemma TakesTurn(w: IdxAck, r: nat, x: int, j: int)
    requires WellFormed(w) && Short(w.runs) && r <= |w.runs| && w.cum - 1 <= x <= w.hi
    requires w.cum - 2 * RING <= j < w.cum + HALF32 - 4 * RING
    ensures r < |w.runs| ==>
      var g := w.runs[r];
      Takes(ToWire(w), r, x, j) <==> x <= j < g.start || Takes(ToWire(w), r + 1, Max(Max(x, g.start), g.end), j)
    ensures r == |w.runs| ==> (Takes(ToWire(w), r, x, j) <==> x <= j <= w.hi)
  {
    hide Wrap, Ahead, Diff, Succ, Plus, SeqBefore, InRuns;
    var a := ToWire(w);
    DiffIsDistance(w.hi, x);
    SuccPred(w.hi);
    AheadIs(x, w.hi + 1);
    if j >= x { UnsignedDistance(j, x); } else { WrapBehind(j, x); }
    if r < |w.runs| {
      var g := w.runs[r];
      AheadIs(x, g.start);
      var e := Max(x, g.start);
      assert EndOfStretch(a, r, x) == e;
      WrapAdd(g.start, g.end - g.start);
      AheadIs(e, g.end);
      assert AfterRun(a, r, x) == Max(e, g.end);
    }
  }

  lemma TakesPast(w: IdxAck, r: nat, x: int, j: int)
    requires WellFormed(w) && Short(w.runs) && r <= |w.runs| && w.hi < x < w.cum + HALF32 - 4 * RING
    ensures !Takes(ToWire(w), r, x, j)
  {
    hide Wrap, Ahead, Diff, SeqBefore;
    DiffIsDistance(w.hi, x);
  }

  lemma {:induction false} TakesMeans(w: IdxAck, r: nat, x: int, j: int)
    requires WellFormed(w) && r <= |w.runs| && w.cum - 1 <= x < w.cum + HALF32 - 4 * RING
    requires r > 0 ==> w.runs[r - 1].end <= x
    requires w.cum - 2 * RING <= j < w.cum + HALF32 - 4 * RING
    ensures Short(w.runs)
    ensures Takes(ToWire(w), r, x, j) <==> x <= j <= w.hi && !InRuns(w.runs[r..], j)
    decreases |w.runs| - r
  {
    hide Takes, InRuns, ToWire;
    if x > w.hi {
      TakesPast(w, r, x, j);
    } else {
      TakesTurn(w, r, x, j);
      if r < |w.runs| {
        var g := w.runs[r];
        TakesMeans(w, r + 1, Max(Max(x, g.start), g.end), j);
        RunsSplit(w.runs, r, j);
        if j < g.end { RunsLater(w, r + 1, j); }
      } else {
        assert w.runs[r..] == [];
        NoRuns(j);
      }
    }
  }

  lemma NoRuns(j: int)
    ensures !InRuns([], j)
  {
  }

  /** Runs from `r` on begin past the end of the one before. */
  lemma RunsLater(w: IdxAck, r: nat, j: int)
    requires WellFormed(w) && 0 < r <= |w.runs| && j < w.runs[r - 1].end
    ensures !InRuns(w.runs[r..], j)
  {
  }

  lemma WrapBehind(j: int, x: int)
    requires 0 < x - j < HALF32
    ensures (Wrap(j) - Wrap(x)) % TWO32 > HALF32
  {
  }

  lemma RunsSplit(runs: seq<Gap>, r: nat, j: int)
    requires r < |runs|
    ensures InRuns(runs[r..], j) <==> runs[r].start <= j < runs[r].end || InRuns(runs[r + 1..], j)
  {
    var rest := runs[r..];
    assert rest[0] == runs[r] && rest[1..] == runs[r + 1..];
    if InRuns(rest, j) {
      var k :| 0 <= k < |rest| && rest[k].start <= j < rest[k].end;
      if k > 0 { assert rest[1..][k - 1] == rest[k]; }
    }
    if InRuns(runs[r + 1..], j) {
      var k :| 0 <= k < |runs[r + 1..]| && runs[r + 1..][k].start <= j < runs[r + 1..][k].end;
      assert rest[k + 1] == runs[r + 1..][k];
    }
  }

  /** The sender releases exactly what the ack reports as arrived or given up on. */
  lemma ReleasesWhatIsReported(t: Tx, w: IdxAck, j: int)
    requires TxOk(t) && WellFormed(w) && t.low <= j <= t.seqNo
    requires t.low - HALF32 + 8 * RING < w.cum <= t.seqNo + 1
    ensures Short(w.runs)
    ensures Releases(t, ToWire(w), j) <==> j < w.cum || (j <= w.hi && !InRuns(w.runs, j))
  {
    AheadIs(t.low, w.cum);
    assert w.runs[0..] == w.runs;
    assert Short(w.runs);
    assert NewLow(t, ToWire(w)) == Max(t.low, w.cum);
    TakesMeans(w, 0, Max(t.low, w.cum), j);
  }

  /** In indices, for an ack less than half the number space away: it is applied exactly if its
      cumulative mark and its top are at most a ring behind the pieces in flight and not ahead of them. */
  lemma AcceptsExactly(t: Tx, w: IdxAck)
    requires TxOk(t) && Short(w.runs)
    requires -HALF32 <= w.cum - t.low < HALF32 && -HALF32 <= w.hi - t.low < HALF32
    ensures Accepts(t, ToWire(w)) <==>
      t.low - RING <= w.cum <= t.seqNo + 1 && t.low - RING - 1 <= w.hi <= t.seqNo
  {
    hide Wrap, Diff;
    DiffIsDistance(w.cum, t.low);
    DiffIsDistance(w.hi, t.low);
  }

  // ---- loss ----

  /** Overtaken on its lane, or older than the timeout (doubled once it has been resent). */
  predicate Lost(p: TxPiece, laneAck: seq<int>, now: int, rto: int)
    requires |laneAck| == LANES && 0 <= p.lane < LANES
  {
    laneAck[p.lane] > p.laneIdx || now - p.at >= (if p.tries > 1 then 2 * rto else rto)
  }

  /** The timeout of a piece neither queued nor overtaken is shifted by one less than its count, at most
      by one: with a count of zero the shift is negative, which ends the code. */
  predicate Unshiftable(p: TxPiece, laneAck: seq<int>)
    requires |laneAck| == LANES && 0 <= p.lane < LANES
  {
    !p.queued && laneAck[p.lane] <= p.laneIdx && p.tries == 0
  }

  ghost predicate Crashes(t: Tx)
    requires Laned(t)
  {
    exists i :: i in t.live && Unshiftable(t.live[i], t.laneAck)
  }

  predicate Laned(t: Tx) {
    |t.laneAck| == LANES && forall i :: i in t.live ==> 0 <= t.live[i].lane < LANES
  }

  /** Queue every lost piece below `x`. */
  function Detect(t: Tx, x: int, now: int, rto: int): (d: Tx)
    requires Laned(t) && t.low <= x
    ensures Laned(d) && d.laneAck == t.laneAck
    decreases x - t.low
  {
    if x == t.low then t
    else
      var d := Detect(t, x - 1, now, rto);
      if x - 1 in d.live && !d.live[x - 1].queued && Lost(d.live[x - 1], t.laneAck, now, rto)
      then Queued(d, x - 1)
      else d
  }

  function Queued(d: Tx, x: int): Tx
    requires x in d.live
  {
    d.(live := d.live[x := d.live[x].(queued := true)], rtxQ := d.rtxQ + [x])
  }

  lemma {:induction false} DetectFacts(t: Tx, x: int, now: int, rto: int)
    requires TxOk(t) && Laned(t) && t.low <= x <= t.seqNo + 1
    ensures var d := Detect(t, x, now, rto);
      && TxOk(d) && d.seqNo == t.seqNo && d.low == t.low && d.laneTx == t.laneTx && d.live.Keys == t.live.Keys
      && (forall i :: i in t.live ==>
            d.live[i] == t.live[i].(queued := t.live[i].queued || (i < x && Lost(t.live[i], t.laneAck, now, rto))))
    decreases x - t.low
  {
    hide TxOk;
    if x > t.low {
      DetectFacts(t, x - 1, now, rto);
      var d := Detect(t, x - 1, now, rto);
      if x - 1 in d.live && !d.live[x - 1].queued { QueueKeepsOk(d, x - 1); }
    } else {
      LowIsFirst(t);
    }
  }

  lemma LowIsFirst(t: Tx)
    requires TxOk(t)
    ensures forall i :: i in t.live ==> t.low <= i
  {
  }

  lemma QueueKeepsOk(d: Tx, x: int)
    requires TxOk(d) && x in d.live && !d.live[x].queued
    ensures TxOk(Queued(d, x))
  {
    assert x !in d.rtxQ;
  }

  /** Nothing lost is left waiting: right after detection a piece that is not queued was not
      overtaken on its lane and left less than two timeouts ago. */
  lemma DetectLeavesNoneLost(t: Tx, now: int, rto: int, i: int)
    requires TxOk(t) && Laned(t) && rto > 0
    ensures var d := Detect(t, t.seqNo + 1, now, rto);
      i in d.live && !d.live[i].queued ==>
        d.laneAck[d.live[i].lane] <= d.live[i].laneIdx && now - d.live[i].at < 2 * rto
  {
    DetectFacts(t, t.seqNo + 1, now, rto);
  }
}
