/** One sender and one receiver over lanes that lose, duplicate, delay and reorder what they carry.

    A piece that was cut may arrive at any time, any number of times or never; so may an ack. The
    only limits are those of 32-bit numbers: a copy is not more than a window behind the receiver
    and an ack not nearly half the number space behind the sender. */
module Link {
  import opened Seq32
  import opened AckWire
  import opened Reorder
  import opened Acks
  import opened Flight
  import opened Frames
  import opened FrameQueue
  import opened SenderRing

  /** `enq` are the frames enqueued so far and `fate` tells of those looked at which were kept; `cut`
      are the pieces of up to `p` bytes cut so far, numbered from `base`; `stamps` the low mark each
      one carries. `acks` are the acks sent so far, `start` is where the receiver began, and `expired`
      tells whether the hole timer was ever run. */
  datatype Link = Link(base: int, t: Tx, p: nat, enq: seq<QFrame>, fate: seq<bool>, cut: seq<Bytes>, stamps: seq<int>,
                       rx: Rx, acks: set<IdxAck>, start: int, expired: bool)

  datatype Step =
    | Enqueue(f: QFrame)
    | Pull(t': Tx, head: seq<Bytes>, out: seq<Bytes>, sent: seq<int>, news: seq<Bytes>, spare: seq<int>,
      fate': seq<bool>)
    | Arrive(i: int, at: int)
    | SendAck(a: IdxAck)
    | AckArrives(a: IdxAck, t': Tx, mid: Tx, at: int, minRTT: int, rto: int)
    | Timeout(at: int, rto: int)
    | Expire(at: int, deadline: int)

  predicate Has(r: Rx, x: int) { x < r.next || x in r.buf }

  /** The bytes that carry piece `i`. */
  function WireOf(l: Link, i: int): Bytes
    requires l.base <= i < l.base + |l.cut| && |l.stamps| == |l.cut|
  {
    Framed(i, l.stamps[i - l.base], l.cut[i - l.base])
  }

  /** What a lane hands to the receiver. */
  function OnLane(r: Rx, b: Bytes, now: int): Rx
    requires RxOk(r)
  {
    if |b| > 9 && b[0] == STRIPE_MAGIC then Push(r, Get32(b[1..5]), Get32(b[5..9]), b[9..], now) else r
  }

  /** A pull looked at more frames, if any, and cut the next pieces of those it kept. */
  ghost predicate CutNext(l: Link, news: seq<Bytes>, fate': seq<bool>) {
    && l.fate <= fate' && |fate'| <= |l.enq|
    && forall k :: 0 <= k < |news| ==> IsPiece(Kept(l.enq, fate'), |l.cut| + k, l.p, news[k])
  }

  ghost predicate Start(l: Link) {
    && l.p > 0 && l.enq == [] && l.fate == []
    && TxOk(l.t) && l.t.live == map[] && l.t.low == l.base == l.t.seqNo + 1
    && l.cut == [] && l.stamps == [] && l.acks == {} && !l.expired
    && !l.rx.started && !l.rx.gapNext && RxOk(l.rx) && -(HALF32 - RING) < l.rx.next - l.base < HALF32 - RING
  }

  ghost predicate Can(l: Link, s: Step) {
    match s
    case Enqueue(f) => true
    case Pull(t', head, out, sent, news, spare, fate') =>
      TxOk(t') && Pulled(l.t, t', head, out, sent, news, spare) && CutNext(l, news, fate')
    case Arrive(i, at) =>
      && l.base <= i < l.base + |l.cut| && |l.stamps| == |l.cut| && RxOk(l.rx)
      && (l.rx.started ==> i >= l.rx.next - RING)
    case SendAck(a) => l.rx.started && Reports(l.rx, a)
    case AckArrives(a, t', mid, at, minRTT, rto) =>
      && a in l.acks && Short(a.runs) && a.cum > l.t.low - HALF32 + 8 * RING && |l.t.laneAck| == LANES
      && (if Accepts(l.t, ToWire(a)) then
            && Acked(l.t, mid, Released(l.t, ToWire(a)), NewLow(l.t, ToWire(a)), at, minRTT)
            && TxOk(mid) && Laned(mid) && !Crashes(mid) && t' == Detect(mid, mid.seqNo + 1, at, rto)
          else t' == l.t)
    case Timeout(at, rto) => Laned(l.t) && TxOk(l.t) && !Crashes(l.t)
    case Expire(at, deadline) => RxOk(l.rx)
  }

  ghost function Do(l: Link, s: Step): Link
    requires Can(l, s)
  {
    match s
    case Enqueue(f) => l.(enq := l.enq + [f])
    case Pull(t', head, out, sent, news, spare, fate') =>
      l.(t := t', fate := fate', cut := l.cut + news, stamps := l.stamps + seq(|news|, _ => l.t.low))
    case Arrive(i, at) =>
      var rx := OnLane(l.rx, WireOf(l, i), at);
      l.(rx := rx, start := if l.rx.started then l.start else Position(l.rx, Wrap(i), Wrap(l.stamps[i - l.base])).next)
    case SendAck(a) => l.(acks := l.acks + {a})
    case AckArrives(a, t', mid, at, minRTT, rto) => l.(t := t')
    case Timeout(at, rto) => l.(t := Detect(l.t, l.t.seqNo + 1, at, rto))
    case Expire(at, deadline) => l.(rx := Reorder.Expire(l.rx, at, deadline), expired := true)
  }

  ghost predicate Runs(l: Link, steps: seq<Step>)
    decreases |steps|
  {
    steps == [] || (Can(l, steps[0]) && Runs(Do(l, steps[0]), steps[1..]))
  }

  ghost function After(l: Link, steps: seq<Step>): Link
    requires Runs(l, steps)
    decreases |steps|
  {
    if steps == [] then l else After(Do(l, steps[0]), steps[1..])
  }

  // ---- the invariant ----

  /** The sender's side: each piece in flight goes out with the bytes it was cut with. */
  ghost predicate SenderInv(l: Link) {
    && TxOk(l.t) && l.base <= l.t.low
    && |l.cut| == |l.stamps| == l.t.seqNo + 1 - l.base
    && (forall i :: i in l.t.live ==> i - l.base >= 0 && l.t.live[i].buf == WireOf(l, i))
    && (forall k :: 0 <= k < |l.stamps| ==>
      l.base <= l.stamps[k] <= l.t.low && l.stamps[k] <= l.base + k < l.stamps[k] + RING)
    && (forall k :: 0 <= k < |l.cut| ==> l.cut[k] != [])
  }

  /** Entries are what was cut under their index. */
  ghost predicate AsCut(base: int, cut: seq<Bytes>, r: Rx, start: int) {
    && base <= start
    && (forall i :: i in r.buf ==> start <= i < base + |cut| && r.buf[i].data == cut[i - base])
    && (forall j :: 0 <= j < |r.out| ==>
          start <= r.out[j].idx < base + |cut| && r.out[j].data == cut[r.out[j].idx - base])
  }

  /** The receiver's side, for a receiver that began at `start`. */
  ghost predicate Holding(base: int, cut: seq<Bytes>, r: Rx, start: int) {
    && RxOk(r) && OutOk(r) && r.started
    && base <= start <= r.next <= base + |cut| && r.hi < base + |cut|
    && AsCut(base, cut, r, start)
  }

  /** With no hole given up on, the pieces handed up are a stretch without a gap. */
  ghost predicate GapFree(r: Rx, start: int) {
    && !r.gapNext && |r.out| == r.next - start
    && (forall j :: 0 <= j < |r.out| ==> r.out[j].idx == start + j && !r.out[j].gap)
  }

  /** What an ack says has arrived, the receiver has (or gave up on). */
  ghost predicate Truthful(a: IdxAck, r: Rx) {
    && WellFormed(a) && a.cum <= r.next && a.hi <= r.hi
    && (forall x :: x <= a.hi && !InRuns(a.runs, x) ==> Has(r, x))
  }

  /** Before the first arrival nothing was acked, so the low mark has not moved. */
  ghost predicate Idle(l: Link) {
    && l.t.low == l.base && l.acks == {} && !l.rx.gapNext
    && -(HALF32 - RING) < l.rx.next - l.base < HALF32 - RING
    && (forall i :: l.base <= i <= l.t.seqNo ==> i in l.t.live)
  }

  ghost predicate Inv(l: Link) {
    && SenderInv(l) && RxOk(l.rx)
    && (!l.rx.started ==> Idle(l))
    && (l.rx.started ==>
          && Holding(l.base, l.cut, l.rx, l.start) && l.t.low <= l.rx.next
          && (forall i :: l.base <= i <= l.t.seqNo && i !in l.t.live ==> Has(l.rx, i))
          && (forall a :: a in l.acks ==> Truthful(a, l.rx))
          && (!l.expired ==> GapFree(l.rx, l.start))
          && (l.start == l.base || l.start >= l.base + RING / 2))
  }

  lemma StartHolds(l: Link)
    requires Start(l)
    ensures Inv(l)
  {
  }

  lemma EnqueueKeeps(l: Link, s: Step)
    requires Inv(l) && s.Enqueue? && Can(l, s)
    ensures Inv(Do(l, s))
  {
    SameSender(l, Do(l, s));
    hide SenderInv, RxOk, TxOk, Holding, GapFree, Truthful;
  }

  lemma PiecesNotEmpty(l: Link, news: seq<Bytes>, fate': seq<bool>)
    requires CutNext(l, news, fate')
    ensures forall k :: 0 <= k < |news| ==> news[k] != []
  {
    forall k | 0 <= k < |news| ensures news[k] != [] {
      assert IsPiece(Kept(l.enq, fate'), |l.cut| + k, l.p, news[k]);
    }
  }

  lemma PulledLive(t: Tx, s: Step)
    requires s.Pull? && Pulled(t, s.t', s.head, s.out, s.sent, s.news, s.spare)
    ensures s.t'.seqNo == t.seqNo + |s.news| && s.t'.low == t.low
    ensures forall i :: i in s.t'.live <==> i in t.live || t.seqNo < i <= s.t'.seqNo
    ensures forall i :: i in t.live ==> s.t'.live[i].buf == t.live[i].buf
    ensures forall i :: i in s.t'.live && i > t.seqNo ==>
      i <= s.t'.seqNo && s.t'.live[i].buf == Framed(i, t.low, s.news[i - t.seqNo - 1])
  {
    hide Framed;
  }

  /** What the sender's side says of one piece in flight. */
  lemma SentAsCut(l: Link, i: int)
    requires SenderInv(l) && i in l.t.live
    ensures 0 <= i - l.base < |l.cut| && |l.cut| == |l.stamps| && i <= l.t.seqNo
    ensures l.t.live[i].buf == Framed(i, l.stamps[i - l.base], l.cut[i - l.base])
  {
  }

  lemma PullKeepsSender(l: Link, s: Step)
    requires SenderInv(l) && s.Pull? && Can(l, s)
    ensures SenderInv(Do(l, s))
    ensures var l' := Do(l, s);
      l'.t.low == l.t.low && |l.cut| <= |l'.cut| && l'.cut[..|l.cut|] == l.cut
      && (forall i :: i in l'.t.live <==> i in l.t.live || l.t.seqNo < i <= l'.t.seqNo)
  {
    hide Pulled, CutNext, PieceOk, LiveOnce, Framed, Bufs, Cut, AllIn;
    var l' := Do(l, s);
    PiecesNotEmpty(l, s.news, s.fate');
    PulledLive(l.t, s);
    forall i | i in l'.t.live
      ensures i - l.base >= 0 && l'.t.live[i].buf == WireOf(l', i)
    {
      if i in l.t.live { SentAsCut(l, i); }
    }
  }

  lemma PullKeeps(l: Link, s: Step)
    requires Inv(l) && s.Pull? && Can(l, s)
    ensures Inv(Do(l, s))
  {
    hide SenderInv, Pulled, TxOk, RxOk, OutOk, Truthful;
    PullKeepsSender(l, s);
    SenderCount(l);
    SenderCount(Do(l, s));
    var l' := Do(l, s);
    forall k | 0 <= k < |l.cut| ensures l'.cut[k] == l.cut[k] {}
  }

  lemma SenderCount(l: Link)
    requires SenderInv(l)
    ensures |l.cut| == |l.stamps| == l.t.seqNo + 1 - l.base && l.base <= l.t.low <= l.t.seqNo + 1 <= l.t.low + RING
  {
  }

  lemma FourParts<T>(a: seq<T>, b: seq<T>, c: seq<T>, d: seq<T>, k: nat)
    requires |a| <= k < |a + b + c + d|
    ensures (a + b + c + d)[k] == if k - |a| < |b| then b[k - |a|]
                                  else if k - |a| - |b| < |c| then c[k - |a| - |b|]
                                  else d[k - |a| - |b| - |c|]
  {
  }

  /** A piece in flight is one that was cut. */
  lemma InFlightIsCut(l: Link, i: int)
    requires SenderInv(l) && i in l.t.live
    ensures l.base <= i < l.base + |l.cut| && |l.stamps| == |l.cut| && l.t.live[i].buf == WireOf(l, i)
  {
  }

  /** Everything a pull puts out after the ack is the wire form of a piece that was cut. */
  lemma PullSendsCutPieces(l: Link, s: Step, k: nat) returns (i: int)
    requires SenderInv(l) && s.Pull? && Can(l, s) && |s.head| <= k < |s.out|
    ensures var l' := Do(l, s);
      l.base <= i < l.base + |l'.cut| && |l'.stamps| == |l'.cut| && s.out[k] == WireOf(l', i)
  {
    hide *;
    PullKeepsSender(l, s);
    PullPuts(l, s);
    var k1 := k - |s.head|;
    var news := Cut(l.t.seqNo + 1, l.t.low, s.news);
    FourParts(s.head, Bufs(l.t.live, s.sent), news, Bufs(s.t'.live, s.spare), k);
    if k1 < |s.sent| {
      i := s.sent[k1];
    } else if k1 - |s.sent| < |s.news| {
      i := l.t.seqNo + 1 + k1 - |s.sent|;
    } else {
      i := s.spare[k1 - |s.sent| - |s.news|];
    }
    InFlightIsCut(Do(l, s), i);
  }

  /** What a pull puts out: the ack, then pieces in flight with the bytes they have afterwards. */
  lemma PullPuts(l: Link, s: Step)
    requires SenderInv(l) && s.Pull? && Can(l, s)
    ensures Do(l, s).t == s.t' && Do(l, s).base == l.base && AllIn(s.sent, l.t.live) && AllIn(s.spare, s.t'.live)
    ensures var news := Cut(l.t.seqNo + 1, l.t.low, s.news);
      && |news| == |s.news| && s.out == s.head + Bufs(l.t.live, s.sent) + news + Bufs(s.t'.live, s.spare)
      && forall i :: l.t.seqNo < i <= l.t.seqNo + |s.news| ==>
           i in s.t'.live && s.t'.live[i].buf == news[i - l.t.seqNo - 1]
    ensures forall k :: 0 <= k < |s.sent| ==>
      s.sent[k] in s.t'.live && s.t'.live[s.sent[k]].buf == Bufs(l.t.live, s.sent)[k]
    ensures forall k :: 0 <= k < |s.spare| ==>
      s.spare[k] in s.t'.live && s.t'.live[s.spare[k]].buf == Bufs(s.t'.live, s.spare)[k]
  {
    hide *;
    CanPull(l, s);
    PulledPuts(l.t, s.t', s.head, s.out, s.sent, s.news, s.spare);
  }

  lemma CanPull(l: Link, s: Step)
    requires s.Pull? && Can(l, s)
    ensures Do(l, s).t == s.t' && Do(l, s).base == l.base && Pulled(l.t, s.t', s.head, s.out, s.sent, s.news, s.spare)
  {
  }

  lemma PulledPuts(t: Tx, u: Tx, head: seq<Bytes>, out: seq<Bytes>, sent: seq<int>, news: seq<Bytes>, spare: seq<int>)
    requires Pulled(t, u, head, out, sent, news, spare)
    ensures AllIn(sent, t.live) && AllIn(spare, u.live)
    ensures var cut := Cut(t.seqNo + 1, t.low, news);
      && |cut| == |news| && out == head + Bufs(t.live, sent) + cut + Bufs(u.live, spare)
      && forall i :: t.seqNo < i <= t.seqNo + |news| ==> i in u.live && u.live[i].buf == cut[i - t.seqNo - 1]
    ensures forall k :: 0 <= k < |sent| ==> sent[k] in u.live && u.live[sent[k]].buf == Bufs(t.live, sent)[k]
    ensures forall k :: 0 <= k < |spare| ==> spare[k] in u.live && u.live[spare[k]].buf == Bufs(u.live, spare)[k]
  {
    hide Framed;
  }

  // ---- arrivals ----

  /** What the receiver makes of the bytes of piece `i`. */
  lemma ArrivalReads(l: Link, i: int, at: int)
    requires RxOk(l.rx) && l.base <= i < l.base + |l.cut| && |l.stamps| == |l.cut| && l.cut[i - l.base] != []
    ensures OnLane(l.rx, WireOf(l, i), at) == Push(l.rx, Wrap(i), Wrap(l.stamps[i - l.base]), l.cut[i - l.base], at)
  {
    hide Push;
    FramedReads(i, l.stamps[i - l.base], l.cut[i - l.base]);
  }

  /** The receiver reads an arriving piece under its true index, never restarts, and has room for it
      without giving up on a hole. */
  lemma ArrivalIsInWindow(l: Link, i: int, at: int)
    requires Inv(l) && Can(l, Arrive(i, at))
    ensures var p := Position(l.rx, Wrap(i), Wrap(l.stamps[i - l.base]));
      && RxOk(p) && p.started && i < p.next + RING
      && NearWindow(p, Wrap(i)) && Near(p.next, Wrap(i)) == i
      && (if l.rx.started then p == l.rx
          else p == Begun(l.rx, if i - l.base < RING / 2 then l.base else i))
  {
    hide *;
    InvRx(l, i, at);
    var p := Position(l.rx, Wrap(i), Wrap(l.stamps[i - l.base]));
    PositionOk(l.rx, Wrap(i), Wrap(l.stamps[i - l.base]));
    if l.rx.started { NearArrival(l, i, at); } else { FirstArrival(l, i, at); }
  }

  lemma InvRx(l: Link, i: int, at: int)
    requires Inv(l) && Can(l, Arrive(i, at))
    ensures RxOk(l.rx) && l.base <= i < l.base + |l.cut| && |l.stamps| == |l.cut|
  {
  }

  lemma NearArrival(l: Link, i: int, at: int)
    requires Inv(l) && Can(l, Arrive(i, at)) && l.rx.started
    ensures Position(l.rx, Wrap(i), Wrap(l.stamps[i - l.base])) == l.rx
    ensures Near(l.rx.next, Wrap(i)) == i && i < l.rx.next + RING
  {
    hide Near, Wrap, Restart, StartAt;
    NearRecovers(l.rx.next, i);
  }

  lemma FirstArrival(l: Link, i: int, at: int)
    requires Inv(l) && Can(l, Arrive(i, at)) && !l.rx.started
    ensures var p := Begun(l.rx, if i - l.base < RING / 2 then l.base else i);
      && Position(l.rx, Wrap(i), Wrap(l.stamps[i - l.base])) == p && p.started
      && Near(p.next, Wrap(i)) == i && i < p.next + RING
  {
    hide *;
    InvIdle(l, i, at);
    StartsAtBase(l.rx, l.base, i);
    PositionsFirst(l.rx, i, Wrap(l.base));
  }

  /** Before anything arrived every piece carries the first index as its low mark. */
  lemma InvIdle(l: Link, i: int, at: int)
    requires Inv(l) && Can(l, Arrive(i, at)) && !l.rx.started
    ensures l.base <= i < l.base + |l.cut| && |l.stamps| == |l.cut| && l.stamps[i - l.base] == l.base
      && i < l.base + RING
    ensures -(HALF32 - RING) < l.rx.next - l.base < HALF32 - RING
  {
    CutNotEmpty(l, i);
    hide RxOk, TxOk, WireOf;
  }

  lemma StartsAtBase(r: Rx, base: int, i: int)
    requires base <= i < base + RING && -(HALF32 - RING) < r.next - base < HALF32 - RING
    ensures var p := Begun(r, if i - base < RING / 2 then base else i);
      StartAt(r, Wrap(i), Wrap(base)) == p && p.started && Near(p.next, Wrap(i)) == i && i < p.next + RING
      && p.next <= i
  {
    hide Near, Wrap;
    NearRecovers(r.next, i);
    NearRecovers(base, i);
    NearRecovers(i, i);
    UnsignedDistance(i, base);
  }

  lemma PositionsFirst(r: Rx, i: int, low: u32)
    requires !r.started && var p := StartAt(r, Wrap(i), low); Near(p.next, Wrap(i)) == i && p.next <= i < p.next + RING
    ensures Position(r, Wrap(i), low) == StartAt(r, Wrap(i), low)
  {
    hide Near, Wrap, StartAt;
  }

  function Begun(r: Rx, start: int): Rx {
    r.(started := true, next := start, hi := start - 1)
  }

  /** Pieces move from the buffer to the output unchanged, and none is lost on the way. */
  lemma ProgressKeeps(base: int, cut: seq<Bytes>, n: Rx, f: Rx, start: int)
    requires Progress(n, f) && AsCut(base, cut, n, start)
    ensures AsCut(base, cut, f, start)
    ensures forall x :: Has(n, x) ==> Has(f, x)
  {
    assert base <= start;
    forall j | 0 <= j < |f.out|
      ensures start <= f.out[j].idx < base + |cut| && f.out[j].data == cut[f.out[j].idx - base]
    {
      if j < |n.out| { assert f.out[j] == f.out[..|n.out|][j]; }
    }
  }

  lemma NextIsNotPastHi(r: Rx)
    requires RxOk(r) && r.started
    ensures r.next <= r.hi + 1
  {
  }

  lemma FileKeeps(base: int, cut: seq<Bytes>, r: Rx, start: int, i: int, at: int)
    requires Holding(base, cut, r, start) && base <= i < base + |cut| && i < r.next + RING
    ensures var f := File(r, i, cut[i - base], at);
      Holding(base, cut, f, start) && r.next <= f.next && Has(f, i) && (forall x :: Has(r, x) ==> Has(f, x))
  {
    hide RxOk, OutOk, Progress, AsCut, GiveUp;
    var data := cut[i - base];
    SettledNow(r);
    var f := File(r, i, data, at);
    FileKeepsOk(r, i, data, at);
    FileKeepsOut(r, i, data, at);
    if i >= r.next && i !in r.buf {
      FileProgress(r, i, data, at);
      var n := Insert(r, i, data, at);
      InsertKeeps(base, cut, r, start, i, at);
      ProgressKeeps(base, cut, n, f, start);
      ProgressNext(n, f);
      NextIsNotPastHi(f);
      assert forall x :: Has(r, x) ==> Has(n, x);
      assert Has(n, i);
    } else if i >= r.next {
      GiveUpFacts(r, i);
    }
  }

  lemma SettledNow(r: Rx)
    requires RxOk(r)
    ensures Settled(r)
  {
  }

  lemma InsertKeeps(base: int, cut: seq<Bytes>, r: Rx, start: int, i: int, at: int)
    requires AsCut(base, cut, r, start) && start <= i && base <= i < base + |cut|
    ensures AsCut(base, cut, Insert(r, i, cut[i - base], at), start)
  {
  }

  lemma ProgressNext(n: Rx, f: Rx)
    requires Progress(n, f)
    ensures n.next <= f.next && f.hi == n.hi && f.started == n.started
  {
  }

  /** Without a hole given up on, filing a piece leaves the output a stretch without a gap. */
  lemma FileKeepsGapFree(r: Rx, start: int, i: int, data: Bytes, at: int)
    requires RxOk(r) && r.started && i < r.next + RING && GapFree(r, start)
    ensures GapFree(File(r, i, data, at), start)
  {
    if i >= r.next {
      GiveUpFacts(r, i);
      if i !in r.buf {
        var n := Insert(r, i, data, at);
        DrainFacts(n);
        var d := Drain(n);
        forall j | 0 <= j < |d.out| ensures d.out[j].idx == start + j && !d.out[j].gap {
          if j < |r.out| { assert d.out[j] == d.out[..|r.out|][j]; }
        }
      }
    }
  }


  lemma CutNotEmpty(l: Link, i: int)
    requires SenderInv(l) && l.base <= i < l.base + |l.cut|
    ensures l.cut[i - l.base] != []
    ensures l.base <= l.stamps[i - l.base] <= l.t.low && l.stamps[i - l.base] <= i < l.stamps[i - l.base] + RING
  {
  }

  lemma InvSender(l: Link)
    requires Inv(l)
    ensures SenderInv(l)
  {
  }

  lemma BegunPosition(r: Rx, start: int)
    ensures Begun(r, start).next == start
  {
  }

  lemma DoArrive(l: Link, i: int, at: int)
    requires Can(l, Arrive(i, at)) && RxOk(l.rx) && l.base <= i < l.base + |l.cut| && |l.stamps| == |l.cut|
    ensures var l' := Do(l, Arrive(i, at));
      && l'.rx == OnLane(l.rx, WireOf(l, i), at)
      && l'.start == if l.rx.started then l.start else Position(l.rx, Wrap(i), Wrap(l.stamps[i - l.base])).next
  {
  }

  /** What an arrival does to the receiver, in indices. */
  lemma ArrivalMeans(l: Link, i: int, at: int)
    requires Inv(l) && Can(l, Arrive(i, at))
    ensures var l' := Do(l, Arrive(i, at));
      var p := if l.rx.started then l.rx else Begun(l.rx, l'.start);
      && RxOk(p) && i < p.next + RING && l'.rx == File(p, i, l.cut[i - l.base], at)
      && (l.rx.started ==> l'.start == l.start)
      && (!l.rx.started ==> l'.start == if i - l.base < RING / 2 then l.base else i)
  {
    hide *;
    ArrivalIsInWindow(l, i, at);
    InvRx(l, i, at);
    InvSender(l);
    DoArrive(l, i, at);
    BegunPosition(l.rx, if i - l.base < RING / 2 then l.base else i);
    CutNotEmpty(l, i);
    ArrivalReads(l, i, at);
    PushIsFile(l.rx, i, Wrap(l.stamps[i - l.base]), l.cut[i - l.base], at);
  }

  lemma PushIsFile(r: Rx, i: int, low: u32, data: Bytes, at: int)
    requires RxOk(r) && var p := Position(r, Wrap(i), low); RxOk(p) && Near(p.next, Wrap(i)) == i
    ensures Push(r, Wrap(i), low, data, at) == File(Position(r, Wrap(i), low), i, data, at)
  {
  }

  lemma BegunHolds(base: int, cut: seq<Bytes>, r: Rx, start: int)
    requires RxOk(r) && !r.started && base <= start <= base + |cut|
    ensures Holding(base, cut, Begun(r, start), start) && (!r.gapNext ==> GapFree(Begun(r, start), start))
  {
  }

  lemma TruthfulStays(a: IdxAck, r: Rx, f: Rx)
    requires Truthful(a, r) && r.next <= f.next && r.hi <= f.hi && forall x :: Has(r, x) ==> Has(f, x)
    ensures Truthful(a, f)
  {
  }

  lemma FileHi(r: Rx, i: int, data: Bytes, at: int)
    requires RxOk(r) && r.started
    ensures r.hi <= File(r, i, data, at).hi
  {
    if i >= r.next {
      GiveUpFacts(r, i);
      DrainFacts(Insert(GiveUp(r, i), i, data, at));
    }
  }

  /** The receiver's half of the invariant, once a piece arrived. */
  ghost predicate Received(l: Link, f: Rx, start: int) {
    && Holding(l.base, l.cut, f, start) && l.t.low <= f.next
    && (forall i :: l.base <= i <= l.t.seqNo && i !in l.t.live ==> Has(f, i))
    && (forall a :: a in l.acks ==> Truthful(a, f))
    && (!l.expired ==> GapFree(f, start))
  }

  /** The receiver a piece is filed in has begun where the first arrival put it. */
  lemma BegunReceives(l: Link, p: Rx, start: int)
    requires Inv(l) && l.base <= start <= l.base + |l.cut|
    requires if l.rx.started then start == l.start && p == l.rx else p == Begun(l.rx, start)
    ensures Received(l, p, start)
  {
    if !l.rx.started {
      hide RxOk, TxOk, GapFree, Truthful;
      BegunHolds(l.base, l.cut, l.rx, start);
    }
  }

  lemma FileReceives(l: Link, p: Rx, start: int, i: int, at: int)
    requires Received(l, p, start) && l.base <= i < l.base + |l.cut| && i < p.next + RING
    ensures Received(l, File(p, i, l.cut[i - l.base], at), start)
  {
    hide RxOk, File, Holding, GapFree, Truthful;
    HoldingStarted(l.base, l.cut, p, start);
    FileKeeps(l.base, l.cut, p, start, i, at);
    FileHi(p, i, l.cut[i - l.base], at);
    var f := File(p, i, l.cut[i - l.base], at);
    if !l.expired { FileKeepsGapFree(p, start, i, l.cut[i - l.base], at); }
    forall a | a in l.acks ensures Truthful(a, f) { TruthfulStays(a, p, f); }
  }

  lemma ArriveKeeps(l: Link, s: Step)
    requires Inv(l) && s.Arrive? && Can(l, s)
    ensures Inv(Do(l, s))
  {
    hide *;
    var i, at := s.i, s.at;
    ArrivalMeans(l, i, at);
    ArriveFrame(l, s);
    var l' := Do(l, s);
    var p := if l.rx.started then l.rx else Begun(l.rx, l'.start);
    BegunReceives(l, p, l'.start);
    FileReceives(l, p, l'.start, i, at);
    SameSender(l, l');
    ReceivedIsInv(l, l');
  }

  /** An arrival leaves the sender and the acks alone, and begins the receiver at a piece that was cut. */
  lemma ArriveFrame(l: Link, s: Step)
    requires Inv(l) && s.Arrive? && Can(l, s)
    ensures var l' := Do(l, s);
      && l' == l.(rx := l'.rx, start := l'.start) && SenderInv(l)
      && l.base <= s.i < l.base + |l.cut| && |l.stamps| == |l.cut|
      && l.base <= l'.start <= l.base + |l.cut| && (l'.start == l.base || l'.start >= l.base + RING / 2)
  {
    ArrivalMeans(l, s.i, s.at);
    hide Position, File, OnLane, RxOk, TxOk, OutOk, AsCut, GapFree, Truthful;
  }

  lemma ReceivedIsInv(l: Link, l': Link)
    requires l' == l.(rx := l'.rx, start := l'.start) && SenderInv(l') && Received(l, l'.rx, l'.start)
    requires l'.start == l.base || l'.start >= l.base + RING / 2
    ensures Inv(l')
  {
    hide TxOk, RxOk, OutOk, AsCut, GapFree, Truthful, SenderInv;
  }

  lemma HoldingStarted(base: int, cut: seq<Bytes>, r: Rx, start: int)
    requires Holding(base, cut, r, start)
    ensures r.started && RxOk(r) && base <= start <= r.next <= base + |cut|
  {
  }

  lemma SameSender(l: Link, l': Link)
    requires SenderInv(l) && l'.base == l.base && l'.t == l.t && l'.cut == l.cut && l'.stamps == l.stamps
    ensures SenderInv(l')
  {
    forall i | i in l'.t.live ensures l'.t.live[i].buf == WireOf(l', i) {
      assert WireOf(l', i) == WireOf(l, i);
    }
  }

  // ---- acks and timers ----

  lemma SendAckKeeps(l: Link, s: Step)
    requires Inv(l) && s.SendAck? && Can(l, s)
    ensures Inv(Do(l, s))
  {
    SameSender(l, Do(l, s));
    ReportIsTruthful(l.rx, s.a);
  }

  lemma ReportIsTruthful(r: Rx, a: IdxAck)
    requires RxOk(r) && r.started && Reports(r, a)
    ensures Truthful(a, r)
  {
  }

  /** Every piece an ack releases has reached the receiver (or was given up on), and the low mark
      never passes what the receiver is still waiting for. */
  lemma ReleasesTruthfully(l: Link, a: IdxAck, j: int)
    requires SenderInv(l) && Truthful(a, l.rx) && l.rx.started && RxOk(l.rx) && l.t.low <= j <= l.t.seqNo
    requires a.cum > l.t.low - HALF32 + 8 * RING && l.rx.next <= l.t.seqNo + 1 && l.t.low <= l.rx.next
    ensures Short(a.runs)
    ensures Releases(l.t, ToWire(a), j) ==> Has(l.rx, j)
    ensures NewLow(l.t, ToWire(a)) <= l.rx.next
  {
    ReleasesWhatIsReported(l.t, a, j);
    AheadIs(l.t.low, a.cum);
  }

  /** An ack or a timeout only ever releases pieces, and only ones the receiver has. */
  ghost predicate Eased(l: Link, t': Tx) {
    && TxOk(t') && t'.seqNo == l.t.seqNo && l.t.low <= t'.low
    && (forall i :: i in t'.live ==> i in l.t.live && t'.live[i].buf == l.t.live[i].buf)
    && (forall i :: i in l.t.live && i !in t'.live ==> l.rx.started && Has(l.rx, i))
    && (t'.low == l.t.low || (l.rx.started && t'.low <= l.rx.next))
  }

  lemma EasedKeepsSender(l: Link, t': Tx)
    requires SenderInv(l) && Eased(l, t')
    ensures SenderInv(l.(t := t'))
  {
    var l' := l.(t := t');
    forall i | i in t'.live ensures i - l.base >= 0 && t'.live[i].buf == WireOf(l', i) {
      assert WireOf(l', i) == WireOf(l, i);
    }
  }

  lemma EasedKeeps(l: Link, t': Tx)
    requires Inv(l) && Eased(l, t')
    ensures Inv(l.(t := t'))
  {
    hide SenderInv, TxOk, RxOk, Holding, GapFree, Truthful;
    EasedKeepsSender(l, t');
  }

  lemma DetectEases(l: Link, t: Tx, at: int, rto: int)
    requires TxOk(t) && Laned(t) && Eased(l, t)
    ensures Eased(l, Detect(t, t.seqNo + 1, at, rto))
  {
    hide TxOk;
    SenderRange(t);
    DetectFacts(t, t.seqNo + 1, at, rto);
  }

  lemma SenderRange(t: Tx)
    requires TxOk(t)
    ensures t.low <= t.seqNo + 1
  {
  }

  lemma EasedSelf(l: Link)
    requires SenderInv(l)
    ensures Eased(l, l.t)
  {
  }

  lemma AckIsTruthful(l: Link, a: IdxAck)
    requires Inv(l) && a in l.acks
    ensures l.rx.started && RxOk(l.rx) && Truthful(a, l.rx) && l.t.low <= l.rx.next <= l.t.seqNo + 1
  {
  }

  lemma AckEases(l: Link, a: IdxAck, mid: Tx, at: int, minRTT: int)
    requires Inv(l) && a in l.acks && a.cum > l.t.low - HALF32 + 8 * RING && Short(a.runs) && |l.t.laneAck| == LANES
    requires Accepts(l.t, ToWire(a)) && TxOk(mid)
    requires Acked(l.t, mid, Released(l.t, ToWire(a)), NewLow(l.t, ToWire(a)), at, minRTT)
    ensures Eased(l, mid)
  {
    AckIsTruthful(l, a);
    NewLowIs(l.t, ToWire(a));
    hide TxOk, RxOk, Truthful, Holding, GapFree, Releases, Accepts, NewLow, LanesCredited;
    InFlightIsNumbered(l.t);
    NewLowIsTruthful(l, a);
    forall i | i in l.t.live && i !in mid.live ensures Has(l.rx, i) {
      ReleasesTruthfully(l, a, i);
    }
  }

  lemma InFlightIsNumbered(t: Tx)
    requires TxOk(t)
    ensures forall i :: i in t.live ==> t.low <= i <= t.seqNo
  {
  }

  lemma NewLowIsTruthful(l: Link, a: IdxAck)
    requires SenderInv(l) && Truthful(a, l.rx) && l.t.low <= l.rx.next <= l.t.seqNo + 1
    requires a.cum > l.t.low - HALF32 + 8 * RING && Short(a.runs)
    ensures NewLow(l.t, ToWire(a)) <= l.rx.next
  {
    AheadIs(l.t.low, a.cum);
  }

  lemma AckKeeps(l: Link, s: Step)
    requires Inv(l) && s.AckArrives? && Can(l, s)
    ensures Inv(Do(l, s))
  {
    if Accepts(l.t, ToWire(s.a)) {
      hide Acked, TxOk, RxOk, Accepts, SenderInv, Truthful, Holding, GapFree, Eased;
      AckEases(l, s.a, s.mid, s.at, s.minRTT);
      DetectEases(l, s.mid, s.at, s.rto);
      EasedKeeps(l, s.t');
    }
  }

  lemma TimeoutKeeps(l: Link, s: Step)
    requires Inv(l) && s.Timeout? && Can(l, s)
    ensures Inv(Do(l, s))
  {
    hide TxOk, RxOk, SenderInv, Truthful, Holding, GapFree, Eased;
    SenderRange(l.t);
    EasedSelf(l);
    DetectEases(l, l.t, s.at, s.rto);
    EasedKeeps(l, Detect(l.t, l.t.seqNo + 1, s.at, s.rto));
  }

  lemma ExpireKeepsHolding(l: Link, at: int, deadline: int)
    requires Holding(l.base, l.cut, l.rx, l.start)
    ensures var e := Reorder.Expire(l.rx, at, deadline);
      && Holding(l.base, l.cut, e, l.start) && l.rx.next <= e.next && e.hi == l.rx.hi && e.started
      && forall x :: Has(l.rx, x) ==> Has(e, x)
  {
    hide RxOk, OutOk, Progress, AsCut;
    ExpireFacts(l.rx, at, deadline);
    var e := Reorder.Expire(l.rx, at, deadline);
    ProgressNext(l.rx, e);
    ProgressKeeps(l.base, l.cut, l.rx, e, l.start);
    NextIsNotPastHi(e);
  }

  lemma NothingBuffered(r: Rx)
    requires RxOk(r) && !r.started
    ensures r.buf == map[]
  {
  }

  lemma ExpireKeeps(l: Link, s: Step)
    requires Inv(l) && s.Expire? && Can(l, s)
    ensures Inv(Do(l, s))
  {
    hide RxOk, SenderInv, Truthful, Holding, GapFree, TxOk, Reorder.Expire;
    var l' := Do(l, s);
    SameSender(l, l');
    if l.rx.started {
      HoldingStarted(l.base, l.cut, l.rx, l.start);
      ExpireKeepsHolding(l, s.at, s.deadline);
      HoldingStarted(l.base, l.cut, l'.rx, l.start);
      forall a | a in l.acks ensures Truthful(a, l'.rx) { TruthfulStays(a, l.rx, l'.rx); }
    } else {
      NothingBuffered(l.rx);
      ExpireEmpty(l.rx, s.at, s.deadline);
    }
  }

  lemma StepKeeps(l: Link, s: Step)
    requires Inv(l) && Can(l, s)
    ensures Inv(Do(l, s))
  {
    hide Inv, Can, Do;
    match s {
      case Enqueue(_) => EnqueueKeeps(l, s);
      case Pull(_, _, _, _, _, _, _) => PullKeeps(l, s);
      case Arrive(_, _) => ArriveKeeps(l, s);
      case SendAck(_) => SendAckKeeps(l, s);
      case AckArrives(_, _, _, _, _, _) => AckKeeps(l, s);
      case Timeout(_, _) => TimeoutKeeps(l, s);
      case Expire(_, _) => ExpireKeeps(l, s);
    }
  }

  lemma {:induction false} RunKeeps(l: Link, steps: seq<Step>)
    requires Inv(l) && Runs(l, steps)
    ensures Inv(After(l, steps))
    decreases |steps|
  {
    if steps != [] {
      hide Inv;
      StepKeeps(l, steps[0]);
      RunKeeps(Do(l, steps[0]), steps[1..]);
    }
  }

  // ---- what holds in every run ----

  /** The lossless link. However pieces and acks are lost, duplicated, delayed or reordered, the
      sender's low mark never passes the receiver and the receiver never passes what was cut; at
      most a ring of pieces is in flight; and no arrival makes the receiver restart or give up on
      a hole. */
  lemma LosslessLink(l: Link, steps: seq<Step>)
    requires Start(l) && Runs(l, steps)
    ensures var e := After(l, steps);
      && e.base <= e.t.low <= e.t.seqNo + 1 <= e.t.low + RING && |e.cut| == |e.stamps| == e.t.seqNo + 1 - e.base
      && (forall i :: i in e.t.live ==> e.t.low <= i <= e.t.seqNo && e.t.live[i].buf == WireOf(e, i))
      && (e.rx.started ==> e.t.low <= e.rx.next <= e.t.seqNo + 1)
      && e.rx.next !in e.rx.buf
      && (forall i, at :: e.rx.started && Can(e, Arrive(i, at)) ==>
            && e.base <= i < e.base + |e.cut|
            && Position(e.rx, Wrap(i), Wrap(e.stamps[i - e.base])) == e.rx && Near(e.rx.next, Wrap(i)) == i
            && GiveUp(e.rx, i) == e.rx)
  {
    hide *;
    StartHolds(l);
    RunKeeps(l, steps);
    var e := After(l, steps);
    InvBounds(e);
    forall i, at | e.rx.started && Can(e, Arrive(i, at))
      ensures Position(e.rx, Wrap(i), Wrap(e.stamps[i - e.base])) == e.rx && Near(e.rx.next, Wrap(i)) == i
      ensures GiveUp(e.rx, i) == e.rx
    {
      NearArrival(e, i, at);
      NoGivingUp(e.rx, i);
    }
  }

  lemma InvBounds(e: Link)
    requires Inv(e)
    ensures e.base <= e.t.low <= e.t.seqNo + 1 <= e.t.low + RING && |e.cut| == |e.stamps| == e.t.seqNo + 1 - e.base
    ensures forall i :: i in e.t.live ==> e.t.low <= i <= e.t.seqNo && e.t.live[i].buf == WireOf(e, i)
    ensures e.rx.started ==> e.t.low <= e.rx.next <= e.t.seqNo + 1
    ensures e.rx.next !in e.rx.buf
    ensures forall i, at :: Can(e, Arrive(i, at)) ==> e.base <= i < e.base + |e.cut|
  {
    hide WireOf, Truthful, GapFree;
    assert forall i :: i in e.t.live ==> e.t.low <= i <= e.t.seqNo && e.t.live[i].buf == WireOf(e, i);
  }

  lemma NoGivingUp(r: Rx, i: int)
    requires r.next !in r.buf && i < r.next + RING
    ensures GiveUp(r, i) == r
  {
  }

  /** The index of the first piece to arrive. */
  function FirstIndex(steps: seq<Step>): Option<int> {
    if steps == [] then None
    else if steps[0].Arrive? then Some(steps[0].i)
    else FirstIndex(steps[1..])
  }

  /** Where the receiver begins when piece `i` is the first to arrive. */
  function BeginsAt(base: int, i: int): int { if i - base < RING / 2 then base else i }

  lemma FileStarted(r: Rx, i: int, data: Bytes, at: int)
    requires RxOk(r) && r.started
    ensures File(r, i, data, at).started
  {
    if i >= r.next {
      GiveUpFacts(r, i);
      DrainFacts(Insert(GiveUp(r, i), i, data, at));
    }
  }

  lemma ArriveStarts(l: Link, i: int, at: int)
    requires Inv(l) && Can(l, Arrive(i, at))
    ensures var l' := Do(l, Arrive(i, at));
      && l'.base == l.base && l'.rx.started
      && l'.start == if l.rx.started then l.start else BeginsAt(l.base, i)
  {
    ArrivalMeans(l, i, at);
    ArriveFrame(l, Arrive(i, at));
    var l' := Do(l, Arrive(i, at));
    var p := if l.rx.started then l.rx else Begun(l.rx, l'.start);
    hide *;
    BegunStarted(l.rx, l'.start);
    FileStarted(p, i, l.cut[i - l.base], at);
    BeginsWhere(l.base, i);
  }

  lemma BeginsWhere(base: int, i: int)
    ensures BeginsAt(base, i) == if i - base < RING / 2 then base else i
  {
  }

  lemma BegunStarted(r: Rx, start: int)
    ensures Begun(r, start).started
  {
  }

  lemma InvRxOk(l: Link)
    requires Inv(l)
    ensures RxOk(l.rx)
  {
  }

  lemma StepStart(l: Link, s: Step)
    requires Inv(l) && Can(l, s)
    ensures Do(l, s).base == l.base && (Do(l, s).rx.started <==> l.rx.started || s.Arrive?)
    ensures l.rx.started ==> Do(l, s).start == l.start
    ensures !l.rx.started && s.Arrive? ==> Do(l, s).start == BeginsAt(l.base, s.i)
  {
    InvRxOk(l);
    hide Inv, RxOk, TxOk, Pulled, Acked, OnLane, Position, Detect, Reorder.Expire, BeginsAt;
    if s.Arrive? { ArriveStarts(l, s.i, s.at); }
    if s.Expire? { ExpireFacts(l.rx, s.at, s.deadline); }
  }

  lemma {:induction false} RunStart(l: Link, steps: seq<Step>)
    requires Inv(l) && Runs(l, steps)
    ensures var e := After(l, steps);
      && e.base == l.base && (e.rx.started <==> l.rx.started || FirstIndex(steps).Some?)
      && (l.rx.started ==> e.start == l.start)
      && (!l.rx.started && e.rx.started ==> e.start == BeginsAt(l.base, FirstIndex(steps).value))
    decreases |steps|
  {
    hide Inv, Can, Do;
    if steps != [] {
      StepStart(l, steps[0]);
      StepKeeps(l, steps[0]);
      RunStart(Do(l, steps[0]), steps[1..]);
    }
  }

  /** In-order delivery. While no hole was given up on, what was handed up is a stretch of the
      pieces cut, byte for byte and without a gap; it begins with the very first piece, or with the
      first to arrive if that is half a window or more past it. */
  lemma DeliversAStretch(l: Link, steps: seq<Step>)
    requires Start(l) && Runs(l, steps) && !After(l, steps).expired
    ensures var e := After(l, steps); e.base == l.base && (e.rx.started <==> FirstIndex(steps).Some?)
    ensures var e := After(l, steps); e.rx.started ==>
      && e.start == BeginsAt(l.base, FirstIndex(steps).value)
      && e.base <= e.start <= e.rx.next <= e.base + |e.cut| && |e.rx.out| == e.rx.next - e.start
      && forall j :: 0 <= j < |e.rx.out| ==> e.rx.out[j] == Piece(e.start + j, e.cut[e.start + j - e.base], false)
  {
    StartHolds(l);
    RunKeeps(l, steps);
    RunStart(l, steps);
  }

  /** Ack soundness, with holes given up on or not: a piece the sender no longer holds was
      buffered, handed up or given up on by the receiver. */
  lemma AckSoundness(l: Link, steps: seq<Step>, i: int)
    requires Start(l) && Runs(l, steps)
    ensures var e := After(l, steps);
      e.base <= i <= e.t.seqNo && i !in e.t.live ==>
        && |e.cut| == e.t.seqNo + 1 - e.base && e.rx.started && (i < e.rx.next || i in e.rx.buf)
        && (i in e.rx.buf ==> e.rx.buf[i].data == e.cut[i - e.base])
  {
    StartHolds(l);
    RunKeeps(l, steps);
  }

  // ---- from frames to frames ----

  /** The pieces cut are the first pieces of the frames kept. */
  ghost predicate FromQueue(l: Link) {
    l.p > 0 && |l.fate| <= |l.enq| && CutFrom(l.cut, Kept(l.enq, l.fate), l.p)
  }

  lemma PullKeepsQueue(l: Link, s: Step)
    requires FromQueue(l) && s.Pull? && CutNext(l, s.news, s.fate')
    ensures CutFrom(l.cut + s.news, Kept(l.enq, s.fate'), l.p)
  {
    var more := KeptGrows(l.enq, l.fate, s.fate');
    CutStable(l.cut, Kept(l.enq, l.fate), more, l.p);
    hide IsPiece, Kept;
    forall n | 0 <= n < |l.cut + s.news| ensures IsPiece(Kept(l.enq, s.fate'), n, l.p, (l.cut + s.news)[n]) {
      if n >= |l.cut| {
        assert IsPiece(Kept(l.enq, s.fate'), |l.cut| + (n - |l.cut|), l.p, s.news[n - |l.cut|]);
      }
    }
  }

  lemma {:induction false} KeptGrows(enq: seq<QFrame>, fate: seq<bool>, fate': seq<bool>) returns (more: seq<Bytes>)
    requires fate <= fate' && |fate'| <= |enq|
    ensures Kept(enq, fate') == Kept(enq, fate) + more
    decreases |fate'|
  {
    more := [];
    if |fate| < |fate'| {
      var n := |fate'| - 1;
      more := KeptGrows(enq, fate, fate'[..n]);
      more := more + if fate'[n] then [enq[n].b] else [];
    } else {
      assert fate == fate';
    }
  }

  lemma StepKeepsQueue(l: Link, s: Step)
    requires FromQueue(l) && Can(l, s)
    ensures FromQueue(Do(l, s))
  {
    hide CutFrom, Kept, Pulled, TxOk, Acked, RxOk, OnLane, Position, Detect;
    if s.Pull? { PullKeepsQueue(l, s); }
    if s.Enqueue? { KeptStable(l.enq, s.f, l.fate); }
  }

  lemma {:induction false} RunKeepsQueue(l: Link, steps: seq<Step>)
    requires FromQueue(l) && Runs(l, steps)
    ensures FromQueue(After(l, steps))
    decreases |steps|
  {
    hide FromQueue, Can, Do;
    if steps != [] {
      StepKeepsQueue(l, steps[0]);
      RunKeepsQueue(Do(l, steps[0]), steps[1..]);
    }
  }

  /** What was handed up arrived from the frames kept. */
  lemma RunArrived(l: Link, steps: seq<Step>)
    requires Start(l) && Runs(l, steps)
    ensures var e := After(l, steps); FromQueue(e) && e.p > 0 && Arrived(e.rx.out, e.base, Kept(e.enq, e.fate), e.p)
  {
    StartHolds(l);
    RunKeeps(l, steps);
    RunKeepsQueue(l, steps);
    hide Inv, Start, Runs, After;
    var e := After(l, steps);
    HeldArrived(e, Kept(e.enq, e.fate), e.p);
  }

  lemma HeldArrived(e: Link, frames: seq<Bytes>, p: nat)
    requires Inv(e) && CutFrom(e.cut, frames, p)
    ensures Arrived(e.rx.out, e.base, frames, p)
  {
    hide IsPiece, SenderInv, Truthful, GapFree;
    if e.rx.started {
      forall j | 0 <= j < |e.rx.out|
        ensures e.rx.out[j].idx >= e.base && IsPiece(frames, e.rx.out[j].idx - e.base, p, e.rx.out[j].data)
      {
        assert IsPiece(frames, e.rx.out[j].idx - e.base, p, e.cut[e.rx.out[j].idx - e.base]);
      }
    }
  }

  /** No spliced frames, end to end: whatever CoDel dropped and whatever holes were given up on,
      the frames handed up are an in-order, byte-for-byte subsequence of the frames enqueued. */
  lemma NoSplicedFrames(l: Link, steps: seq<Step>) returns (ks: seq<int>)
    requires Start(l) && Runs(l, steps)
    ensures Picks(Assemble(After(l, steps).rx.out).up, AllBytes(After(l, steps).enq), ks)
  {
    RunArrived(l, steps);
    hide *;
    var e := After(l, steps);
    var js := NoSplice(e.rx.out, e.base, Kept(e.enq, e.fate), e.p);
    SplicelessPicks(e.rx.out, e.base, Kept(e.enq, e.fate), e.p, js);
    QueueFates(e);
    var ls := KeptPicks(e.enq, e.fate);
    ks := PicksOfPicks(Assemble(e.rx.out).up, Kept(e.enq, e.fate), js, AllBytes(e.enq), ls);
  }

  lemma QueueFates(e: Link)
    requires FromQueue(e)
    ensures |e.fate| <= |e.enq|
  {
  }

  lemma SplicelessPicks(out: seq<Piece>, base: int, frames: seq<Bytes>, p: nat, ks: seq<int>)
    requires Spliceless(out, Assemble(out), base, frames, p, ks)
    ensures Picks(Assemble(out).up, frames, ks)
  {
  }

  lemma PicksOfPicks(up: seq<Bytes>, mid: seq<Bytes>, js: seq<int>, all: seq<Bytes>, ls: seq<int>)
    returns (ks: seq<int>)
    requires Picks(up, mid, js) && Picks(mid, all, ls)
    ensures Picks(up, all, ks)
  {
    ks := seq(|js|, j requires 0 <= j < |js| => ls[js[j]]);
  }

  /** Every frame enqueued was looked at, and every one kept is cut to its end. */
  ghost predicate AllCut(l: Link) {
    |l.fate| == |l.enq| && CutAt(Kept(l.enq, l.fate), |l.cut|, l.p, None, false)
  }

  /** With no drop, no hole given up on and the first arrival less than half a window from the start,
      the frames handed up are exactly the frames enqueued, up to the one the receiver is in the
      middle of; once the queue is cut up and everything arrived, they are all of them. */
  lemma EveryFrameArrives(l: Link, steps: seq<Step>)
    requires Start(l) && Runs(l, steps) && !After(l, steps).expired
    requires forall k :: 0 <= k < |After(l, steps).fate| ==> After(l, steps).fate[k]
    requires FirstIndex(steps).Some? && FirstIndex(steps).value < l.base + RING / 2
    ensures var e := After(l, steps);
      && e.rx.next >= e.base && |e.fate| <= |e.enq| && Kept(e.enq, e.fate) == AllBytes(e.enq)[..|e.fate|]
      && Assemble(e.rx.out) == AllUpTo(Kept(e.enq, e.fate), MarkOf(Kept(e.enq, e.fate), e.rx.next - e.base, e.p))
      && (e.rx.next == e.base + |e.cut| && AllCut(e) ==>
            Assemble(e.rx.out).up == AllBytes(e.enq))
  {
    hide *;
    RunArrived(l, steps);
    QueueFates(After(l, steps));
    DeliversAStretch(l, steps);
    BeginsWhere(l.base, FirstIndex(steps).value);
    AllOfTheStretch(After(l, steps));
  }

  lemma AllOfTheStretch(e: Link)
    requires e.p > 0 && |e.fate| <= |e.enq| && Arrived(e.rx.out, e.base, Kept(e.enq, e.fate), e.p)
    requires forall k :: 0 <= k < |e.fate| ==> e.fate[k]
    requires e.base <= e.rx.next <= e.base + |e.cut| && |e.rx.out| == e.rx.next - e.base
    requires forall j :: 0 <= j < |e.rx.out| ==> e.rx.out[j] == Piece(e.base + j, e.cut[j], false)
    ensures Kept(e.enq, e.fate) == AllBytes(e.enq)[..|e.fate|]
    ensures Assemble(e.rx.out) == AllUpTo(Kept(e.enq, e.fate), MarkOf(Kept(e.enq, e.fate), e.rx.next - e.base, e.p))
    ensures e.rx.next == e.base + |e.cut| && AllCut(e) ==>
      Assemble(e.rx.out).up == AllBytes(e.enq)
  {
    hide Assemble, MarkOf, Arrived;
    NothingLost(e.rx.out, e.base, Kept(e.enq, e.fate), e.p);
    KeptAll(e.enq, e.fate);
    assert AllBytes(e.enq)[..|e.enq|] == AllBytes(e.enq);
  }
}
