/** What an ack that arrives does, in indices and pieces. */
module LinkAcks {
  import opened Seq32
  import opened AckWire
  import opened Reorder
  import opened Acks
  import opened Flight
  import opened Link

  /** The ack speaks of this flight: not more than a ring behind it, and not ahead of it. */
  predicate Timely(l: Link, a: IdxAck) {
    l.t.low - RING <= a.cum <= l.t.seqNo + 1 && l.t.low - RING - 1 <= a.hi <= l.t.seqNo
  }

  lemma AckBounds(l: Link, s: Step)
    requires Inv(l) && s.AckArrives? && Can(l, s)
    ensures TxOk(l.t) && Short(s.a.runs) && WellFormed(s.a) && l.rx.started && l.t.low <= l.rx.next <= l.t.seqNo + 1
    ensures l.t.low - HALF32 + 8 * RING < s.a.cum <= l.t.seqNo + 1 <= l.t.low + RING
    ensures s.a.cum - 1 <= s.a.hi <= l.t.seqNo
  {
    AckIsTruthful(l, s.a);
    hide RxOk, Acked, Detect, Crashes, Accepts, Releases, NewLow;
  }

  lemma AckedMeans(t: Tx, w: IdxAck, mid: Tx, u: Tx, at: int, minRTT: int, rto: int)
    requires TxOk(t) && WellFormed(w) && Short(w.runs) && t.low - HALF32 + 8 * RING < w.cum <= t.seqNo + 1
    requires |t.laneAck| == LANES && Acked(t, mid, Released(t, ToWire(w)), NewLow(t, ToWire(w)), at, minRTT)
    requires TxOk(mid) && Laned(mid) && u == Detect(mid, mid.seqNo + 1, at, rto)
    ensures u.seqNo == t.seqNo && u.low == Max(t.low, w.cum)
    ensures forall i :: i in u.live <==> i in t.live && !(i < w.cum || (i <= w.hi && !InRuns(w.runs, i)))
  {
    InFlightIsNumbered(t);
    SenderRange(mid);
    AheadIs(t.low, w.cum);
    DetectFacts(mid, mid.seqNo + 1, at, rto);
    hide TxOk, Releases, InRuns, WellFormed, Detect, LanesCredited;
    forall i | i in t.live ensures i in mid.live <==> !(i < w.cum || (i <= w.hi && !InRuns(w.runs, i))) {
      ReleasesWhatIsReported(t, w, i);
    }
  }

  /** Any ack that arrives, however old: if it is timely, exactly the pieces it reports leave the flight
      and the low mark moves up to its cumulative mark; if not, nothing changes. */
  lemma AckDoes(l: Link, s: Step)
    requires Inv(l) && s.AckArrives? && Can(l, s)
    ensures Timely(l, s.a) ==>
      && s.t'.seqNo == l.t.seqNo && s.t'.low == Max(l.t.low, s.a.cum)
      && forall i :: i in s.t'.live <==>
           i in l.t.live && !(i < s.a.cum || (i <= s.a.hi && !InRuns(s.a.runs, i)))
    ensures !Timely(l, s.a) ==> s.t' == l.t
  {
    AckBounds(l, s);
    AcceptsExactly(l.t, s.a);
    hide Inv, TxOk, WellFormed, InRuns, Accepts, Released, NewLow, Detect, Crashes;
    if Timely(l, s.a) { AckedMeans(l.t, s.a, s.mid, s.t', s.at, s.minRTT, s.rto); }
  }

  /** An ack of what the receiver has at present is never ignored. It leaves in flight exactly the
      pieces that the receiver does not have and, of a report cut short, those above its top; the low
      mark is then what the receiver waits for. */
  lemma PresentAckReleases(l: Link, s: Step)
    requires Inv(l) && s.AckArrives? && Can(l, s) && Reports(l.rx, s.a)
    ensures s.t'.seqNo == l.t.seqNo && s.t'.low == l.rx.next
    ensures forall i :: i in s.t'.live <==> i in l.t.live && (i > s.a.hi || !Has(l.rx, i))
    ensures |s.a.runs| < ACK_MAX_RUNS ==> forall i :: i in s.t'.live <==> i in l.t.live && !Has(l.rx, i)
  {
    AckBounds(l, s);
    AckDoes(l, s);
    ReportMeans(l.rx, s.a);
    InvRxOk(l);
    HighestSeen(l.rx);
    hide Inv, Can, TxOk, WellFormed, InRuns, Reports, RxOk;
  }

  lemma ReportMeans(r: Rx, a: IdxAck)
    requires Reports(r, a)
    ensures a.cum == r.next && (|a.runs| < ACK_MAX_RUNS ==> a.hi == r.hi)
    ensures forall i :: i <= a.hi ==> ((i < a.cum || !InRuns(a.runs, i)) <==> Has(r, i))
  {
  }

  lemma HighestSeen(r: Rx)
    requires RxOk(r) && r.started
    ensures forall i :: Has(r, i) ==> i <= r.hi || i < r.next
  {
  }

  /** Once everything sent has reached the receiver, the ack that says so ends the flight: nothing is
      left to resend, in every run. */
  lemma LastAckEndsTheFlight(l0: Link, steps: seq<Step>, s: Step)
    requires Start(l0) && Runs(l0, steps) && s.AckArrives? && Can(After(l0, steps), s)
    requires var l := After(l0, steps); Reports(l.rx, s.a) && l.rx.next == l.t.seqNo + 1
    ensures s.t'.live == map[] && s.t'.low == s.t'.seqNo + 1
  {
    StartHolds(l0);
    RunKeeps(l0, steps);
    var l := After(l0, steps);
    InvBounds(l);
    PresentAckReleases(l, s);
    hide Inv, Can, Start, Runs, After, Reports;
    assert forall i :: i !in s.t'.live;
  }
}
