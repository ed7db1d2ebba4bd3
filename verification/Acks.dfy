/** What an ack means, in indices: everything below `cum` has arrived or was given up on, and of
    `cum..hi` everything has arrived except the listed runs. */
module Acks {
  import opened Seq32
  import opened BigEndian
  import opened AckWire
  import opened Reorder

  datatype Gap = Gap(start: int, end: int)
  datatype IdxAck = IdxAck(cum: int, hi: int, runs: seq<Gap>)

  ghost predicate InRuns(runs: seq<Gap>, x: int) {
    exists j :: 0 <= j < |runs| && runs[j].start <= x < runs[j].end
  }

  /** Runs are sorted, non-empty, inside [cum, hi] and short enough for the wire. */
  ghost predicate WellFormed(a: IdxAck) {
    && a.cum - 1 <= a.hi < a.cum + RING
    && |a.runs| <= ACK_MAX_RUNS
    && (forall j :: 0 <= j < |a.runs| ==> a.cum <= a.runs[j].start < a.runs[j].end <= a.hi)
    && (forall j, k :: 0 <= j < k < |a.runs| ==> a.runs[j].end < a.runs[k].start)
  }

  /** The ack reports exactly what the receiver has up to `hi`, and stops short of the highest
      piece only when the runs are used up. */
  ghost predicate Reports(r: Rx, a: IdxAck) {
    && WellFormed(a)
    && a.cum == r.next
    && (forall x :: a.cum <= x <= a.hi ==> (x in r.buf <==> !InRuns(a.runs, x)))
    && (a.hi == r.next - 1 || a.hi in r.buf)
    && (a.hi == r.hi || (|a.runs| == ACK_MAX_RUNS && a.hi < r.hi && a.hi + 1 !in r.buf))
  }

  predicate Short(runs: seq<Gap>) {
    forall j :: 0 <= j < |runs| ==> 0 <= runs[j].end - runs[j].start < 65536
  }

  function WireRuns(runs: seq<Gap>): (w: seq<Run>)
    requires Short(runs)
    ensures |w| == |runs|
    ensures forall j :: 0 <= j < |runs| ==> w[j] == Run(Wrap(runs[j].start), runs[j].end - runs[j].start)
  {
    seq(|runs|, j requires 0 <= j < |runs| => Run(Wrap(runs[j].start), runs[j].end - runs[j].start))
  }

  function ToWire(a: IdxAck): Ack
    requires Short(a.runs)
  {
    Ack(Wrap(a.cum), Wrap(a.hi), WireRuns(a.runs))
  }

  lemma EncodeRunsAppend(runs: seq<Gap>, g: Gap)
    requires Short(runs) && 0 <= g.end - g.start < 65536
    ensures EncodeRuns(WireRuns(runs + [g]))
         == EncodeRuns(WireRuns(runs)) + Put(Wrap(g.start), 4) + Put(g.end - g.start, 2)
  {
    hide Wrap, Put;
    var w := WireRuns(runs + [g]);
    assert w[..|runs|] == WireRuns(runs);
  }

  lemma InRunsAppend(runs: seq<Gap>, g: Gap)
    ensures forall x :: InRuns(runs + [g], x) <==> InRuns(runs, x) || g.start <= x < g.end
  {
    var more := runs + [g];
    forall x ensures InRuns(more, x) <==> InRuns(runs, x) || g.start <= x < g.end {
      if InRuns(more, x) {
        var j :| 0 <= j < |more| && more[j].start <= x < more[j].end;
        if j < |runs| { assert runs[j].start <= x < runs[j].end; }
      }
      if InRuns(runs, x) {
        var j :| 0 <= j < |runs| && runs[j].start <= x < runs[j].end;
        assert more[j] == runs[j];
      }
      if g.start <= x < g.end { assert more[|runs|] == g; }
    }
  }

  /** The runs found while scanning [r.next, i): they account for every index passed. */
  ghost predicate Listed(r: Rx, runs: seq<Gap>, i: int) {
    && (forall j :: 0 <= j < |runs| ==> r.next <= runs[j].start < runs[j].end <= i && runs[j].end in r.buf)
    && (forall j, k :: 0 <= j < k < |runs| ==> runs[j].end < runs[k].start)
    && (forall x :: r.next <= x < i ==> (x in r.buf <==> !InRuns(runs, x)))
  }

  lemma ListedBuffered(r: Rx, runs: seq<Gap>, i: int)
    requires Listed(r, runs, i) && i in r.buf
    ensures Listed(r, runs, i + 1)
  {
  }

  lemma ListedAppend(r: Rx, runs: seq<Gap>, from: int, i: int)
    requires Listed(r, runs, from) && r.next <= from < i && i in r.buf
    requires forall x :: from <= x < i ==> x !in r.buf
    ensures Listed(r, runs + [Gap(from, i)], i)
  {
    InRunsAppend(runs, Gap(from, i));
  }

  /** The state of the scan: `n` runs found below `i`, already encoded in `body`. */
  ghost predicate Scanned(r: Rx, n: int, body: Bytes, runs: seq<Gap>, i: int) {
    && n == |runs| <= ACK_MAX_RUNS
    && Short(runs) && body == EncodeRuns(WireRuns(runs))
    && Listed(r, runs, i)
  }

  lemma ScannedStart(r: Rx)
    ensures Scanned(r, 0, [], [], r.next)
  {
  }

  lemma ScannedBuffered(r: Rx, n: int, body: Bytes, runs: seq<Gap>, i: int)
    requires Scanned(r, n, body, runs, i) && i in r.buf
    ensures Scanned(r, n, body, runs, i + 1)
  {
    ListedBuffered(r, runs, i);
  }

  lemma ScannedRun(r: Rx, n: int, body: Bytes, runs: seq<Gap>, from: int, i: int, s: u32, e: u32)
    requires Scanned(r, n, body, runs, from) && n < ACK_MAX_RUNS
    requires RxOk(r) && r.started && s == Wrap(from) && e == Wrap(i)
    requires r.next <= from < i <= r.hi && i in r.buf && forall x :: from <= x < i ==> x !in r.buf
    ensures Scanned(r, n + 1, body + Put(s, 4) + Put((e - s) % TWO32, 2), runs + [Gap(from, i)], i)
  {
    hide Wrap, Put;
    UnsignedDistance(i, from);
    EncodeRunsAppend(runs, Gap(from, i));
    ListedAppend(r, runs, from, i);
  }

  lemma ScannedReports(r: Rx, n: int, body: Bytes, runs: seq<Gap>, i: int, end: int)
    requires Scanned(r, n, body, runs, i) && RxOk(r) && r.started && r.next <= i
    requires (end == r.hi && (i == end || (end < i && i == r.next)))
          || (i !in r.buf && n == ACK_MAX_RUNS && i < r.hi && end == i - 1)
    ensures Reports(r, IdxAck(r.next, end, runs))
    ensures n == |runs| <= ACK_MAX_RUNS && Short(runs) && body == EncodeRuns(WireRuns(runs))
  {
    if end != r.hi { LastOfRuns(r, runs, i); }
    ListedReports(r, runs, end);
  }

  /** Where a scan stops for want of runs, the index before is buffered. */
  lemma LastOfRuns(r: Rx, runs: seq<Gap>, i: int)
    requires Listed(r, runs, i) && runs != [] && i !in r.buf
    ensures i - 1 >= r.next && i - 1 in r.buf && Listed(r, runs, i - 1)
  {
    var last := runs[|runs| - 1];
    forall j | 0 <= j < |runs| ensures runs[j].end <= i - 1 {
      assert j < |runs| - 1 ==> runs[j].end < last.start;
    }
    assert !InRuns(runs, i - 1);
  }

  /** A finished scan is an ack that reports the receiver's state. */
  lemma ListedReports(r: Rx, runs: seq<Gap>, hi: int)
    requires RxOk(r) && r.started && |runs| <= ACK_MAX_RUNS
    requires hi == r.next - 1 || (hi >= r.next && hi in r.buf)
    requires Listed(r, runs, if hi < r.next then r.next else hi)
    requires hi == r.hi || (|runs| == ACK_MAX_RUNS && hi < r.hi && hi + 1 !in r.buf)
    ensures Reports(r, IdxAck(r.next, hi, runs))
  {
  }

  /** Every listed run is maximal: its neighbours on both sides have arrived. */
  lemma RunsAreMaximal(r: Rx, a: IdxAck, j: nat)
    requires RxOk(r) && Reports(r, a) && j < |a.runs|
    ensures a.runs[j].end in r.buf
    ensures a.runs[j].start == r.next || a.runs[j].start - 1 in r.buf
    ensures forall x :: a.runs[j].start <= x < a.runs[j].end ==> x !in r.buf
  {
    var g := a.runs[j];
    assert !InRuns(a.runs, g.end);
    assert g.start > r.next ==> !InRuns(a.runs, g.start - 1);
    forall x | g.start <= x < g.end ensures x !in r.buf { assert InRuns(a.runs, x); }
  }
}
