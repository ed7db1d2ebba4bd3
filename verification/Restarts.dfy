/** The link over the restarts of its sender: one receiver, and one run of the link after the other.

    A sender that starts anew cuts new frames under new numbers. The receiver begins anew when the first
    of them comes in outside its window, and marks the gap. */
module Restarts {
  import opened Seq32
  import opened AckWire
  import opened Reorder
  import opened Flight
  import opened Frames
  import opened Link
  import FQ = FrameQueue

  /** The run of one sender, as if the receiver were new. */
  datatype Life = Life(l: Link, steps: seq<Step>)

  // ---- a receiver that goes on where another one ended ----

  function Gapped(out: seq<Piece>): (g: seq<Piece>)
    ensures |g| == |out|
  {
    if out == [] then [] else [out[0].(gap := true)] + out[1..]
  }

  /** `r`, had it handed up `pre` before, and had there been a gap. */
  function Resumed(r: Rx, pre: seq<Piece>): Rx {
    r.(gapNext := r.gapNext || r.out == [], out := pre + Gapped(r.out))
  }

  lemma ResumePop(r: Rx, pre: seq<Piece>)
    requires r.next in r.buf
    ensures PopNext(Resumed(r, pre)) == Resumed(PopNext(r), pre)
  {
    var last := [Piece(r.next, r.buf[r.next].data, r.gapNext)];
    if r.out == [] {
      assert r.out + last == last;
    } else {
      assert Gapped(r.out + last) == Gapped(r.out) + last;
      assert pre + (Gapped(r.out) + last) == pre + Gapped(r.out) + last;
    }
  }

  lemma {:induction false} ResumeDrain(r: Rx, pre: seq<Piece>)
    ensures Drain(Resumed(r, pre)) == Resumed(Drain(r), pre)
    decreases |r.buf|
  {
    if r.next in r.buf {
      assert (r.buf - {r.next}).Keys == r.buf.Keys - {r.next};
      ResumePop(r, pre);
      hide Resumed;
      ResumeDrain(PopNext(r), pre);
    }
  }

  lemma ResumeSkip(r: Rx, s: int, pre: seq<Piece>)
    ensures SkipTo(Resumed(r, pre), s) == Resumed(SkipTo(r, s), pre)
  {
    hide Drain;
    ResumeDrain(if r.next < s then r.(next := s, gapNext := true) else r, pre);
  }

  lemma {:induction false} ResumeGiveUp(r: Rx, i: int, pre: seq<Piece>)
    requires r.next !in r.buf
    ensures GiveUp(Resumed(r, pre), i) == Resumed(GiveUp(r, i), pre)
    decreases i - r.next
  {
    if i - r.next >= RING {
      var s := FirstBuffered(r.buf, r.next, i);
      DrainFacts(r.(next := s, gapNext := true));
      ResumeSkip(r, s, pre);
      hide SkipTo, Drain, Gapped;
      SkipMoves(r, i);
      ResumeGiveUp(SkipTo(r, s), i, pre);
    }
  }

  lemma SkipMoves(r: Rx, i: int)
    requires r.next !in r.buf && i - r.next >= RING
    ensures var g := SkipTo(r, FirstBuffered(r.buf, r.next, i)); g.next > r.next && g.next !in g.buf
  {
    DrainFacts(r.(next := FirstBuffered(r.buf, r.next, i), gapNext := true));
  }

  lemma ResumeFile(r: Rx, i: int, data: Bytes, now: int, pre: seq<Piece>)
    requires r.next !in r.buf
    ensures File(Resumed(r, pre), i, data, now) == Resumed(File(r, i, data, now), pre)
  {
    if i >= r.next {
      ResumeGiveUp(r, i, pre);
      var g := GiveUp(r, i);
      hide GiveUp, Drain, Gapped;
      ResumeDrain(g.(buf := g.buf[i := Entry(data, now)], hi := if g.hi < i then i else g.hi), pre);
    }
  }

  lemma ResumeOk(r: Rx, pre: seq<Piece>)
    requires RxOk(r) && r.started
    ensures RxOk(Resumed(r, pre)) && Resumed(r, pre).started
  {
  }

  lemma {:induction false} ResumeExpire(r: Rx, now: int, deadline: int, pre: seq<Piece>)
    requires RxOk(r) && r.started
    ensures RxOk(Resumed(r, pre))
    ensures Reorder.Expire(Resumed(r, pre), now, deadline) == Resumed(Reorder.Expire(r, now, deadline), pre)
    decreases |r.buf|
  {
    hide SkipTo, Gapped, FirstBuffered;
    ResumeOk(r, pre);
    var low := FirstBuffered(r.buf, r.next, r.next + RING);
    if low in r.buf && now - r.buf[low].at > deadline {
      SkipKeepsOk(r, low);
      ResumeSkip(r, low, pre);
      hide RxOk;
      ResumeExpire(SkipTo(r, low), now, deadline, pre);
    }
  }

  // ---- one life after the other ----

  /** The first index to arrive lies outside the window, and no hole times out before it does. */
  predicate Anew(r: Rx, steps: seq<Step>)
    decreases |steps|
  {
    steps != [] ==>
      if steps[0].Arrive? then !NearWindow(r, Wrap(steps[0].i))
      else !steps[0].Expire? && Anew(r, steps[1..])
  }

  /** `life` is what comes to the receiver `r` next: it is new itself, or it takes the first piece for
      that of a new sender. A hole that times out before belongs to the life before. */
  ghost predicate Follows(r: Rx, life: Life) {
    && RxOk(r) && Start(life.l) && Runs(life.l, life.steps)
    && if r.started then life.l.rx == Rx(false, r.next, r.next - 1, map[], false, []) && Anew(r, life.steps)
       else life.l.rx == r
  }

  /** The receiver takes what arrives in the steps of a run. */
  ghost function Feed(r: Rx, l: Link, steps: seq<Step>): Rx
    requires Runs(l, steps) && Inv(l) && RxOk(r)
    decreases |steps|
  {
    if steps == [] then r
    else
      FeedOk(r, l, steps[0]);
      StepKeeps(l, steps[0]);
      Feed(FeedOne(r, l, steps[0]), Do(l, steps[0]), steps[1..])
  }

  ghost function FeedOne(r: Rx, l: Link, s: Step): Rx
    requires Can(l, s) && Inv(l) && RxOk(r)
  {
    if s.Arrive? then InvRx(l, s.i, s.at); OnLane(r, WireOf(l, s.i), s.at)
    else if s.Expire? then Reorder.Expire(r, s.at, s.deadline)
    else r
  }

  lemma FeedOk(r: Rx, l: Link, s: Step)
    requires Can(l, s) && Inv(l) && RxOk(r)
    ensures RxOk(FeedOne(r, l, s))
  {
    hide Inv, Can, Position, File, RxOk, WireOf;
    if s.Arrive? {
      InvRx(l, s.i, s.at);
      OnLaneOk(r, WireOf(l, s.i), s.at);
    } else if s.Expire? {
      ExpireFacts(r, s.at, s.deadline);
    }
  }

  lemma OnLaneOk(r: Rx, b: Bytes, now: int)
    requires RxOk(r)
    ensures RxOk(OnLane(r, b, now))
  {
    hide Position, File, RxOk, NearWindow;
    if |b| > 9 && b[0] == STRIPE_MAGIC {
      var s, low := Get32(b[1..5]), Get32(b[5..9]);
      PositionOk(r, s, low);
      var p := Position(r, s, low);
      FileKeepsOk(p, Near(p.next, s), b[9..], now);
    }
  }

  /** What any receiver makes of the bytes of a piece. */
  lemma PieceIsPushed(r: Rx, l: Link, i: int, at: int)
    requires Inv(l) && Can(l, Arrive(i, at)) && RxOk(r)
    ensures l.base <= i < l.base + |l.cut| && |l.stamps| == |l.cut|
    ensures FeedOne(r, l, Arrive(i, at)) == Push(r, Wrap(i), Wrap(l.stamps[i - l.base]), l.cut[i - l.base], at)
  {
    InvRx(l, i, at);
    InvSender(l);
    CutNotEmpty(l, i);
    hide Inv, Can, Push, RxOk;
    ArrivalReads(l.(rx := r), i, at);
  }

  lemma SameWindow(r: Rx, pre: seq<Piece>, i: int, low: u32)
    requires r.started && NearWindow(r, Wrap(i))
    ensures Position(Resumed(r, pre), Wrap(i), low) == Resumed(r, pre)
  {
    hide Wrap, Near;
  }

  /** A piece outside the window makes the receiver begin as a new one would, after a gap. */
  lemma OtherWindow(r: Rx, q: Rx, s: u32, low: u32)
    requires r.started && !NearWindow(r, s) && q == Rx(false, r.next, r.next - 1, map[], false, [])
    ensures Position(r, s, low) == Resumed(Position(q, s, low), r.out)
  {
    StartNumbers(q, s, low);
    hide Wrap, Near;
    assert r.out + [] == r.out;
  }

  /** A piece is filed by a receiver that goes on as by a new one. */
  lemma FiledAlike(r: Rx, p: Rx, i: int, low: u32, data: Bytes, at: int, pre: seq<Piece>)
    requires RxOk(r) && RxOk(p) && p.started && Near(p.next, Wrap(i)) == i
    requires Position(r, Wrap(i), low) == Resumed(p, pre)
    ensures Push(r, Wrap(i), low, data, at) == Resumed(File(p, i, data, at), pre)
  {
    ResumeOk(p, pre);
    NextMissing(p);
    hide RxOk, Position, File, Near, Wrap;
    PushIsFile(r, i, low, data, at);
    ResumeFile(p, i, data, at, pre);
  }

  lemma NextMissing(r: Rx)
    requires RxOk(r)
    ensures r.next !in r.buf
  {
  }

  lemma DoArrives(l: Link, i: int, at: int)
    requires Inv(l) && Can(l, Arrive(i, at))
    ensures l.base <= i < l.base + |l.cut| && |l.stamps| == |l.cut|
    ensures var p := Position(l.rx, Wrap(i), Wrap(l.stamps[i - l.base]));
      && RxOk(p) && p.started && Near(p.next, Wrap(i)) == i && NearWindow(p, Wrap(i))
      && (l.rx.started ==> p == l.rx)
      && Do(l, Arrive(i, at)).rx == File(p, i, l.cut[i - l.base], at)
  {
    hide *;
    InvRx(l, i, at);
    ArrivalIsInWindow(l, i, at);
    ArrivalMeans(l, i, at);
    BeginsWhere(l.base, i);
    ArriveStarts(l, i, at);
  }

  /** Once begun, the receiver does what it would do had it been new. */
  lemma FeedResumed(l: Link, s: Step, pre: seq<Piece>)
    requires Inv(l) && Can(l, s) && l.rx.started && RxOk(l.rx) && RxOk(Resumed(l.rx, pre))
    ensures Do(l, s).rx.started && FeedOne(Resumed(l.rx, pre), l, s) == Resumed(Do(l, s).rx, pre)
  {
    hide *;
    StepStart(l, s);
    if s.Arrive? {
      DoArrives(l, s.i, s.at);
      var low := Wrap(l.stamps[s.i - l.base]);
      PieceIsPushed(Resumed(l.rx, pre), l, s.i, s.at);
      SameWindow(l.rx, pre, s.i, low);
      FiledAlike(Resumed(l.rx, pre), l.rx, s.i, low, l.cut[s.i - l.base], s.at, pre);
    } else {
      FeedOther(l, s, pre);
    }
  }

  lemma FeedOther(l: Link, s: Step, pre: seq<Piece>)
    requires Inv(l) && Can(l, s) && l.rx.started && RxOk(l.rx) && RxOk(Resumed(l.rx, pre)) && !s.Arrive?
    ensures FeedOne(Resumed(l.rx, pre), l, s) == Resumed(Do(l, s).rx, pre)
  {
    hide Inv, RxOk, Resumed;
    if s.Expire? { ResumeExpire(l.rx, s.at, s.deadline, pre); }
  }

  /** With the first piece of a new sender the receiver begins anew. */
  lemma FeedFirst(r: Rx, l: Link, s: Step)
    requires Inv(l) && Can(l, s) && s.Arrive? && RxOk(r) && r.started && !NearWindow(r, Wrap(s.i))
    requires l.rx == Rx(false, r.next, r.next - 1, map[], false, [])
    ensures Do(l, s).rx.started && FeedOne(r, l, s) == Resumed(Do(l, s).rx, r.out)
  {
    hide *;
    StepStart(l, s);
    DoArrives(l, s.i, s.at);
    var low := Wrap(l.stamps[s.i - l.base]);
    var p := Position(l.rx, Wrap(s.i), low);
    PieceIsPushed(r, l, s.i, s.at);
    OtherWindow(r, l.rx, Wrap(s.i), low);
    FiledAlike(r, p, s.i, low, l.cut[s.i - l.base], s.at, r.out);
  }

  lemma {:induction false} FeedOn(l: Link, steps: seq<Step>, pre: seq<Piece>)
    requires Inv(l) && Runs(l, steps) && l.rx.started && RxOk(l.rx) && RxOk(Resumed(l.rx, pre))
    ensures Feed(Resumed(l.rx, pre), l, steps) == Resumed(After(l, steps).rx, pre)
    decreases |steps|
  {
    hide Inv, Can, Do, FeedOne, RxOk, Resumed;
    if steps != [] {
      StepKeeps(l, steps[0]);
      FeedResumed(l, steps[0], pre);
      FeedOk(Resumed(l.rx, pre), l, steps[0]);
      InvRxOk(Do(l, steps[0]));
      FeedOn(Do(l, steps[0]), steps[1..], pre);
    }
  }

  /** Before the first piece of the new sender nothing happens to the receiver. */
  lemma FeedIdle(r: Rx, l: Link, s: Step)
    requires Inv(l) && Can(l, s) && RxOk(r) && !l.rx.started && !s.Arrive? && !s.Expire?
    ensures FeedOne(r, l, s) == r && Do(l, s).rx == l.rx
  {
    hide Inv, RxOk;
  }

  /** What the receiver holds and has handed up after a life is what a new one would, behind what was
      handed up before. */
  lemma {:induction false} FeedAnew(r: Rx, l: Link, steps: seq<Step>)
    requires Inv(l) && Runs(l, steps) && RxOk(r) && r.started && Anew(r, steps)
    requires l.rx == Rx(false, r.next, r.next - 1, map[], false, [])
    ensures Feed(r, l, steps) == if FirstIndex(steps).Some? then Resumed(After(l, steps).rx, r.out) else r
    decreases |steps|
  {
    hide Inv, Can, Do, FeedOne, RxOk, Resumed, NearWindow;
    if steps != [] {
      StepKeeps(l, steps[0]);
      InvRxOk(Do(l, steps[0]));
      FeedOk(r, l, steps[0]);
      if steps[0].Arrive? {
        FeedFirst(r, l, steps[0]);
        FeedOn(Do(l, steps[0]), steps[1..], r.out);
      } else {
        FeedIdle(r, l, steps[0]);
        FeedAnew(r, Do(l, steps[0]), steps[1..]);
      }
    }
  }

  /** A receiver that is new is the one of the run. */
  lemma {:induction false} FeedNew(l: Link, steps: seq<Step>)
    requires Inv(l) && Runs(l, steps) && RxOk(l.rx)
    ensures Feed(l.rx, l, steps) == After(l, steps).rx
    decreases |steps|
  {
    hide Inv, Can, Do, FeedOne, RxOk;
    if steps != [] {
      StepKeeps(l, steps[0]);
      FeedSame(l, steps[0]);
      InvRxOk(Do(l, steps[0]));
      FeedNew(Do(l, steps[0]), steps[1..]);
    }
  }

  lemma FeedSame(l: Link, s: Step)
    requires Inv(l) && Can(l, s) && RxOk(l.rx)
    ensures FeedOne(l.rx, l, s) == Do(l, s).rx
  {
    hide Inv, RxOk;
    if s.Arrive? { DoArrive(l, s.i, s.at); }
  }

  // ---- no frame spans two lives ----

  ghost predicate Filled(out: seq<Piece>) { forall j :: 0 <= j < |out| ==> out[j].data != [] }

  lemma AssembleMore(out: seq<Piece>, p: Piece)
    ensures Assemble(out + [p]) == Deliver(Assemble(out), p.data, p.gap)
  {
    assert (out + [p])[..|out|] == out;
  }

  lemma GappedMore(pre: seq<Piece>, out: seq<Piece>, p: Piece)
    requires out != []
    ensures pre + Gapped(out + [p]) == (pre + Gapped(out)) + [p]
  {
  }

  lemma AssembleOne(pre: seq<Piece>, p: Piece)
    requires p.data != []
    ensures Assemble(pre + Gapped([p])) == Asm(Assemble([p]).partial, Assemble(pre).up + Assemble([p]).up)
  {
    AssembleMore(pre, p.(gap := true));
    AssembleMore([], p);
    assert [] + [p] == [p] && Gapped([p]) == [p.(gap := true)];
    assert Assemble([]) == Asm(None, []);
    hide Assemble;
  }

  /** What the pieces of a new life are put together to does not depend on what came before. */
  lemma {:induction false} AssembleResumed(pre: seq<Piece>, out: seq<Piece>)
    requires Filled(out) && out != []
    ensures Assemble(pre + Gapped(out)) == Asm(Assemble(out).partial, Assemble(pre).up + Assemble(out).up)
  {
    hide Assemble, Gapped, Deliver;
    var n := |out| - 1;
    var before, p := out[..n], out[n];
    assert before + [p] == out;
    if n == 0 {
      assert out == [p];
      AssembleOne(pre, p);
    } else {
      AssembleResumed(pre, before);
      GappedMore(pre, before, p);
      AssembleMore(pre + Gapped(before), p);
      AssembleMore(before, p);
      DeliverBehind(Assemble(pre).up, Assemble(before), p);
    }
  }

  lemma DeliverBehind(up: seq<Bytes>, a: Asm, p: Piece)
    ensures var d, e := Deliver(a, p.data, p.gap), Deliver(Asm(a.partial, up + a.up), p.data, p.gap);
      e == Asm(d.partial, up + d.up)
  {
    forall x: Bytes ensures up + (a.up + [x]) == up + a.up + [x] {}
  }

  /** The frames handed up in a life are whole frames of its sender, and its pieces are not empty. */
  lemma LifeSplicesNothing(life: Life) returns (ks: seq<int>)
    requires Start(life.l) && Runs(life.l, life.steps)
    ensures var e := After(life.l, life.steps);
      Filled(e.rx.out) && Picks(Assemble(e.rx.out).up, FQ.AllBytes(e.enq), ks)
  {
    ks := NoSplicedFrames(life.l, life.steps);
    RunArrived(life.l, life.steps);
    hide Start, Runs, After, Assemble;
    var e := After(life.l, life.steps);
    ArrivedFilled(e.rx.out, e.base, FQ.Kept(e.enq, e.fate), e.p);
  }

  lemma ArrivedFilled(out: seq<Piece>, base: int, frames: seq<Bytes>, p: nat)
    requires Arrived(out, base, frames, p)
    ensures Filled(out)
  {
    forall j | 0 <= j < |out| ensures out[j].data != [] {
      assert IsPiece(frames, out[j].idx - base, p, out[j].data);
    }
  }

  lemma FollowsRuns(r: Rx, life: Life)
    requires Follows(r, life)
    ensures RxOk(r) && Start(life.l) && Runs(life.l, life.steps)
    ensures !r.started ==> life.l.rx == r && r.out == []
    ensures r.started ==> life.l.rx == Rx(false, r.next, r.next - 1, map[], false, []) && Anew(r, life.steps)
  {
    hide Start, Runs, Anew;
  }

  /** The receiver after a life. */
  ghost function Fed(r: Rx, life: Life): (f: Rx)
    requires Follows(r, life)
    ensures RxOk(f)
  {
    FollowsRuns(r, life);
    StartHolds(life.l);
    FedOk(r, life.l, life.steps);
    Feed(r, life.l, life.steps)
  }

  lemma {:induction false} FedOk(r: Rx, l: Link, steps: seq<Step>)
    requires Runs(l, steps) && Inv(l) && RxOk(r)
    ensures RxOk(Feed(r, l, steps))
    decreases |steps|
  {
    hide Inv, Can, Do, FeedOne, RxOk;
    if steps != [] {
      FeedOk(r, l, steps[0]);
      StepKeeps(l, steps[0]);
      FedOk(FeedOne(r, l, steps[0]), Do(l, steps[0]), steps[1..]);
    }
  }

  /** Each life comes to the receiver as the one before left it. */
  ghost predicate Lived(lives: seq<Life>, states: seq<Rx>) {
    && |states| == |lives| + 1 && RxOk(states[0]) && !states[0].started
    && forall k :: 0 <= k < |lives| ==> Follows(states[k], lives[k]) && states[k + 1] == Fed(states[k], lives[k])
  }

  /** The frames enqueued in all the lives, one life after the other. */
  ghost function Enqueued(lives: seq<Life>): seq<Bytes>
    requires forall k :: 0 <= k < |lives| ==> Runs(lives[k].l, lives[k].steps)
  {
    if lives == [] then []
    else
      var last := lives[|lives| - 1];
      Enqueued(lives[..|lives| - 1]) + FQ.AllBytes(After(last.l, last.steps).enq)
  }

  lemma PicksBehind(up: seq<Bytes>, all: seq<Bytes>, ks: seq<int>, up': seq<Bytes>, all': seq<Bytes>, ks': seq<int>)
    returns (js: seq<int>)
    requires Picks(up, all, ks) && Picks(up', all', ks')
    ensures Picks(up + up', all + all', js)
  {
    js := ks + seq(|ks'|, j requires 0 <= j < |ks'| => |all| + ks'[j]);
  }

  /** One more life. */
  lemma NextLife(r: Rx, life: Life, all: seq<Bytes>, ks: seq<int>) returns (js: seq<int>)
    requires Follows(r, life) && Picks(Assemble(r.out).up, all, ks)
    ensures Runs(life.l, life.steps)
    ensures Picks(Assemble(Fed(r, life).out).up, all + FQ.AllBytes(After(life.l, life.steps).enq), js)
  {
    hide *;
    FollowsRuns(r, life);
    var e := After(life.l, life.steps);
    var ls := LifeSplicesNothing(life);
    UpAfter(r, life);
    js := PicksBehind(Assemble(r.out).up, all, ks, Assemble(e.rx.out).up, FQ.AllBytes(e.enq), ls);
  }

  /** What is handed up behind what was handed up before is what the new life alone would. */
  lemma UpAfter(r: Rx, life: Life)
    requires Follows(r, life)
    ensures Runs(life.l, life.steps)
    ensures Assemble(Fed(r, life).out).up == Assemble(r.out).up + Assemble(After(life.l, life.steps).rx.out).up
  {
    hide *;
    FollowsRuns(r, life);
    StartHolds(life.l);
    FedIs(r, life);
    var l, steps := life.l, life.steps;
    var e := After(l, steps);
    RunKeeps(l, steps);
    InvRxOk(e);
    NothingUp();
    if !r.started {
      FeedNew(l, steps);
    } else {
      FeedAnew(r, l, steps);
      RunStart(l, steps);
      if FirstIndex(steps).Some? {
        ResumeOk(e.rx, r.out);
        var ks := LifeSplicesNothing(life);
        ResumedOut(e.rx, r.out);
        if e.rx.out != [] { AssembleResumed(r.out, e.rx.out); }
      } else {
        UnstartedIsEmpty(e.rx);
      }
    }
  }

  lemma FedIs(r: Rx, life: Life)
    requires Follows(r, life)
    ensures RxOk(r) && Inv(life.l) && Runs(life.l, life.steps) && Fed(r, life) == Feed(r, life.l, life.steps)
  {
    FollowsRuns(r, life);
    StartHolds(life.l);
    hide Follows, Inv, RxOk, Feed;
  }

  lemma NothingUp()
    ensures Assemble([]).up == []
  {
  }

  lemma ResumedOut(r: Rx, pre: seq<Piece>)
    ensures Resumed(r, pre).out == pre + Gapped(r.out) && (r.out == [] ==> Resumed(r, pre).out == pre)
  {
  }

  lemma UnstartedIsEmpty(r: Rx)
    requires RxOk(r) && !r.started
    ensures r.out == []
  {
  }

  /** No spliced frames over any number of sender restarts: what the receiver hands up are whole frames,
      an in-order, byte-for-byte subsequence of those enqueued in all the lives, one after the other. */
  lemma {:induction false} NoSpliceOverRestarts(lives: seq<Life>, states: seq<Rx>) returns (ks: seq<int>)
    requires Lived(lives, states)
    ensures |states| == |lives| + 1 && forall k :: 0 <= k < |lives| ==> Runs(lives[k].l, lives[k].steps)
    ensures Picks(Assemble(states[|lives|].out).up, Enqueued(lives), ks)
    decreases |lives|
  {
    hide Follows, Inv, Assemble, RxOk, Fed;
    forall k | 0 <= k < |lives| ensures Runs(lives[k].l, lives[k].steps) { FollowsRuns(states[k], lives[k]); }
    if lives == [] {
      UnstartedIsEmpty(states[0]);
      NothingUp();
      ks := [];
    } else {
      var n := |lives| - 1;
      var js := NoSpliceOverRestarts(lives[..n], states[..n + 1]);
      ks := NextLife(states[n], lives[n], Enqueued(lives[..n]), js);
    }
  }
}
