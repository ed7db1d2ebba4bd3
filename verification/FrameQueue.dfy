/** The sender's queue of new frames: CoDel (section 5 of RFC 8289) drops at its head, the cutter
    takes the frames that are left apart into pieces. */
module FrameQueue {
  import opened Seq32
  import opened Frames

  /** `control` is how long after a drop the next one may come, by the drop count. */
  datatype Conf = Conf(piece: nat, target: int, interval: int, limit: nat, control: int -> int)

  datatype Codel = Codel(firstAbove: Option<int>, dropping: bool, dropNext: int, count: int)

  const QUIET: Codel := Codel(None, false, 0, 0)

  /** One look at the head of the queue: a frame that waited `sojourn` with `left` bytes behind
      it, or nothing there. */
  datatype Obs = Seen(now: int, sojourn: int, left: int) | RanDry

  predicate Above(cf: Conf, o: Obs) {
    o.Seen? && o.sojourn >= cf.target && o.left >= 2 * cf.piece
  }

  /** Whether the wait has lasted long enough, and the new `firstAbove`. */
  function Judge(cf: Conf, c: Codel, o: Obs): (Option<int>, bool)
    requires o.Seen?
  {
    if o.sojourn < cf.target || o.left < 2 * cf.piece then (None, false)
    else if c.firstAbove.None? then (Some(o.now + cf.interval), false)
    else (c.firstAbove, o.now >= c.firstAbove.value)
  }

  function ShouldDrop(cf: Conf, c: Codel, o: Obs): (Codel, bool)
    requires o.Seen?
  {
    var (first, ok) := Judge(cf, c, o);
    var c1 := c.(firstAbove := first);
    if c.dropping then
      if !ok then (c1.(dropping := false), false)
      else if o.now >= c.dropNext then
        (c1.(count := c.count + 1, dropNext := c.dropNext + cf.control(c.count + 1)), true)
      else (c1, false)
    else if ok then
      var count := if c.count > 2 && o.now - c.dropNext < 16 * cf.interval then c.count - 2 else 1;
      (c1.(dropping := true, count := count, dropNext := o.now + cf.control(count)), true)
    else (c1, false)
  }

  /** The state after a history of looks at the queue. */
  function After(cf: Conf, obs: seq<Obs>): Codel {
    if obs == [] then QUIET
    else
      var c, o := After(cf, obs[..|obs| - 1]), obs[|obs| - 1];
      if o.Seen? then ShouldDrop(cf, c, o).0 else c.(firstAbove := None, dropping := false)
  }

  predicate Dropped(cf: Conf, obs: seq<Obs>, k: nat)
    requires k < |obs|
  {
    obs[k].Seen? && ShouldDrop(cf, After(cf, obs[..k]), obs[k]).1
  }

  /** Where the unbroken stretch of long waits that ends at `|obs| - 1` began. */
  function StreakStart(cf: Conf, obs: seq<Obs>): (s: nat)
    requires obs != [] && Above(cf, obs[|obs| - 1])
    ensures s < |obs| && (forall j :: s <= j < |obs| ==> Above(cf, obs[j]))
    ensures s > 0 ==> !Above(cf, obs[s - 1])
  {
    var before := obs[..|obs| - 1];
    if before != [] && Above(cf, before[|before| - 1]) then StreakStart(cf, before) else |obs| - 1
  }

  /** `firstAbove` remembers when the present stretch of long waits will have lasted an interval. */
  lemma {:induction false} FirstAboveIsStreak(cf: Conf, obs: seq<Obs>)
    ensures After(cf, obs).firstAbove ==
      if obs != [] && Above(cf, obs[|obs| - 1]) then Some(obs[StreakStart(cf, obs)].now + cf.interval) else None
  {
    if obs != [] {
      var before := obs[..|obs| - 1];
      FirstAboveIsStreak(cf, before);
      if Above(cf, obs[|obs| - 1]) && before != [] && Above(cf, before[|before| - 1]) {
        assert obs[StreakStart(cf, obs)] == before[StreakStart(cf, before)];
      }
    }
  }

  /** A frame is dropped exactly when every look since some earlier one found a long wait with two
      pieces' bytes still queued, that stretch has lasted a full interval, and, while dropping,
      the next drop is due. */
  lemma DropExactly(cf: Conf, obs: seq<Obs>, k: nat)
    requires k < |obs| && obs[k].Seen?
    ensures Dropped(cf, obs, k) <==>
      && Above(cf, obs[k])
      && (var s := StreakStart(cf, obs[..k + 1]);
          s < k && obs[k].now >= obs[s].now + cf.interval)
      && (After(cf, obs[..k]).dropping ==> obs[k].now >= After(cf, obs[..k]).dropNext)
  {
    var upto := obs[..k + 1];
    assert upto[..k] == obs[..k];
    FirstAboveIsStreak(cf, obs[..k]);
    if Above(cf, obs[k]) && k > 0 && Above(cf, obs[k - 1]) {
      assert obs[..k][|obs[..k]| - 1] == obs[k - 1];
      assert StreakStart(cf, upto) == StreakStart(cf, obs[..k]);
    }
  }

  // ---- the queue ----

  datatype QFrame = QFrame(b: Bytes, at: int)

  function Total(q: seq<QFrame>): (n: nat) {
    if q == [] then 0 else |q[0].b| + Total(q[1..])
  }

  lemma {:induction false} TotalAppend(q: seq<QFrame>, f: QFrame)
    ensures Total(q + [f]) == Total(q) + |f.b|
  {
    if q != [] {
      TotalAppend(q[1..], f);
      assert (q + [f])[1..] == q[1..] + [f];
    }
  }

  /** The frames of `enq` that were not dropped, among the first `|fate|` looked at. */
  function Kept(enq: seq<QFrame>, fate: seq<bool>): seq<Bytes>
    requires |fate| <= |enq|
  {
    if fate == [] then []
    else
      var n := |fate| - 1;
      Kept(enq, fate[..n]) + if fate[n] then [enq[n].b] else []
  }

  lemma {:induction false} KeptStable(enq: seq<QFrame>, f: QFrame, fate: seq<bool>)
    requires |fate| <= |enq|
    ensures Kept(enq + [f], fate) == Kept(enq, fate)
  {
    if fate != [] { KeptStable(enq, f, fate[..|fate| - 1]); }
  }

  function AllBytes(enq: seq<QFrame>): (fs: seq<Bytes>)
    ensures |fs| == |enq|
  {
    seq(|enq|, i requires 0 <= i < |enq| => enq[i].b)
  }

  /** What is kept is a subsequence of what was enqueued. */
  lemma {:induction false} KeptPicks(enq: seq<QFrame>, fate: seq<bool>) returns (ks: seq<int>)
    requires |fate| <= |enq|
    ensures Picks(Kept(enq, fate), AllBytes(enq), ks) && AllBelow(ks, |fate|)
  {
    ks := [];
    if fate != [] {
      var n := |fate| - 1;
      ks := KeptPicks(enq, fate[..n]);
      if fate[n] {
        PicksMore(Kept(enq, fate[..n]), AllBytes(enq), ks, n);
        ks := ks + [n];
      }
    }
  }

  /** With no drop, what is kept is all that was looked at. */
  lemma {:induction false} KeptAll(enq: seq<QFrame>, fate: seq<bool>)
    requires |fate| <= |enq| && forall i :: 0 <= i < |fate| ==> fate[i]
    ensures Kept(enq, fate) == AllBytes(enq)[..|fate|]
  {
    if fate != [] { KeptAll(enq, fate[..|fate| - 1]); }
  }

  /** Every look at a frame decided its fate, in order, by the CoDel rule. */
  ghost predicate Decided(cf: Conf, obs: seq<Obs>, fate: seq<bool>) {
    if obs == [] then fate == []
    else
      var n := |obs| - 1;
      if obs[n].RanDry? then Decided(cf, obs[..n], fate)
      else fate != [] && fate[|fate| - 1] == !Dropped(cf, obs, n) && Decided(cf, obs[..n], fate[..|fate| - 1])
  }

  lemma LookedInVain(cf: Conf, obs: seq<Obs>, fate: seq<bool>)
    ensures After(cf, obs + [RanDry]) == After(cf, obs).(firstAbove := None, dropping := false)
    ensures Decided(cf, obs + [RanDry], fate) <==> Decided(cf, obs, fate)
  {
    assert (obs + [RanDry])[..|obs|] == obs;
  }

  /** The piece being cut: what is left of the last frame taken. */
  ghost predicate CutAt(frames: seq<Bytes>, n: nat, p: nat, cur: Option<Bytes>, started: bool) {
    var m := MarkOf(frames, n, p);
    if cur.None? then m == Mark(|frames|, 0)
    else m.k == |frames| - 1 && cur.value == frames[m.k][m.from..] && (started <==> m.from > 0)
  }

  class FrameQueue {
    const cf: Conf
    var queue: seq<QFrame>
    var queueBytes: int
    var cur: Option<Bytes>
    var curStarted: bool
    var codel: Codel

    ghost var enq: seq<QFrame>   // every frame accepted
    ghost var fate: seq<bool>    // of the frames looked at: kept or dropped
    ghost var obs: seq<Obs>      // every look at the queue
    ghost var pieces: seq<Bytes> // every piece cut

    /** Frames are conserved: each one accepted is still queued, dropped by the CoDel rule, or
        handed to the cutter, whole and in order. */
    ghost predicate Valid()
      reads this
    {
      && cf.piece > 0
      && |fate| <= |enq| && enq[|fate|..] == queue
      && queueBytes == Total(queue) && queueBytes <= cf.limit
      && codel == After(cf, obs) && Decided(cf, obs, fate)
      && CutFrom(pieces, Kept(enq, fate), cf.piece)
      && CutAt(Kept(enq, fate), |pieces|, cf.piece, cur, curStarted)
    }

    constructor (cf: Conf)
      requires cf.piece > 0
      ensures Valid() && this.cf == cf && enq == [] && pieces == []
    {
      this.cf := cf;
      queue, queueBytes, cur, curStarted, codel := [], 0, None, false, QUIET;
      enq, fate, obs, pieces := [], [], [], [];
    }

    method Enqueue(b: Bytes, now: int) returns (ok: bool)
      requires Valid()
      modifies this`queue, this`queueBytes, this`enq
      ensures Valid() && ok == (old(queueBytes) + |b| <= cf.limit)
      ensures enq == if ok then old(enq) + [QFrame(b, now)] else old(enq)
    {
      if queueBytes + |b| > cf.limit {
        return false;
      }
      KeptStable(enq, QFrame(b, now), fate);
      TotalAppend(queue, QFrame(b, now));
      queue := queue + [QFrame(b, now)];
      queueBytes := queueBytes + |b|;
      enq := enq + [QFrame(b, now)];
      return true;
    }

    /** Look at the head: keep it or drop it. */
    method TakeHead(now: int) returns (f: Bytes, drop: bool)
      requires Valid() && queue != [] && cur.None?
      modifies this`queue, this`queueBytes, this`codel, this`fate, this`obs
      ensures cf.piece > 0 && |fate| <= |enq| && enq[|fate|..] == queue && |queue| == |old(queue)| - 1
      ensures queueBytes == Total(queue) && queueBytes <= cf.limit
      ensures codel == After(cf, obs) && Decided(cf, obs, fate)
      ensures fate == old(fate) + [!drop] && enq[|old(fate)|].b == f
      ensures Kept(enq, fate) == Kept(enq, old(fate)) + if drop then [] else [f]
    {
      var q := queue[0];
      queue := queue[1..];
      queueBytes := queueBytes - |q.b|;
      var o := Seen(now, now - q.at, queueBytes);
      var (c, d) := ShouldDrop(cf, codel, o);
      assert (obs + [o])[..|obs|] == obs;
      assert (fate + [!d])[..|fate|] == fate;
      codel, drop, f := c, d, q.b;
      obs, fate := obs + [o], fate + [!d];
    }

    /** The oldest frame CoDel lets through. */
    method Dequeue(now: int) returns (f: Option<Bytes>)
      requires Valid() && cur.None?
      modifies this`queue, this`queueBytes, this`codel, this`fate, this`obs
      ensures f.None? ==> Valid() && queue == []
      ensures f.Some? ==> fate != [] && fate[|fate| - 1] && |fate| <= |enq| && enq[|fate| - 1].b == f.value
      ensures cf.piece > 0 && |fate| <= |enq| && enq[|fate|..] == queue
      ensures queueBytes == Total(queue) && queueBytes <= cf.limit
      ensures codel == After(cf, obs) && Decided(cf, obs, fate)
      ensures Kept(enq, fate) == Kept(enq, old(fate)) + if f.Some? then [f.value] else []
      ensures old(fate) <= fate
    {
      hide MarkOf, CutFrom, CutAt, Kept, Decided, After, Total;
      while |queue| > 0
        invariant Valid() && old(fate) <= fate
        invariant Kept(enq, fate) == Kept(enq, old(fate)) + []
        decreases |queue|
      {
        var b, drop := TakeHead(now);
        if !drop {
          return Some(b);
        }
      }
      codel := codel.(firstAbove := None, dropping := false);
      LookedInVain(cf, obs, fate);
      obs := obs + [RanDry];
      return None;
    }

    /** Cut the next piece off the queue. */
    method NextPiece(now: int) returns (b: Option<Bytes>)
      requires Valid()
      modifies this`queue, this`queueBytes, this`codel, this`fate, this`obs, this`cur, this`curStarted, this`pieces
      ensures Valid() && old(fate) <= fate
      ensures pieces == old(pieces) + if b.Some? then [b.value] else []
      ensures b.None? ==> queue == [] && cur.None?
      ensures b.Some? ==> 1 <= |b.value| <= 1 + cf.piece && (IsMore(b.value[0]) ==> |b.value| == 1 + cf.piece)
    {
      hide MarkOf, Decided, After, Total, Kept, CutFrom, CutAt;
      if cur.None? {
        ghost var frames := Kept(enq, fate);
        var f := Dequeue(now);
        if f.None? {
          return None;
        }
        TakenUp(frames, f.value, curStarted);
        cur, curStarted := f, false;
      }
      b := CutOff();
    }

    lemma TakenUp(frames: seq<Bytes>, f: Bytes, was: bool)
      requires CutFrom(pieces, frames, cf.piece) && CutAt(frames, |pieces|, cf.piece, None, was)
      ensures CutFrom(pieces, frames + [f], cf.piece)
      ensures CutAt(frames + [f], |pieces|, cf.piece, Some(f), false)
    {
      CutStable(pieces, frames, [f], cf.piece);
      if |pieces| > 0 {
        assert IsPiece(frames, |pieces| - 1, cf.piece, pieces[|pieces| - 1]);
      }
      MarkStable(frames, [f], |pieces|, cf.piece);
    }

    /** Cut a piece off the frame in hand. */
    method CutOff() returns (b: Option<Bytes>)
      requires Valid() && cur.Some?
      modifies this`cur, this`curStarted, this`pieces
      ensures Valid() && b.Some? && pieces == old(pieces) + [b.value] && 1 <= |b.value| <= 1 + cf.piece
      ensures IsMore(b.value[0]) ==> |b.value| == 1 + cf.piece
    {
      hide MarkOf, Decided, After, Total, Kept, CutFrom, CutAt, Flag, IsMore;
      CutAhead(pieces, Kept(enq, fate), cf.piece, cur.value, curStarted);
      var rest := cur.value;
      var n := |rest|;
      if n > cf.piece {
        n := cf.piece;
      }
      var flag := Flag(curStarted, n < |rest|);
      var piece := [flag] + rest[..n];
      curStarted := true;
      cur := if n == |rest| then None else Some(rest[n..]);
      pieces := pieces + [piece];
      return Some(piece);
    }
  }

  /** Cutting up to `p` bytes off what is left of a frame cuts the next piece. */
  lemma CutAhead(pieces: seq<Bytes>, frames: seq<Bytes>, p: nat, rest: Bytes, started: bool)
    requires p > 0 && CutFrom(pieces, frames, p) && CutAt(frames, |pieces|, p, Some(rest), started)
    ensures var n := if |rest| > p then p else |rest|;
      var piece := [Flag(started, n < |rest|)] + rest[..n];
      && CutFrom(pieces + [piece], frames, p)
      && CutAt(frames, |pieces| + 1, p, if n == |rest| then None else Some(rest[n..]), true)
      && (IsMore(piece[0]) ==> |piece| == 1 + p)
  {
    var n := if |rest| > p then p else |rest|;
    var m := MarkOf(frames, |pieces|, p);
    var piece := [Flag(started, n < |rest|)] + rest[..n];
    assert piece == PieceAt(frames, m, p);
    CutOne(pieces, frames, p);
    hide CutFrom, MarkOf;
  }

  /** After one more piece the mark has moved past it. */
  lemma CutOne(pieces: seq<Bytes>, frames: seq<Bytes>, p: nat)
    requires CutFrom(pieces, frames, p) && MarkOf(frames, |pieces|, p).k < |frames|
    ensures var m := MarkOf(frames, |pieces|, p);
      && CutFrom(pieces + [PieceAt(frames, m, p)], frames, p)
      && MarkOf(frames, |pieces| + 1, p) == NextMark(frames, m, p)
  {
    MarkSucc(frames, |pieces|, p);
  }
}
