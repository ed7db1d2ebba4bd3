/** The receiving half of the striped link: a buffer that puts pieces back in order.

    `Rx` is the reference: an unbounded-index map of the buffered pieces. `ReorderBuffer` is
    the ring of slots indexed by wrapped numbers; each of its methods computes the
    corresponding function of `Rx`, for every input. */
module Reorder {
  import opened Seq32

  datatype Entry = Entry(data: Bytes, at: int)

  /** A piece handed up; `gap` says that numbers were skipped just before it. */
  datatype Piece = Piece(idx: int, data: Bytes, gap: bool)

  /** `next` is the lowest index still missing, `hi` the highest seen. Before the first
      piece (`!started`), `next` is only a reference point for reading wrapped numbers. */
  datatype Rx = Rx(started: bool, next: int, hi: int, buf: map<int, Entry>, gapNext: bool, out: seq<Piece>)

  function FirstBuffered(buf: map<int, Entry>, from: int, limit: int): (r: int)
    requires from <= limit
    ensures from <= r <= limit
    ensures forall j :: from <= j < r ==> j !in buf
    ensures r < limit ==> r in buf
    decreases limit - from
  {
    if from == limit || from in buf then from else FirstBuffered(buf, from + 1, limit)
  }

  lemma FirstBufferedIs(buf: map<int, Entry>, from: int, limit: int, i: int)
    requires from <= i <= limit && (i < limit ==> i in buf)
    requires forall j :: from <= j < i ==> j !in buf
    ensures FirstBuffered(buf, from, limit) == i
  {
  }

  function PopNext(r: Rx): Rx
    requires r.next in r.buf
  {
    r.(next := r.next + 1, buf := r.buf - {r.next}, gapNext := false,
       out := r.out + [Piece(r.next, r.buf[r.next].data, r.gapNext)])
  }

  function Drain(r: Rx): Rx
    decreases |r.buf|
  {
    if r.next in r.buf then
      assert (r.buf - {r.next}).Keys == r.buf.Keys - {r.next};
      Drain(PopNext(r))
    else r
  }

  function SkipTo(r: Rx, s: int): Rx {
    Drain(if r.next < s then r.(next := s, gapNext := true) else r)
  }

  /** Begin at the sender's low mark if the piece is within half a window of it. */
  function StartAt(r: Rx, s: u32, low: u32): Rx {
    var i := Near(r.next, s);
    var d := (s - low) % TWO32;
    var next := if d < RING / 2 then i - d else i;
    r.(started := true, next := next, hi := next - 1)
  }

  lemma StartNumbers(r: Rx, s: u32, low: u32)
    ensures var b := StartAt(r, s, low);
      && Wrap(b.next) == (if (s - low) % TWO32 < RING / 2 then low else s)
      && Wrap(b.hi) == Pred(Wrap(b.next))
      && 0 <= Near(b.next, s) - b.next < RING / 2
      && (Near(b.next, s) == b.next || Near(b.next, s) - b.next == (s - low) % TWO32)
  {
    var i := Near(r.next, s);
    NearIsNear(r.next, s);
    WrapBack(i, low);
    var b := StartAt(r, s, low);
    SuccPred(b.next);
    NearRecovers(b.next, i);
  }

  /** Make room for `i`: give up on the oldest holes until it fits the window. */
  function GiveUp(r: Rx, i: int): Rx
    requires r.next !in r.buf
    decreases i - r.next
  {
    if i - r.next < RING then r
    else
      DrainFacts(r.(next := FirstBuffered(r.buf, r.next, i), gapNext := true));
      GiveUp(SkipTo(r, FirstBuffered(r.buf, r.next, i)), i)
  }

  function File(r: Rx, i: int, data: Bytes, now: int): Rx
    requires r.next !in r.buf
  {
    if i < r.next then r
    else
      var g := GiveUp(r, i);
      if i in g.buf then g
      else Drain(g.(buf := g.buf[i := Entry(data, now)], hi := if g.hi < i then i else g.hi))
  }

  predicate NearWindow(r: Rx, s: u32) { -RING <= Near(r.next, s) - r.next < 2 * RING }

  function Restart(r: Rx, s: u32, low: u32): Rx {
    StartAt(r.(buf := map[], gapNext := true), s, low)
  }

  /** The state in which a piece is filed: the stream begun, or begun anew if the number is
      nowhere near the window (the sender restarted). */
  function Position(r: Rx, s: u32, low: u32): Rx {
    var r1 := if r.started then r else StartAt(r, s, low);
    if NearWindow(r1, s) then r1 else Restart(r1, s, low)
  }

  lemma PositionOk(r: Rx, s: u32, low: u32)
    requires RxOk(r)
    ensures RxOk(Position(r, s, low)) && Position(r, s, low).started
    ensures NearWindow(Position(r, s, low), s)
  {
    StartNumbers(r, s, low);
    StartNumbers(r.(buf := map[], gapNext := true), s, low);
  }

  function Push(r: Rx, s: u32, low: u32, data: Bytes, now: int): Rx
    requires RxOk(r)
  {
    PositionOk(r, s, low);
    var p := Position(r, s, low);
    File(p, Near(p.next, s), data, now)
  }

  /** One pass of the hole timer: skip every hole whose next buffered piece waited too long. */
  function Expire(r: Rx, now: int, deadline: int): Rx
    requires RxOk(r)
    decreases |r.buf|
  {
    var low := FirstBuffered(r.buf, r.next, r.next + RING);
    if low in r.buf && now - r.buf[low].at > deadline then
      SkipKeepsOk(r, low);
      Expire(SkipTo(r, low), now, deadline)
    else r
  }

  // ---- invariants ----

  /** What holds between calls: everything buffered lies strictly inside the window, and the
      highest piece seen is buffered or was the last one passed. */
  predicate RxOk(r: Rx) {
    && (forall i :: i in r.buf ==> r.next < i < r.next + RING && i <= r.hi)
    && (r.started ==> r.next - 1 <= r.hi < r.next + RING && (r.hi == r.next - 1 || r.hi in r.buf))
    && (!r.started ==> r.buf == map[] && r.out == [])
  }

  /** Pieces were handed up in order, and a piece is marked iff it does not follow the last. */
  predicate InOrder(out: seq<Piece>) {
    && (forall j, k :: 0 <= j < k < |out| ==> out[j].idx < out[k].idx)
    && (forall j :: 0 < j < |out| ==> (out[j].gap <==> out[j].idx != out[j - 1].idx + 1))
  }

  predicate OutOk(r: Rx) {
    && InOrder(r.out)
    && (r.out != [] ==> var last := r.out[|r.out| - 1].idx;
                        last < r.next && (r.gapNext <==> last + 1 != r.next))
  }

  /** What one drain, skip or expiry may change. */
  predicate Progress(r: Rx, d: Rx) {
    && d.started == r.started
    && r.next <= d.next
    && d.hi == r.hi
    && d.buf.Keys <= r.buf.Keys
    && (forall i :: i in d.buf ==> d.buf[i] == r.buf[i])
    && (forall i :: i in r.buf && d.next <= i ==> i in d.buf)
    && |r.out| <= |d.out| && d.out[..|r.out|] == r.out
    && (forall j :: |r.out| <= j < |d.out| ==> d.out[j].idx in r.buf && d.out[j].data == r.buf[d.out[j].idx].data)
    && |r.buf| + |r.out| == |d.buf| + |d.out|
  }

  lemma ProgressTrans(a: Rx, b: Rx, c: Rx)
    requires Progress(a, b) && Progress(b, c)
    ensures Progress(a, c)
  {
    assert c.out[..|a.out|] == c.out[..|b.out|][..|a.out|];
    forall j | |a.out| <= j < |c.out|
      ensures c.out[j].idx in a.buf && c.out[j].data == a.buf[c.out[j].idx].data
    {
      if j < |b.out| { assert c.out[j] == c.out[..|b.out|][j]; }
    }
  }

  lemma PopFacts(r: Rx)
    requires r.next in r.buf
    requires forall i :: i in r.buf ==> r.next <= i
    ensures Progress(r, PopNext(r))
    ensures OutOk(r) ==> OutOk(PopNext(r))
    ensures |PopNext(r).buf| < |r.buf|
  {
    hide OutOk;
    assert (r.buf - {r.next}).Keys == r.buf.Keys - {r.next};
    CardMinus(r.buf, r.next);
    if OutOk(r) { PopKeepsOut(r); }
  }

  lemma CardMinus(buf: map<int, Entry>, i: int)
    requires i in buf
    ensures |buf - {i}| == |buf| - 1
  {
    assert (buf - {i}).Keys == buf.Keys - {i};
    assert |(buf - {i}).Keys| == |buf - {i}| && |buf.Keys| == |buf|;
  }

  lemma PopKeepsOut(r: Rx)
    requires r.next in r.buf && OutOk(r)
    ensures OutOk(PopNext(r))
  {
  }

  /** Draining hands up exactly the stretch from `next` to the first missing index. */
  lemma {:induction false} DrainFacts(r: Rx)
    ensures var d := Drain(r);
      && d.next !in d.buf && r.next <= d.next && d.hi == r.hi && d.started == r.started
      && (forall i :: r.next <= i < d.next ==> i in r.buf)
      && d.buf.Keys == (set i | i in r.buf && !(r.next <= i < d.next))
      && (forall i :: i in d.buf ==> d.buf[i] == r.buf[i])
      && |d.out| == |r.out| + (d.next - r.next) && d.out[..|r.out|] == r.out
      && (forall j :: |r.out| <= j < |d.out| ==>
            d.out[j] == Piece(r.next + j - |r.out|, r.buf[r.next + j - |r.out|].data, j == |r.out| && r.gapNext))
      && (d.gapNext <==> r.gapNext && d.next == r.next)
    decreases |r.buf|
  {
    if r.next in r.buf {
      assert (r.buf - {r.next}).Keys == r.buf.Keys - {r.next};
      var p := PopNext(r);
      DrainFacts(p);
      var d := Drain(p);
      assert d.out[..|r.out|] == d.out[..|p.out|][..|r.out|];
      forall i | r.next <= i < d.next ensures i in r.buf {
        if i != r.next { assert i in p.buf; }
      }
      forall j | |r.out| <= j < |d.out|
        ensures r.next + j - |r.out| in r.buf
        ensures d.out[j] == Piece(r.next + j - |r.out|, r.buf[r.next + j - |r.out|].data, j == |r.out| && r.gapNext)
      {
        if j == |r.out| { assert d.out[j] == d.out[..|p.out|][j]; }
      }
    } else {
      assert r.out[..|r.out|] == r.out;
    }
  }

  lemma {:induction false} DrainProgress(r: Rx)
    requires forall i :: i in r.buf ==> r.next <= i
    ensures Progress(r, Drain(r))
    ensures OutOk(r) ==> OutOk(Drain(r))
    decreases |r.buf|
  {
    if r.next in r.buf {
      PopFacts(r);
      DrainProgress(PopNext(r));
      ProgressTrans(r, PopNext(r), Drain(r));
    } else {
      assert r.out[..|r.out|] == r.out;
    }
  }

  /** Skipping to the first buffered index (or past everything) loses no buffered piece. */
  lemma SkipFacts(r: Rx, s: int)
    requires r.next < s
    requires forall i :: i in r.buf ==> s <= i
    ensures var d := SkipTo(r, s);
      Progress(r, d) && d.next >= s && d.next !in d.buf && (OutOk(r) ==> OutOk(d))
  {
    var k := r.(next := s, gapNext := true);
    DrainFacts(k);
    DrainProgress(k);
  }

  lemma SkipKeepsOk(r: Rx, s: int)
    requires RxOk(r) && s in r.buf && forall i :: r.next <= i < s ==> i !in r.buf
    ensures var d := SkipTo(r, s);
      RxOk(d) && Progress(r, d) && d.next > s && (OutOk(r) ==> OutOk(d)) && |d.buf| < |r.buf|
  {
    SkipFacts(r, s);
    var k := r.(next := s, gapNext := true);
    DrainFacts(k);
    var d := SkipTo(r, s);
    assert s !in d.buf && d.next - 1 in r.buf;
    SubsetCard(d.buf.Keys, r.buf.Keys - {s});
    assert r.started;
  }

  /** The hole timer's next turn, while something is buffered. */
  lemma ExpireStep(r: Rx, now: int, deadline: int)
    requires RxOk(r) && r.buf != map[]
    ensures var low := FirstBuffered(r.buf, r.next, r.next + RING);
      && low in r.buf && r.next < low < r.next + RING
      && (forall k :: k in r.buf ==> low <= k)
      && RxOk(SkipTo(r, low)) && |SkipTo(r, low).buf| < |r.buf|
      && (now - r.buf[low].at > deadline ==> Expire(r, now, deadline) == Expire(SkipTo(r, low), now, deadline))
      && (now - r.buf[low].at <= deadline ==> Expire(r, now, deadline) == r)
  {
    var k :| k in r.buf;
    SkipKeepsOk(r, FirstBuffered(r.buf, r.next, r.next + RING));
  }

  /** Giving up on holes by the timer loses no buffered piece and marks every jump. */
  lemma {:induction false} ExpireFacts(r: Rx, now: int, deadline: int)
    requires RxOk(r)
    ensures var e := Expire(r, now, deadline);
      RxOk(e) && Progress(r, e) && (OutOk(r) ==> OutOk(e))
    decreases |r.buf|
  {
    hide RxOk, OutOk, Progress, SkipTo;
    if r.buf == map[] {
      ExpireEmpty(r, now, deadline);
      ProgressSelf(r);
    } else {
      ExpireStep(r, now, deadline);
      var low := FirstBuffered(r.buf, r.next, r.next + RING);
      if now - r.buf[low].at > deadline {
        FirstKeepsOk(r, low);
        ExpireFacts(SkipTo(r, low), now, deadline);
        ProgressTrans(r, SkipTo(r, low), Expire(SkipTo(r, low), now, deadline));
      } else {
        ProgressSelf(r);
      }
    }
  }

  lemma ProgressSelf(r: Rx)
    ensures Progress(r, r)
  {
    assert r.out[..|r.out|] == r.out;
  }

  lemma FirstKeepsOk(r: Rx, s: int)
    requires RxOk(r) && s in r.buf && s == FirstBuffered(r.buf, r.next, r.next + RING)
    ensures RxOk(SkipTo(r, s)) && Progress(r, SkipTo(r, s)) && (OutOk(r) ==> OutOk(SkipTo(r, s)))
  {
    SkipKeepsOk(r, s);
  }

  lemma ExpireEmpty(r: Rx, now: int, deadline: int)
    requires RxOk(r) && r.buf == map[]
    ensures Expire(r, now, deadline) == r
  {
  }

  lemma SubsetCard(a: set<int>, b: set<int>)
    requires a <= b
    ensures |a| <= |b|
  {
    assert b == a + (b - a);
  }

  function Insert(r: Rx, i: int, data: Bytes, now: int): Rx {
    r.(buf := r.buf[i := Entry(data, now)], hi := if r.hi < i then i else r.hi)
  }

  predicate Settled(r: Rx) {
    r.next !in r.buf && forall k :: k in r.buf ==> r.next < k < r.next + RING
  }

  /** One round of giving up: `next` moves forward, past `i` never. */
  lemma GiveUpStep(r: Rx, i: int)
    requires Settled(r) && i - r.next >= RING
    ensures var s := FirstBuffered(r.buf, r.next, i);
      var d := SkipTo(r, s);
      && r.next < s && (forall k :: k in r.buf ==> s <= k)
      && r.next < d.next <= i && Settled(d) && d.started == r.started && d.hi == r.hi
      && GiveUp(r, i) == GiveUp(d, i)
  {
    var s := FirstBuffered(r.buf, r.next, i);
    var k := r.(next := s, gapNext := true);
    DrainFacts(k);
    assert i !in k.buf;
  }

  lemma {:induction false} GiveUpFacts(r: Rx, i: int)
    requires Settled(r) && r.next <= i
    ensures var g := GiveUp(r, i);
      && Progress(r, g) && g.next !in g.buf && i - RING < g.next <= i
      && (forall k :: k in g.buf ==> g.next < k)
      && (OutOk(r) ==> OutOk(g))
      && (i - r.next < RING ==> g == r)
      && (i - r.next >= RING ==> forall k :: k in g.buf ==> k < i)
    decreases i - r.next
  {
    if i - r.next < RING {
      assert r.out[..|r.out|] == r.out;
    } else {
      var s := FirstBuffered(r.buf, r.next, i);
      GiveUpStep(r, i);
      SkipFacts(r, s);
      var d := SkipTo(r, s);
      GiveUpFacts(d, i);
      ProgressTrans(r, d, GiveUp(d, i));
    }
  }

  lemma InsertProgress(r: Rx, g: Rx, i: int, data: Bytes, now: int)
    requires Progress(r, g) && i !in r.buf && g.next <= i
    ensures Progress(Insert(r, i, data, now), Insert(g, i, data, now))
  {
    CardPlus(r.buf, i, Entry(data, now));
    CardPlus(g.buf, i, Entry(data, now));
  }

  lemma CardPlus(buf: map<int, Entry>, i: int, e: Entry)
    requires i !in buf
    ensures |buf[i := e]| == |buf| + 1
  {
    assert buf[i := e].Keys == buf.Keys + {i};
    assert |buf[i := e].Keys| == |buf[i := e]| && |buf.Keys| == |buf|;
  }

  /** The indices handed up from `n` on. */
  function UpFrom(out: seq<Piece>, n: nat): set<int>
    requires n <= |out|
  {
    set j | n <= j < |out| :: out[j].idx
  }

  lemma {:induction false} UpFromCard(out: seq<Piece>, n: nat)
    requires n <= |out| && InOrder(out)
    ensures |UpFrom(out, n)| == |out| - n
    decreases |out| - n
  {
    if n < |out| {
      UpFromCard(out, n + 1);
      UpFromNext(out, n);
    }
  }

  lemma UpFromNext(out: seq<Piece>, n: nat)
    requires n < |out| && InOrder(out)
    ensures UpFrom(out, n) == UpFrom(out, n + 1) + {out[n].idx} && out[n].idx !in UpFrom(out, n + 1)
  {
    var ups, rest := UpFrom(out, n), UpFrom(out, n + 1);
    forall x | x in ups ensures x in rest + {out[n].idx} {
      var j :| n <= j < |out| && out[j].idx == x;
    }
    forall x | x in rest ensures x in ups && x != out[n].idx {
      var j :| n + 1 <= j < |out| && out[j].idx == x;
    }
  }

  /** Nothing buffered is lost: it is still buffered or was handed up, with its bytes. */
  lemma BufferedComesUp(r: Rx, d: Rx, i: int) returns (j: int)
    requires Progress(r, d) && OutOk(d) && (forall k :: k in d.buf ==> d.next <= k) && i in r.buf && i !in d.buf
    ensures |r.out| <= j < |d.out| && d.out[j].idx == i && d.out[j].data == r.buf[i].data
  {
    var ups, gone := UpFrom(d.out, |r.out|), r.buf.Keys - d.buf.Keys;
    UpFromCard(d.out, |r.out|);
    forall x | x in ups ensures x in gone {
      var k :| |r.out| <= k < |d.out| && d.out[k].idx == x;
      if k < |d.out| - 1 { assert d.out[k].idx < d.out[|d.out| - 1].idx; }
    }
    assert |gone| == |r.buf| - |d.buf| by {
      assert r.buf.Keys == gone + d.buf.Keys;
      assert |d.buf.Keys| == |d.buf| && |r.buf.Keys| == |r.buf|;
    }
    SameSize(ups, gone);
    assert i in ups;
    j :| |r.out| <= j < |d.out| && d.out[j].idx == i;
  }

  lemma SameSize(x: set<int>, y: set<int>)
    requires x <= y && |x| == |y|
    ensures x == y
  {
    assert y == x + (y - x);
  }

  /** `i` is the first buffered index after hole `h`. */
  predicate NextBuffered(buf: map<int, Entry>, h: int, i: int) {
    i in buf && h < i && forall m :: h <= m < i ==> m !in buf
  }

  /** The first piece buffered after hole `h` waited longer than the deadline. */
  ghost predicate HoleOverdue(r: Rx, h: int, now: int, deadline: int) {
    exists i :: NextBuffered(r.buf, h, i) && now > r.buf[i].at + deadline
  }

  /** One pass of the hole timer stops at the first hole whose next piece has not waited longer than the
      deadline, or at the end: every hole it passes was overdue, and the one it stops at is not. */
  lemma {:induction false} ExpireExactly(r: Rx, now: int, deadline: int)
    requires RxOk(r)
    ensures var e := Expire(r, now, deadline);
      && (forall h :: r.next <= h < e.next && h !in r.buf ==> HoleOverdue(r, h, now, deadline))
      && e.next !in r.buf && !HoleOverdue(r, e.next, now, deadline)
    decreases |r.buf|
  {
    hide *;
    NextIsHole(r);
    if r.buf == map[] {
      ExpireEmpty(r, now, deadline);
      NothingOverdue(r, now, deadline);
    } else {
      ExpireStep(r, now, deadline);
      var low := FirstBuffered(r.buf, r.next, r.next + RING);
      if now - r.buf[low].at > deadline {
        ExpireExactly(SkipTo(r, low), now, deadline);
        ExpireFacts(SkipTo(r, low), now, deadline);
        ProgressMoves(SkipTo(r, low), Expire(SkipTo(r, low), now, deadline));
        PassesOverdue(r, low, now, deadline, Expire(SkipTo(r, low), now, deadline));
      } else {
        NotYetOverdue(r, low, now, deadline);
      }
    }
  }

  lemma NextIsHole(r: Rx)
    requires RxOk(r)
    ensures r.next !in r.buf
  {
  }

  lemma ProgressMoves(r: Rx, d: Rx)
    requires Progress(r, d)
    ensures r.next <= d.next
  {
  }

  lemma NothingOverdue(r: Rx, now: int, deadline: int)
    requires r.buf == map[]
    ensures !HoleOverdue(r, r.next, now, deadline)
  {
  }

  lemma NotYetOverdue(r: Rx, low: int, now: int, deadline: int)
    requires low in r.buf && r.next < low && (forall k :: k in r.buf ==> low <= k) && now - r.buf[low].at <= deadline
    ensures !HoleOverdue(r, r.next, now, deadline)
  {
    assert forall i :: NextBuffered(r.buf, r.next, i) ==> i == low;
  }

  lemma PassesOverdue(r: Rx, low: int, now: int, deadline: int, e: Rx)
    requires RxOk(r) && low in r.buf && r.next < low && (forall k :: k in r.buf ==> low <= k)
    requires now - r.buf[low].at > deadline
    requires var d := SkipTo(r, low);
      && d.next <= e.next && e.next !in d.buf && !HoleOverdue(d, e.next, now, deadline)
      && (forall h :: d.next <= h < e.next && h !in d.buf ==> HoleOverdue(d, h, now, deadline))
    ensures forall h :: r.next <= h < e.next && h !in r.buf ==> HoleOverdue(r, h, now, deadline)
    ensures e.next !in r.buf && !HoleOverdue(r, e.next, now, deadline)
  {
    var k := r.(next := low, gapNext := true);
    DrainFacts(k);
    var d := SkipTo(r, low);
    assert low < d.next;
    hide Drain;
    forall h | r.next <= h < e.next && h !in r.buf ensures HoleOverdue(r, h, now, deadline) {
      if h < low { assert NextBuffered(r.buf, h, low); } else { OverdueLater(r, d, h, now, deadline); }
    }
    OverdueLater(r, d, e.next, now, deadline);
  }

  lemma OverdueLater(r: Rx, d: Rx, h: int, now: int, deadline: int)
    requires d.next <= h && d.buf.Keys <= r.buf.Keys && forall i :: i in d.buf ==> d.buf[i] == r.buf[i]
    requires forall i :: i in r.buf && d.next <= i ==> i in d.buf
    ensures HoleOverdue(r, h, now, deadline) <==> HoleOverdue(d, h, now, deadline)
  {
    forall i ensures NextBuffered(r.buf, h, i) <==> NextBuffered(d.buf, h, i) {}
  }

  /** A piece from a ring below what is awaited to two rings above is filed under its index; one from
      anywhere else makes the receiver begin anew, at the piece or at the low mark if that is less than
      half a ring back, with nothing buffered and the gap marked. */
  lemma PushWhere(r: Rx, i: int, low: int, data: Bytes, now: int)
    requires RxOk(r) && r.started && -HALF32 <= i - r.next < HALF32 && i - HALF32 < low <= i
    ensures r.next - RING <= i < r.next + 2 * RING ==> Push(r, Wrap(i), Wrap(low), data, now) == File(r, i, data, now)
    ensures !(r.next - RING <= i < r.next + 2 * RING) ==>
      var first := if i - low < RING / 2 then low else i;
      Push(r, Wrap(i), Wrap(low), data, now) ==
        File(Rx(true, first, first - 1, map[], true, r.out), i, data, now)
  {
    NearRecovers(r.next, i);
    UnsignedDistance(i, low);
    NearRecovers(if i - low < RING / 2 then low else i, i);
    hide Wrap, Near, File;
  }

  /** Draining after an insertion restores the between-calls invariant. */
  lemma DrainKeepsOk(n: Rx)
    requires n.started && n.next - 1 <= n.hi < n.next + RING && (n.hi in n.buf || n.hi == n.next - 1)
    requires forall k :: k in n.buf ==> n.next <= k <= n.hi
    ensures RxOk(Drain(n))
  {
    hide Drain;
    DrainFacts(n);
    var f := Drain(n);
    assert f.next == n.next || f.next - 1 in n.buf;
  }

  /** A new piece is kept or handed up, and nothing already buffered is lost. */
  lemma FileProgress(r: Rx, i: int, data: Bytes, now: int)
    requires RxOk(r) && r.started && r.next <= i && i !in r.buf
    ensures Progress(Insert(r, i, data, now), File(r, i, data, now))
    ensures r.next <= i < r.next + RING ==> File(r, i, data, now) == Drain(Insert(r, i, data, now))
  {
    GiveUpFacts(r, i);
    var g := GiveUp(r, i);
    var n := Insert(g, i, data, now);
    InsertProgress(r, g, i, data, now);
    DrainProgress(n);
    ProgressTrans(Insert(r, i, data, now), n, Drain(n));
  }

  /** What is handed up stays in order, with every jump marked. */
  lemma FileKeepsOut(r: Rx, i: int, data: Bytes, now: int)
    requires RxOk(r) && r.started && OutOk(r)
    ensures OutOk(File(r, i, data, now))
  {
    if i >= r.next {
      GiveUpKeepsOut(r, i);
      var g := GiveUp(r, i);
      if i !in g.buf { DrainKeepsOut(Insert(g, i, data, now)); }
    }
  }

  lemma GiveUpKeepsOut(r: Rx, i: int)
    requires RxOk(r) && r.next !in r.buf && r.next <= i && OutOk(r)
    ensures OutOk(GiveUp(r, i)) && GiveUp(r, i).next <= i
    ensures forall k :: k in GiveUp(r, i).buf ==> GiveUp(r, i).next <= k
  {
    GiveUpFacts(r, i);
  }

  lemma DrainKeepsOut(r: Rx)
    requires OutOk(r) && forall i :: i in r.buf ==> r.next <= i
    ensures OutOk(Drain(r))
  {
    DrainProgress(r);
  }

  lemma FileKeepsOk(r: Rx, i: int, data: Bytes, now: int)
    requires RxOk(r) && r.started
    ensures RxOk(File(r, i, data, now))
  {
    if i >= r.next {
      GiveUpFacts(r, i);
      if i !in r.buf {
        var n := Insert(GiveUp(r, i), i, data, now);
        assert n.hi in n.buf || n.hi == n.next - 1;
        DrainKeepsOk(n);
      }
    }
  }
}
