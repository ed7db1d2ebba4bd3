/** Cutting frames into pieces and putting them back together.

    A piece is one flag byte and up to `p` bytes of a frame. The cutter walks through the frames
    from mark to mark; the assembler sees the pieces that arrive, told where some are missing. */
module Frames {
  import opened Seq32
  import opened Reorder

  const CONT: byte := 1 // continues the previous piece
  const MORE: byte := 2 // another piece follows

  /** The next piece starts at byte `from` of frame `k`. */
  datatype Mark = Mark(k: nat, from: nat)

  predicate InFrames(frames: seq<Bytes>, m: Mark) {
    m.k < |frames| && (m.from == 0 || m.from < |frames[m.k]|)
  }

  function NextMark(frames: seq<Bytes>, m: Mark, p: nat): Mark
    requires m.k < |frames|
  {
    if m.from + p < |frames[m.k]| then Mark(m.k, m.from + p) else Mark(m.k + 1, 0)
  }

  /** Where piece number `n` starts; past the last frame, the mark stays at its end. */
  function MarkOf(frames: seq<Bytes>, n: nat, p: nat): (m: Mark)
    ensures m.k <= |frames| && (m.k == |frames| ==> m.from == 0)
    ensures m.k < |frames| ==> InFrames(frames, m)
  {
    if n == 0 then Mark(0, 0)
    else
      var m := MarkOf(frames, n - 1, p);
      if m.k == |frames| then m else NextMark(frames, m, p)
  }

  function Flag(cont: bool, more: bool): byte {
    (if cont then CONT else 0) + (if more then MORE else 0)
  }

  function PieceAt(frames: seq<Bytes>, m: Mark, p: nat): Bytes
    requires InFrames(frames, m)
  {
    var rest := frames[m.k][m.from..];
    if |rest| <= p then [Flag(m.from > 0, false)] + rest
    else [Flag(m.from > 0, true)] + rest[..p]
  }

  /** The pieces cut so far are the first `|pieces|` pieces of these frames. */
  ghost predicate CutFrom(pieces: seq<Bytes>, frames: seq<Bytes>, p: nat) {
    forall n :: 0 <= n < |pieces| ==> IsPiece(frames, n, p, pieces[n])
  }

  /** `b` is piece number `n` of the frames. */
  ghost predicate IsPiece(frames: seq<Bytes>, n: nat, p: nat, b: Bytes) {
    var m := MarkOf(frames, n, p);
    m.k < |frames| && b == PieceAt(frames, m, p)
  }

  lemma {:induction false} MarkStable(frames: seq<Bytes>, more: seq<Bytes>, n: nat, p: nat)
    requires n == 0 || MarkOf(frames, n - 1, p).k < |frames|
    ensures MarkOf(frames + more, n, p) == MarkOf(frames, n, p)
  {
    if n > 0 {
      MarkMonotone(frames, if n > 1 then n - 2 else n - 1, n - 1, p);
      MarkStable(frames, more, n - 1, p);
      var m := MarkOf(frames, n - 1, p);
      assert (frames + more)[m.k] == frames[m.k];
    }
  }

  /** Marks only move forward. */
  lemma {:induction false} MarkMonotone(frames: seq<Bytes>, n: nat, n': nat, p: nat)
    requires n <= n'
    ensures MarkOf(frames, n, p).k <= MarkOf(frames, n', p).k
    decreases n' - n
  {
    if n < n' { MarkMonotone(frames, n, n' - 1, p); }
  }

  /** Cutting one more piece, or taking up one more frame, keeps the relation. */
  lemma CutStable(pieces: seq<Bytes>, frames: seq<Bytes>, more: seq<Bytes>, p: nat)
    requires CutFrom(pieces, frames, p)
    ensures CutFrom(pieces, frames + more, p)
  {
    forall n | 0 <= n < |pieces|
      ensures IsPiece(frames + more, n, p, pieces[n])
    {
      assert IsPiece(frames, n, p, pieces[n]);
      if n > 0 { MarkMonotone(frames, n - 1, n, p); }
      MarkStable(frames, more, n, p);
    }
  }

  // ---- assembly ----

  /** `up` is what was handed up, `partial` the frame being put together. */
  datatype Asm = Asm(partial: Option<Bytes>, up: seq<Bytes>)

  predicate IsCont(flag: byte) { flag % 2 == 1 }
  predicate IsMore(flag: byte) { flag / 2 % 2 == 1 }

  /** What `deliverPiece` does with one piece. */
  function Deliver(a: Asm, b: Bytes, gap: bool): Asm {
    if b == [] then a
    else
      var flag, payload := b[0], b[1..];
      var partial := if gap then None else a.partial;
      if !IsCont(flag) then
        if !IsMore(flag) then Asm(partial, a.up + [payload]) else Asm(Some(payload), a.up)
      else if partial.None? then Asm(None, a.up)
      else
        var grown := partial.value + payload;
        if !IsMore(flag) then Asm(None, a.up + [grown]) else Asm(Some(grown), a.up)
  }

  function Assemble(out: seq<Piece>): Asm {
    if out == [] then Asm(None, [])
    else
      var last := out[|out| - 1];
      Deliver(Assemble(out[..|out| - 1]), last.data, last.gap)
  }

  class Assembler {
    var asm: Option<Bytes>
    var up: seq<Bytes>

    function State(): Asm
      reads this
    {
      Asm(asm, up)
    }

    constructor ()
      ensures State() == Asm(None, [])
    {
      asm, up := None, [];
    }

    method DeliverPiece(b: Bytes, gap: bool)
      modifies this
      ensures State() == Deliver(old(State()), b, gap)
    {
      if |b| == 0 {
        return;
      }
      var flag, p := b[0], b[1..];
      if gap {
        asm := None;
      }
      if !IsCont(flag) {
        if !IsMore(flag) {
          up := up + [p];
          return;
        }
        asm := Some(p);
        return;
      }
      if asm.None? {
        return; // the start of this frame was lost
      }
      asm := Some(asm.value + p);
      if !IsMore(flag) {
        up := up + [asm.value];
        asm := None;
      }
    }
  }

  /** `up` is the subsequence of `frames` at the increasing positions `ks`. */
  ghost predicate Picks(up: seq<Bytes>, frames: seq<Bytes>, ks: seq<int>) {
    && |ks| == |up|
    && (forall j :: 0 <= j < |ks| ==> 0 <= ks[j] < |frames| && up[j] == frames[ks[j]])
    && (forall i, j :: 0 <= i < j < |ks| ==> ks[i] < ks[j])
  }

  /** Pieces that arrived: selected from the stream whose first piece has index `base`. */
  ghost predicate Arrived(out: seq<Piece>, base: int, frames: seq<Bytes>, p: nat) {
    && InOrder(out)
    && (forall j :: 0 <= j < |out| ==> out[j].idx >= base && IsPiece(frames, out[j].idx - base, p, out[j].data))
  }

  lemma ArrivedPrefix(out: seq<Piece>, base: int, frames: seq<Bytes>, p: nat)
    requires Arrived(out, base, frames, p) && out != []
    ensures Arrived(out[..|out| - 1], base, frames, p)
  {
    hide IsPiece;
  }

  lemma MarkSucc(frames: seq<Bytes>, n: nat, p: nat)
    requires MarkOf(frames, n, p).k < |frames|
    ensures MarkOf(frames, n + 1, p) == NextMark(frames, MarkOf(frames, n, p), p)
  {
  }

  lemma PicksMore(up: seq<Bytes>, frames: seq<Bytes>, ks: seq<int>, k: int)
    requires Picks(up, frames, ks) && 0 <= k < |frames| && AllBelow(ks, k)
    ensures Picks(up + [frames[k]], frames, ks + [k]) && AllBelow(ks + [k], k + 1)
  {
  }

  /** The frame being put together, if any, is a prefix of the one the mark is inside. */
  ghost predicate InProgress(a: Asm, frames: seq<Bytes>, m: Mark) {
    a.partial.Some? ==> InFrames(frames, m) && m.from > 0 && a.partial.value == frames[m.k][..m.from]
  }

  ghost predicate AllBelow(ks: seq<int>, k: int) {
    forall j :: 0 <= j < |ks| ==> ks[j] < k
  }

  /** One delivery, when the frame in progress (if any) is the one the piece belongs to. */
  lemma DeliverAt(a: Asm, frames: seq<Bytes>, m: Mark, p: nat, gap: bool)
    requires p > 0 && InFrames(frames, m)
    requires gap || InProgress(a, frames, m)
    ensures var d := Deliver(a, PieceAt(frames, m, p), gap);
      var n := NextMark(frames, m, p);
      && m.k <= n.k <= |frames|
      && (d.up == a.up || (d.up == a.up + [frames[m.k]] && n.k == m.k + 1))
      && InProgress(d, frames, n)
      && ((a.partial.Some? && !gap) || m.from == 0 ==>
            d == if n.k == m.k then Asm(Some(frames[m.k][..n.from]), a.up) else Asm(None, a.up + [frames[m.k]]))
  {
    var b := PieceAt(frames, m, p);
    var f := frames[m.k];
    assert f[..m.from] + f[m.from..] == f;
    if m.from + p < |f| {
      assert b[1..] == f[m.from..m.from + p];
      assert f[..m.from] + f[m.from..m.from + p] == f[..m.from + p];
    } else {
      assert b[1..] == f[m.from..];
    }
  }

  /** The last piece that arrived: its number, where it starts, and what the assembler does with it. */
  lemma LastArrival(out: seq<Piece>, base: int, frames: seq<Bytes>, p: nat) returns (n: nat, m: Mark)
    requires Arrived(out, base, frames, p) && out != []
    ensures var before, last := out[..|out| - 1], out[|out| - 1];
      && Arrived(before, base, frames, p)
      && n == last.idx - base && m == MarkOf(frames, n, p) && InFrames(frames, m)
      && MarkOf(frames, n + 1, p) == NextMark(frames, m, p)
      && Assemble(out) == Deliver(Assemble(before), PieceAt(frames, m, p), last.gap)
      && (before != [] ==>
            var prev := before[|before| - 1].idx - base + 1;
            prev >= 0 && MarkOf(frames, prev, p).k <= m.k && (!last.gap ==> prev == n))
  {
    var before, last := out[..|out| - 1], out[|out| - 1];
    ArrivedPrefix(out, base, frames, p);
    n := ArrivedNumber(out, base, frames, p);
    m := MarkOf(frames, n, p);
    MarkSucc(frames, n, p);
  }

  lemma ArrivedNumber(out: seq<Piece>, base: int, frames: seq<Bytes>, p: nat) returns (n: nat)
    requires Arrived(out, base, frames, p) && out != []
    ensures var before, last := out[..|out| - 1], out[|out| - 1];
      && n == last.idx - base && IsPiece(frames, n, p, last.data)
      && (before != [] ==>
            var prev := before[|before| - 1].idx - base + 1;
            prev >= 0 && MarkOf(frames, prev, p).k <= MarkOf(frames, n, p).k && (!last.gap ==> prev == n))
  {
    hide MarkOf, PieceAt;
    var before, last := out[..|out| - 1], out[|out| - 1];
    n := last.idx - base;
    if before != [] {
      MarkMonotone(frames, before[|before| - 1].idx - base + 1, n, p);
    }
  }

  /** What holds once the pieces in `out` were delivered: the frames handed up are picked at `ks`,
      all of them before the frame the next mark is in, and the frame in progress is its prefix. */
  ghost predicate Spliceless(out: seq<Piece>, a: Asm, base: int, frames: seq<Bytes>, p: nat, ks: seq<int>) {
    && Picks(a.up, frames, ks)
    && if out == [] then a == Asm(None, []) && ks == []
       else var n := out[|out| - 1].idx - base + 1;
            n >= 0 && AllBelow(ks, MarkOf(frames, n, p).k) && InProgress(a, frames, MarkOf(frames, n, p))
  }

  /** No spliced frames: whatever pieces are missing, the frames handed up are an in-order,
      byte-for-byte subsequence of the frames cut, and a frame in progress is a prefix of one. */
  lemma {:induction false} NoSplice(out: seq<Piece>, base: int, frames: seq<Bytes>, p: nat) returns (ks: seq<int>)
    requires p > 0 && Arrived(out, base, frames, p)
    ensures Spliceless(out, Assemble(out), base, frames, p, ks)
  {
    ks := [];
    if out != [] {
      hide Arrived, Assemble;
      var before := out[..|out| - 1];
      ks := NoSplice(before, base, frames, p);
      var n, m := LastArrival(out, base, frames, p);
      ks := SpliceStep(out, Assemble(before), base, frames, p, ks, n, m);
    }
  }

  lemma SpliceStep(out: seq<Piece>, a: Asm, base: int, frames: seq<Bytes>, p: nat, ks: seq<int>, n: nat, m: Mark)
    returns (ks': seq<int>)
    requires p > 0 && out != [] && n == out[|out| - 1].idx - base && m == MarkOf(frames, n, p) && InFrames(frames, m)
    requires MarkOf(frames, n + 1, p) == NextMark(frames, m, p)
    requires var before, last := out[..|out| - 1], out[|out| - 1];
      && Spliceless(before, a, base, frames, p, ks)
      && (before != [] ==>
            var prev := before[|before| - 1].idx - base + 1;
            prev >= 0 && MarkOf(frames, prev, p).k <= m.k && (!last.gap ==> prev == n))
    ensures Spliceless(out, Deliver(a, PieceAt(frames, m, p), out[|out| - 1].gap), base, frames, p, ks')
  {
    hide MarkOf, PieceAt, Deliver, Picks, NextMark, InProgress;
    var before, gap := out[..|out| - 1], out[|out| - 1].gap;
    if before == [] { NothingInProgress(frames, m); }
    DeliverAt(a, frames, m, p, gap);
    ks' := ks;
    if Deliver(a, PieceAt(frames, m, p), gap).up != a.up {
      PicksMore(a.up, frames, ks, m.k);
      ks' := ks + [m.k];
    }
  }

  lemma NothingInProgress(frames: seq<Bytes>, m: Mark)
    ensures InProgress(Asm(None, []), frames, m)
  {
  }

  /** With nothing missing, the frames handed up are exactly the frames cut so far. */
  lemma {:induction false} NothingLost(out: seq<Piece>, base: int, frames: seq<Bytes>, p: nat)
    requires p > 0 && Arrived(out, base, frames, p)
    requires forall j :: 0 <= j < |out| ==> out[j].idx == base + j && !out[j].gap
    ensures Assemble(out) == AllUpTo(frames, MarkOf(frames, |out|, p))
  {
    if out != [] {
      hide Arrived, Assemble, MarkOf, AllUpTo;
      NothingLost(out[..|out| - 1], base, frames, p);
      var n, m := LastArrival(out, base, frames, p);
      DeliverNext(frames, m, p);
    } else {
      assert frames[..0] == [];
    }
  }

  /** Every frame before the mark handed up, the one it is inside in progress. */
  function AllUpTo(frames: seq<Bytes>, m: Mark): Asm
    requires m.k <= |frames| && (m.k < |frames| ==> InFrames(frames, m))
  {
    Asm(if m.from == 0 || m.k == |frames| then None else Some(frames[m.k][..m.from]), frames[..m.k])
  }

  lemma DeliverNext(frames: seq<Bytes>, m: Mark, p: nat)
    requires p > 0 && InFrames(frames, m)
    ensures Deliver(AllUpTo(frames, m), PieceAt(frames, m, p), false) == AllUpTo(frames, NextMark(frames, m, p))
  {
    DeliverAt(AllUpTo(frames, m), frames, m, p, false);
    assert frames[..m.k] + [frames[m.k]] == frames[..m.k + 1];
  }
}
