/** The replay window of a session: a ring of bits, one per sequence number not more than a window
    behind the newest. It accepts exactly the numbers that were never called before and are
    not too old. */
module ReplayWindow {
  import opened Seq32

  const WINDOW: int := 4096
  const WORDS: int := 64

  /** Not zero, not accepted before, and less than a window behind everything accepted. */
  ghost predicate Fresh(accepted: set<int>, seqNo: int) {
    seqNo != 0 && seqNo !in accepted && forall x :: x in accepted ==> x - seqNo < WINDOW
  }

  /** What a window that was called with these numbers has accepted. */
  ghost function AcceptedBy(calls: seq<u64>): set<int> {
    if calls == [] then {}
    else
      var before, last := AcceptedBy(calls[..|calls| - 1]), calls[|calls| - 1];
      if Fresh(before, last) then before + {last} else before
  }

  lemma AcceptedNext(calls: seq<u64>, x: u64)
    ensures AcceptedBy(calls + [x]) ==
      if Fresh(AcceptedBy(calls), x) then AcceptedBy(calls) + {x} else AcceptedBy(calls)
    ensures Verdict(calls + [x], |calls|) <==> Fresh(AcceptedBy(calls), x)
  {
    assert (calls + [x])[..|calls|] == calls;
  }

  ghost predicate Verdict(calls: seq<u64>, k: nat)
    requires k < |calls|
  {
    Fresh(AcceptedBy(calls[..k]), calls[k])
  }

  /** Every number called was zero, accepted, or already too old. */
  lemma {:induction false} CalledIsAcceptedOrOld(calls: seq<u64>, x: int)
    ensures x in AcceptedBy(calls) ==> x in calls && x != 0
    ensures x in calls ==> x == 0 || x in AcceptedBy(calls) || exists y :: y in AcceptedBy(calls) && y - x >= WINDOW
  {
    if calls != [] {
      var before, last := calls[..|calls| - 1], calls[|calls| - 1];
      assert calls == before + [last];
      CalledIsAcceptedOrOld(before, x);
      if x in before && x != 0 && x !in AcceptedBy(before) {
        var y :| y in AcceptedBy(before) && y - x >= WINDOW;
        assert y in AcceptedBy(calls);
      }
    }
  }

  /** For every sequence of calls, a number is accepted exactly if it is not zero, was not called
      before, and is less than a window behind every number called before. */
  lemma AcceptsExactly(calls: seq<u64>, k: nat)
    requires k < |calls|
    ensures Verdict(calls, k) <==>
      calls[k] != 0 && calls[k] !in calls[..k] && forall i :: 0 <= i < k ==> calls[i] - calls[k] < WINDOW
  {
    var before, x := calls[..k], calls[k];
    CalledIsAcceptedOrOld(before, x);
    forall c ensures c in AcceptedBy(before) ==> c in before {
      CalledIsAcceptedOrOld(before, c);
    }
    forall i | 0 <= i < k && Verdict(calls, k) ensures calls[i] - x < WINDOW {
      assert before[i] == calls[i];
      CalledIsAcceptedOrOld(before, calls[i]);
    }
    assert forall i :: 0 <= i < k ==> calls[i] == before[i];
  }

  /** No number is accepted twice. */
  lemma AcceptsAtMostOnce(calls: seq<u64>, i: nat, k: nat)
    requires i < k < |calls| && Verdict(calls, k)
    ensures calls[i] != calls[k]
  {
    AcceptsExactly(calls, k);
    assert calls[..k][i] == calls[i];
  }

  // ---- bits ----

  type Place = k: int | 0 <= k < 64

  function Mask(k: Place): bv64 { 1 << (k as bv6) }

  predicate Meet(v: bv64, w: bv64) { v & w != 0 }

  predicate Bit(w: bv64, k: Place) { Meet(w, Mask(k)) }

  lemma ShiftsDiffer(a: bv6, b: bv6)
    ensures ((1 as bv64) << a) & ((1 as bv64) << b) == 0 <==> a != b
  {
  }

  lemma PlaceAsBits(a: Place)
    ensures (a as bv6) as int == a
  {
  }

  lemma MasksMeet(a: Place, b: Place)
    ensures Meet(Mask(a), Mask(b)) <==> a == b
  {
    PlaceAsBits(a);
    PlaceAsBits(b);
    ShiftsDiffer(a as bv6, b as bv6);
  }

  function With(w: bv64, m: bv64): bv64 { w | m }

  function Without(w: bv64, m: bv64): bv64 { w & !m }

  lemma OrMeets(w: bv64, m: bv64)
    requires w != 0 || m != 0
    ensures w | m != 0
  {
  }

  lemma OrOver(w: bv64, m: bv64, n: bv64)
    ensures (w | m) & n == (w & n) | (m & n)
  {
  }

  lemma WithMeets(w: bv64, m: bv64, n: bv64)
    requires Meet(w, n) || Meet(m, n)
    ensures Meet(With(w, m), n)
  {
    OrOver(w, m, n);
    OrMeets(w & n, m & n);
  }

  lemma WithMeetsOnly(w: bv64, m: bv64, n: bv64)
    requires Meet(With(w, m), n)
    ensures Meet(w, n) || Meet(m, n)
  {
  }

  lemma WithoutMeetsNot(w: bv64, m: bv64)
    ensures !Meet(Without(w, m), m)
  {
  }

  lemma WithoutMeetsOnly(w: bv64, m: bv64, n: bv64)
    requires Meet(Without(w, m), n)
    ensures Meet(w, n)
  {
  }

  lemma WithoutMeets(w: bv64, m: bv64, n: bv64)
    requires Meet(w, n) && !Meet(m, n)
    ensures Meet(Without(w, m), n)
  {
  }

  /** Setting a bit sets that bit and no other. */
  lemma SetsBit(w: bv64, a: Place, b: Place)
    ensures Bit(With(w, Mask(a)), b) <==> b == a || Bit(w, b)
  {
    hide With, Meet, Mask;
    MasksMeet(a, b);
    if Bit(w, b) || a == b { WithMeets(w, Mask(a), Mask(b)); }
    if Bit(With(w, Mask(a)), b) { WithMeetsOnly(w, Mask(a), Mask(b)); }
  }

  /** Clearing a bit clears that bit and no other. */
  lemma ClearsBit(w: bv64, a: Place, b: Place)
    ensures Bit(Without(w, Mask(a)), b) <==> b != a && Bit(w, b)
  {
    hide Without, Meet, Mask;
    MasksMeet(a, b);
    WithoutMeetsNot(w, Mask(a));
    if Bit(Without(w, Mask(a)), b) { WithoutMeetsOnly(w, Mask(a), Mask(b)); }
    if b != a && Bit(w, b) { WithoutMeets(w, Mask(a), Mask(b)); }
  }

  lemma NothingMeets(w: bv64)
    ensures !Meet(0, w)
  {
  }

  function Word(x: int): (k: int)
    ensures 0 <= k < WORDS
  {
    x % WINDOW / 64
  }

  function At(x: int): Place { x % WINDOW % 64 }

  lemma PlaceInjective(x: int, y: int)
    requires -WINDOW < x - y < WINDOW
    ensures Word(x) == Word(y) && At(x) == At(y) <==> x == y
  {
    if Word(x) == Word(y) && At(x) == At(y) {
      assert x % WINDOW == 64 * Word(x) + At(x) && y % WINDOW == 64 * Word(y) + At(y);
    }
  }

  class ReplayWindow {
    const words: array<bv64>
    var highest: u64
    ghost var calls: seq<u64>

    predicate Has(x: int)
      requires words.Length == WORDS
      reads words
    {
      Bit(words[Word(x)], At(x))
    }

    ghost predicate Valid()
      reads this, words
    {
      && words.Length == WORDS
      && (highest == 0 || highest in AcceptedBy(calls))
      && (forall x :: x in AcceptedBy(calls) ==> 0 < x <= highest)
      && (forall x :: 0 <= x && highest - WINDOW < x <= highest ==> (Has(x) <==> x in AcceptedBy(calls)))
    }

    constructor ()
      ensures Valid() && calls == [] && fresh(words)
    {
      words := new bv64[WORDS](_ => 0);
      highest, calls := 0, [];
      new;
      forall x ensures !Has(x) { NothingMeets(Mask(At(x))); }
    }

    method SetBit(x: u64)
      requires words.Length == WORDS
      modifies words
      ensures forall y :: x - WINDOW < y < x + WINDOW ==> (Has(y) <==> y == x || old(Has(y)))
    {
      hide Meet, Mask, With, Without;
      var i := x % WINDOW;
      var k := i / 64;
      words[k] := With(words[k], Mask(i % 64));
      forall y | x - WINDOW < y < x + WINDOW ensures Has(y) <==> y == x || old(Has(y)) {
        PlaceInjective(x, y);
        SetsBit(old(words[k]), At(x), At(y));
      }
    }

    method ClearBit(x: u64)
      requires words.Length == WORDS
      modifies words
      ensures forall y :: x - WINDOW < y < x + WINDOW ==> (Has(y) <==> y != x && old(Has(y)))
    {
      hide Meet, Mask, With, Without;
      var i := x % WINDOW;
      var k := i / 64;
      words[k] := Without(words[k], Mask(i % 64));
      forall y | x - WINDOW < y < x + WINDOW ensures Has(y) <==> y != x && old(Has(y)) {
        PlaceInjective(x, y);
        ClearsBit(old(words[k]), At(x), At(y));
      }
    }

    method Zero()
      requires words.Length == WORDS
      modifies words
      ensures forall x :: !Has(x)
    {
      for i := 0 to WORDS
        invariant forall k :: 0 <= k < i ==> words[k] == 0
      {
        words[i] := 0;
      }
      forall x ensures !Has(x) { NothingMeets(Mask(At(x))); }
    }

    /** A session that starts over forgets every number. */
    method Reset()
      requires Valid()
      modifies this, words
      ensures Valid() && calls == []
    {
      Zero();
      highest, calls := 0, [];
    }

    /** Forget the numbers skipped over: their places hold bits from a full turn of the ring ago. */
    method SkipOver(x: u64)
      requires words.Length == WORDS && x > highest
      modifies words
      ensures forall y :: x - WINDOW < y < x && y > highest ==> !Has(y)
      ensures forall y :: x - WINDOW < y <= highest ==> (Has(y) <==> old(Has(y)))
    {
      hide Word, At, Bit;
      if x - highest >= WINDOW {
        Zero();
      } else {
        var n := highest + 1;
        while n < x
          invariant highest < n <= x
          invariant forall y :: highest < y < n ==> !Has(y)
          invariant forall y :: x - WINDOW < y <= highest ==> (Has(y) <==> old(Has(y)))
        {
          ClearBit(n);
          n := n + 1;
        }
      }
    }

    method Accept(x: u64) returns (ok: bool)
      requires Valid()
      modifies this, words
      ensures Valid() && calls == old(calls) + [x]
      ensures ok <==> Verdict(calls, |old(calls)|)
    {
      hide Word, At, Bit, AcceptedBy, Verdict;
      AcceptedNext(calls, x);
      calls := calls + [x];
      if x == 0 {
        return false;
      }
      if x > highest {
        SkipOver(x);
        highest := x;
        ClearBit(x);
        SetBit(x);
        return true;
      }
      if highest - x >= WINDOW || Has(x) {
        return false;
      }
      SetBit(x);
      return true;
    }
  }
}
