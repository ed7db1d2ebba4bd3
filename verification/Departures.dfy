/** The history of what left: every piece sent for the first time or again, in order. */
module Departures {

  /** Piece `i` left on `lane` at time `at`. */
  datatype Departure = Departure(i: int, lane: int, at: int)

  /** How often piece `i` left. */
  function Left(sends: seq<Departure>, i: int): nat {
    if sends == [] then 0
    else Left(sends[..|sends| - 1], i) + if sends[|sends| - 1].i == i then 1 else 0
  }

  /** The position of its last departure. */
  function Last(sends: seq<Departure>, i: int): (k: int)
    ensures -1 <= k < |sends| && (k >= 0 ==> sends[k].i == i)
    ensures forall j :: k < j < |sends| ==> sends[j].i != i
    ensures k >= 0 <==> Left(sends, i) > 0
  {
    if sends == [] then -1
    else if sends[|sends| - 1].i == i then |sends| - 1
    else Last(sends[..|sends| - 1], i)
  }

  /** How many departures there were on a lane. */
  function OnLane(sends: seq<Departure>, l: int): nat {
    if sends == [] then 0
    else OnLane(sends[..|sends| - 1], l) + if sends[|sends| - 1].lane == l then 1 else 0
  }

  /** The number of a departure on its lane. */
  function Ordinal(sends: seq<Departure>, k: nat): nat
    requires k < |sends|
  {
    OnLane(sends[..k + 1], sends[k].lane)
  }

  lemma LeftMore(sends: seq<Departure>, d: Departure, i: int)
    ensures Left(sends + [d], i) == Left(sends, i) + if d.i == i then 1 else 0
    ensures Last(sends + [d], i) == if d.i == i then |sends| else Last(sends, i)
  {
    assert (sends + [d])[..|sends|] == sends;
  }

  lemma OnLaneMore(sends: seq<Departure>, d: Departure, l: int)
    ensures OnLane(sends + [d], l) == OnLane(sends, l) + if d.lane == l then 1 else 0
  {
    assert (sends + [d])[..|sends|] == sends;
  }

  lemma OrdinalStays(sends: seq<Departure>, d: Departure, k: nat)
    requires k < |sends|
    ensures Ordinal(sends + [d], k) == Ordinal(sends, k)
  {
    assert (sends + [d])[..k + 1] == sends[..k + 1];
  }

  lemma OrdinalLast(sends: seq<Departure>, d: Departure)
    ensures Ordinal(sends + [d], |sends|) == OnLane(sends, d.lane) + 1
  {
    assert (sends + [d])[..|sends| + 1] == sends + [d];
    OnLaneMore(sends, d, d.lane);
  }

  lemma {:induction false} OnLaneGrows(sends: seq<Departure>, j: nat, k: nat, l: int)
    requires j <= k <= |sends|
    ensures OnLane(sends[..j], l) <= OnLane(sends[..k], l)
    decreases k - j
  {
    if j < k {
      OnLaneGrows(sends, j, k - 1, l);
      assert sends[..k] == sends[..k - 1] + [sends[k - 1]];
      OnLaneMore(sends[..k - 1], sends[k - 1], l);
    }
  }

  /** Of two departures on one lane the later one has the greater number. */
  lemma OrdinalOrders(sends: seq<Departure>, j: nat, k: nat)
    requires j < |sends| && k < |sends| && sends[j].lane == sends[k].lane
    ensures Ordinal(sends, j) < Ordinal(sends, k) <==> j < k
  {
    if j < k {
      OrdinalLess(sends, j, k);
    } else if k < j {
      OrdinalLess(sends, k, j);
    }
  }

  lemma OrdinalLess(sends: seq<Departure>, j: nat, k: nat)
    requires j < k < |sends| && sends[j].lane == sends[k].lane
    ensures Ordinal(sends, j) < Ordinal(sends, k)
  {
    OnLaneGrows(sends, j + 1, k, sends[j].lane);
    assert sends[..k + 1] == sends[..k] + [sends[k]];
    OnLaneMore(sends[..k], sends[k], sends[k].lane);
  }

  lemma OrdinalPositive(sends: seq<Departure>, k: nat)
    requires k < |sends|
    ensures 0 < Ordinal(sends, k) <= OnLane(sends, sends[k].lane)
  {
    assert sends[..k + 1] == sends[..k] + [sends[k]];
    OnLaneMore(sends[..k], sends[k], sends[k].lane);
    OnLaneGrows(sends, k + 1, |sends|, sends[k].lane);
    assert sends[..|sends|] == sends;
  }

  /** Pieces `xs` leave, one after the other, on one lane at one time. */
  function Leave(xs: seq<int>, lane: int, now: int): (ds: seq<Departure>)
    ensures |ds| == |xs|
  {
    seq(|xs|, k requires 0 <= k < |xs| => Departure(xs[k], lane, now))
  }

  lemma LeaveMore(xs: seq<int>, x: int, lane: int, now: int)
    ensures Leave(xs + [x], lane, now) == Leave(xs, lane, now) + [Departure(x, lane, now)]
  {
  }
}
