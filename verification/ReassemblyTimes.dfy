/** Runs of the reassembler told from the arrivals alone: which fragments came when. */
module ReassemblyTimes {
  import opened Seq32
  import opened AckWire
  import opened Fragment
  import opened Reassembly

  /** An attempt at a frame: the time of its first fragment, and the fragments that came. */
  datatype Attempt = Attempt(since: int, got: set<nat>)

  /** Fragment `i` comes at `now`: within 1.2 seconds it joins the attempt, later it begins a new one. */
  function Grown(p: Option<Attempt>, i: nat, now: int): Attempt {
    if p.Some? && now <= p.value.since + 1_200_000_000 then Attempt(p.value.since, p.value.got + {i})
    else Attempt(now, {i})
  }

  predicate Whole(g: Attempt, f: Frame, c: Chunk) { forall x: nat :: x < CountOf(|f.wire|, c) ==> x in g.got }

  /** The present attempt at `f`, if it is not whole. */
  function Present(trace: seq<Arrival>, f: Frame, c: Chunk): Option<Attempt> {
    if trace == [] then None
    else
      var before, last := trace[..|trace| - 1], trace[|trace| - 1];
      if last.f != f then Present(before, f, c)
      else
        var g := Grown(Present(before, f, c), last.i, last.now);
        if Whole(g, f, c) then None else Some(g)
  }

  /** With fragment `a` the present attempt at its frame is whole. */
  predicate Finishes(trace: seq<Arrival>, a: Arrival, c: Chunk) {
    Whole(Grown(Present(trace, a.f, c), a.i, a.now), a.f, c)
  }

  predicate Alive(trace: seq<Arrival>, f: Frame, now: int, c: Chunk) {
    Present(trace, f, c).Some? && now <= Present(trace, f, c).value.since + 1_200_000_000
  }

  function FramesOf(trace: seq<Arrival>): set<Frame> { set j | 0 <= j < |trace| :: trace[j].f }

  /** The other frames that are being put together when `a` comes. */
  function Others(trace: seq<Arrival>, a: Arrival, c: Chunk): set<Frame> {
    set f | f in FramesOf(trace) && f != a.f && Alive(trace, f, a.now, c)
  }

  /** What comes next is a fragment of a frame up to the limit, no earlier than the last one; fewer than 24
      other frames are being put together, none under its tag. */
  predicate Follows(trace: seq<Arrival>, a: Arrival, c: Chunk) {
    && IsArrival(a, c) && |a.f.wire| <= 0x10_0000
    && (trace != [] ==> trace[|trace| - 1].now <= a.now)
    && (forall f :: f in Others(trace, a, c) ==> f.tag != a.f.tag)
    && |Others(trace, a, c)| < 24
  }

  predicate Orderly(trace: seq<Arrival>, c: Chunk) {
    forall j :: 0 <= j < |trace| ==> Follows(trace[..j], trace[j], c)
  }

  // ---- the slots hold the present attempts ----

  ghost predicate SlotHolds(t: Table, k: nat, trace: seq<Arrival>, c: Chunk)
    requires k < SLOTS && |t.open| == SLOTS
  {
    t.slots[k].Busy? ==>
      && t.open[k].Some? && Present(trace, t.open[k].value, c).Some?
      && var p := Present(trace, t.open[k].value, c).value;
         && t.slots[k].deadline == p.since + 1_200_000_000
         && forall x: nat :: x < |t.slots[k].parts| ==> (t.slots[k].parts[x].Some? <==> x in p.got)
  }

  /** Of a frame in no slot nothing is remembered: it came out, or its time is over. */
  ghost predicate Forgotten(trace: seq<Arrival>, f: Frame, c: Chunk) {
    Present(trace, f, c).Some? ==>
      trace != [] && trace[|trace| - 1].now > Present(trace, f, c).value.since + 1_200_000_000
  }

  ghost predicate Keeps(t: Table, trace: seq<Arrival>, c: Chunk) {
    && TableOk(t, c) && |t.open| == SLOTS
    && (forall k :: 0 <= k < SLOTS ==> SlotHolds(t, k, trace, c))
    && (forall f: Frame :: !IsOpen(t, f) ==> Forgotten(trace, f, c))
  }

  lemma {:induction false} PresentArrived(trace: seq<Arrival>, f: Frame, c: Chunk)
    ensures Present(trace, f, c).Some? ==> f in FramesOf(trace)
  {
    if trace != [] {
      var before := trace[..|trace| - 1];
      PresentArrived(before, f, c);
      assert forall j :: 0 <= j < |before| ==> before[j] == trace[j];
      hide Whole, Grown;
      assert trace[|trace| - 1].f in FramesOf(trace);
      if f in FramesOf(before) {
        var j :| 0 <= j < |before| && before[j].f == f;
        assert trace[j].f == f;
      }
    }
  }

  /** A slot that is not timed out when `a` comes assembles a frame that is being put together. */
  lemma SlotIsAlive(t: Table, trace: seq<Arrival>, a: Arrival, c: Chunk, k: nat)
    requires Keeps(t, trace, c) && k < SLOTS && Swept(t.slots, a.now)[k].Busy?
    ensures t.slots[k] == Swept(t.slots, a.now)[k] && t.slots[k].Busy? && t.open[k].Some?
    ensures t.slots[k].tag == t.open[k].value.tag && Alive(trace, t.open[k].value, a.now, c)
    ensures t.open[k] != Some(a.f) ==> t.open[k].value in Others(trace, a, c)
  {
    assert SlotHolds(t, k, trace, c) && SlotOk(t, k, c);
    PresentArrived(trace, t.open[k].value, c);
    hide Present, Distinct;
  }

  lemma NothingClashes(t: Table, trace: seq<Arrival>, a: Arrival, c: Chunk)
    requires Keeps(t, trace, c) && Follows(trace, a, c)
    ensures NoClash(t, a)
  {
    hide Keeps, Others, Alive, TableOk, IsArrival, Swept;
    KeepsTable(t, trace, c);
    forall k | 0 <= k < SLOTS && Holds(Swept(t.slots, a.now)[k], a.f.tag) ensures t.open[k] == Some(a.f) {
      SlotIsAlive(t, trace, a, c, k);
    }
  }

  lemma KeepsTable(t: Table, trace: seq<Arrival>, c: Chunk)
    requires Keeps(t, trace, c)
    ensures TableOk(t, c) && |t.open| == SLOTS && Distinct(t.slots)
  {
  }

  /** As many frames as there are slots are different frames when the tags are. */
  lemma {:induction false} ManyFrames(open: seq<Option<Frame>>, slots: Slots, n: nat) returns (fs: set<Frame>)
    requires |open| == SLOTS && n <= SLOTS && Distinct(slots)
    requires forall k :: 0 <= k < n ==> slots[k].Busy? && open[k].Some? && open[k].value.tag == slots[k].tag
    ensures |fs| == n && forall f :: f in fs ==> exists k :: 0 <= k < n && open[k] == Some(f)
  {
    fs := {};
    if n > 0 {
      fs := ManyFrames(open, slots, n - 1);
      assert open[n - 1].value !in fs;
      fs := fs + {open[n - 1].value};
      assert open[n - 1] == Some(open[n - 1].value);
    }
  }

  /** If the frame has no slot yet, one is free. */
  lemma RoomLeft(t: Table, trace: seq<Arrival>, a: Arrival, c: Chunk)
    requires Keeps(t, trace, c) && Follows(trace, a, c) && Find(Swept(t.slots, a.now), a.f.tag, 0) == SLOTS
    ensures Swept(t.slots, a.now)[Claim(Swept(t.slots, a.now))].Free?
  {
    var s := Swept(t.slots, a.now);
    if FirstFree(s, 0) == SLOTS {
      KeepsTable(t, trace, c);
      forall k | 0 <= k < SLOTS
        ensures t.slots[k].Busy? && t.open[k].Some? && t.open[k].value.tag == t.slots[k].tag
        ensures t.open[k].value in Others(trace, a, c)
      {
        assert s[k].Busy? && !Holds(s[k], a.f.tag);
        SlotIsAlive(t, trace, a, c, k);
      }
      hide Keeps, TableOk, Swept, Others;
      var fs := ManyFrames(t.open, t.slots, SLOTS);
      assert fs <= Others(trace, a, c);
      SetsGrow(fs, Others(trace, a, c));
    }
  }

  lemma SetsGrow<T>(x: set<T>, y: set<T>)
    requires x <= y
    ensures |x| <= |y|
  {
    assert y == x + (y - x);
  }

  lemma PresentNext(trace: seq<Arrival>, a: Arrival, f: Frame, c: Chunk)
    ensures Present(trace + [a], f, c) ==
      if a.f != f then Present(trace, f, c)
      else if Finishes(trace, a, c) then None else Some(Grown(Present(trace, f, c), a.i, a.now))
  {
    hide Whole, Grown;
    assert (trace + [a])[..|trace|] == trace;
  }

  /** The slot a fragment goes to holds the present attempt, grown by the fragment once it is put in. */
  lemma PlaceGrows(t: Table, trace: seq<Arrival>, a: Arrival, c: Chunk)
    requires Keeps(t, trace, c) && Follows(trace, a, c)
    ensures var s := Swept(t.slots, a.now);
      var (k, slot) := Place(s, a.f.tag, |a.f.wire|, CountOf(|a.f.wire|, c), a.now);
      var g := Grown(Present(trace, a.f, c), a.i, a.now);
      && k < SLOTS && slot.Busy? && slot.deadline == g.since + 1_200_000_000
      && a.i < |slot.parts| == CountOf(|a.f.wire|, c)
      && (forall x: nat :: x < |slot.parts| ==> (slot.parts[x].Some? || x == a.i <==> x in g.got))
      && (s[k].Free? || t.open[k] == Some(a.f))
  {
    NothingClashes(t, trace, a, c);
    KeepsTable(t, trace, c);
    PlaceIsRight(t, a, c);
    var s := Swept(t.slots, a.now);
    var (k, slot) := Place(s, a.f.tag, |a.f.wire|, CountOf(|a.f.wire|, c), a.now);
    AssemblesTag(slot, a.f, c);
    ArrivalIndex(a, c);
    if Find(s, a.f.tag, 0) < SLOTS {
      SlotIsAlive(t, trace, a, c, k);
      PlaceIsOpen(t, trace, a, c, k);
    } else {
      RoomLeft(t, trace, a, c);
      StartsAnewInSlot(t, trace, a, c);
      hide Keeps, TableOk, NoClash, Swept, Present, Others, Assembles, Claim, Find, IsArrival, CountOf;
    }
  }

  lemma PlaceIsOpen(t: Table, trace: seq<Arrival>, a: Arrival, c: Chunk, k: nat)
    requires Keeps(t, trace, c) && NoClash(t, a) && k < SLOTS && Holds(Swept(t.slots, a.now)[k], a.f.tag)
    requires t.slots[k] == Swept(t.slots, a.now)[k] && t.open[k].Some? && Alive(trace, t.open[k].value, a.now, c)
    ensures t.open[k] == Some(a.f)
    ensures var g := Grown(Present(trace, a.f, c), a.i, a.now);
      && t.slots[k].deadline == g.since + 1_200_000_000
      && (forall x: nat :: x < |t.slots[k].parts| ==> (t.slots[k].parts[x].Some? || x == a.i <==> x in g.got))
  {
    assert SlotHolds(t, k, trace, c);
    hide TableOk, Present;
  }

  /** With no slot for the frame there is no attempt to go on with. */
  lemma StartsAnewInSlot(t: Table, trace: seq<Arrival>, a: Arrival, c: Chunk)
    requires Keeps(t, trace, c) && Follows(trace, a, c) && Find(Swept(t.slots, a.now), a.f.tag, 0) == SLOTS
    ensures Grown(Present(trace, a.f, c), a.i, a.now) == Attempt(a.now, {a.i})
  {
    hide Present, Others, Distinct, IsArrival;
    if IsOpen(t, a.f) {
      var k :| 0 <= k < |t.open| && t.open[k] == Some(a.f);
      assert SlotHolds(t, k, trace, c) && SlotOk(t, k, c);
      assert !Holds(Swept(t.slots, a.now)[k], a.f.tag);
    } else {
      assert Forgotten(trace, a.f, c);
    }
  }

  /** The frame comes out exactly when the attempt is whole. */
  lemma FullIsWhole(slot: Slot, a: Arrival, g: Attempt, c: Chunk)
    requires Assembles(slot, a.f, c) && a.i < |slot.parts| == CountOf(|a.f.wire|, c)
    requires forall x: nat :: x < |slot.parts| ==> (slot.parts[x].Some? || x == a.i <==> x in g.got)
    ensures var filled := Filled(slot, a.i, PartOf(a.f.wire, a.i, c));
      && filled.Busy? && (filled.received < filled.count <==> !Whole(g, a.f, c)) && filled.deadline == slot.deadline
      && |filled.parts| == |slot.parts|
      && (forall x: nat :: x < |filled.parts| ==> (filled.parts[x].Some? <==> x in g.got))
  {
    FilledAssembles(slot, a.f, a.i, c);
    hide CountOf, PartOf, Got;
    var filled := Filled(slot, a.i, PartOf(a.f.wire, a.i, c));
    GotAll(filled.parts);
    if x: nat :| x < CountOf(|a.f.wire|, c) && x !in g.got {
      assert filled.parts[x].None?;
    } else {
      assert forall x :: 0 <= x < |filled.parts| ==> filled.parts[x].Some?;
    }
  }

  /** One more fragment. */
  lemma StepKeeps(t: Table, trace: seq<Arrival>, a: Arrival, c: Chunk)
    requires Keeps(t, trace, c) && Follows(trace, a, c)
    ensures Keeps(Next(t, a, c), trace + [a], c)
    ensures Out(t, a, c) == if Finishes(trace, a, c) then Up(a.f.wire) else Nothing
  {
    hide *;
    NothingClashes(t, trace, a, c);
    KeepsTable(t, trace, c);
    FollowsMeans(trace, a, c);
    FragmentFits(t, a, c);
    PlaceIsRight(t, a, c);
    PlaceGrows(t, trace, a, c);
    NextOk(t, a, c);
    var s := Swept(t.slots, a.now);
    var (k, slot) := Place(s, a.f.tag, |a.f.wire|, CountOf(|a.f.wire|, c), a.now);
    var g := Grown(Present(trace, a.f, c), a.i, a.now);
    FullIsWhole(slot, a, g, c);
    var filled := Filled(slot, a.i, PartOf(a.f.wire, a.i, c));
    AssemblesTag(filled, a.f, c);
    FinishesMeans(trace, a, c);
    NextIs(t, a, c, k, filled);
    LandedKeeps(t, trace, a, c, k, filled);
  }

  lemma FollowsMeans(trace: seq<Arrival>, a: Arrival, c: Chunk)
    requires Follows(trace, a, c)
    ensures IsArrival(a, c) && |a.f.wire| <= MAX_FRAME && (trace != [] ==> trace[|trace| - 1].now <= a.now)
  {
  }

  lemma FinishesMeans(trace: seq<Arrival>, a: Arrival, c: Chunk)
    ensures Finishes(trace, a, c) <==> Whole(Grown(Present(trace, a.f, c), a.i, a.now), a.f, c)
  {
  }

  lemma NextIs(t: Table, a: Arrival, c: Chunk, k: nat, filled: Slot)
    requires |t.open| == SLOTS && |a.f.wire| <= MAX_FRAME && k < SLOTS && filled.Busy? && k == Slotted(t, a, c)
    requires Push(t.slots, a.body, a.now, c) == Landed(Swept(t.slots, a.now), a, c, k, filled)
    ensures var slots := Landed(Swept(t.slots, a.now), a, c, k, filled).0;
      Next(t, a, c) == Table(slots, Reopened(t.open, slots, a.f, k))
    ensures Out(t, a, c) == if filled.received < filled.count then Nothing else Up(a.f.wire)
  {
    hide Push, Slotted, Swept, Reopened;
  }

  lemma LandedKeeps(t: Table, trace: seq<Arrival>, a: Arrival, c: Chunk, k: nat, filled: Slot)
    requires Keeps(t, trace, c) && k < SLOTS && filled.Busy? && |t.open| == SLOTS
    requires trace != [] ==> trace[|trace| - 1].now <= a.now
    requires var s := Swept(t.slots, a.now);
      && (s[k].Free? || t.open[k] == Some(a.f))
      && (forall j :: 0 <= j < SLOTS && j != k && s[j].Busy? ==> s[j].tag != a.f.tag)
    requires var g := Grown(Present(trace, a.f, c), a.i, a.now);
      && filled.deadline == g.since + 1_200_000_000
      && (forall x: nat :: x < |filled.parts| ==> (filled.parts[x].Some? <==> x in g.got))
    requires filled.received < filled.count <==> !Finishes(trace, a, c)
    requires var slots := Landed(Swept(t.slots, a.now), a, c, k, filled).0;
      TableOk(Table(slots, Reopened(t.open, slots, a.f, k)), c)
    ensures var slots := Landed(Swept(t.slots, a.now), a, c, k, filled).0;
      Keeps(Table(slots, Reopened(t.open, slots, a.f, k)), trace + [a], c)
  {
    var s := Swept(t.slots, a.now);
    var slots := Landed(s, a, c, k, filled).0;
    var u := Table(slots, Reopened(t.open, slots, a.f, k));
    forall j | 0 <= j < SLOTS ensures SlotHolds(u, j, trace + [a], c) {
      SlotStillHolds(t, trace, a, c, k, filled, j);
    }
    forall f: Frame | !IsOpen(u, f) ensures Forgotten(trace + [a], f, c) {
      StaysForgotten(t, trace, a, c, k, filled, f);
    }
    hide SlotHolds, Forgotten, TableOk, Reopened, Landed, Swept;
  }

  lemma SlotStillHolds(t: Table, trace: seq<Arrival>, a: Arrival, c: Chunk, k: nat, filled: Slot, j: nat)
    requires Keeps(t, trace, c) && k < SLOTS && filled.Busy? && |t.open| == SLOTS && j < SLOTS
    requires var s := Swept(t.slots, a.now);
      forall i :: 0 <= i < SLOTS && i != k && s[i].Busy? ==> s[i].tag != a.f.tag
    requires var g := Grown(Present(trace, a.f, c), a.i, a.now);
      && filled.deadline == g.since + 1_200_000_000
      && (forall x: nat :: x < |filled.parts| ==> (filled.parts[x].Some? <==> x in g.got))
    requires filled.received < filled.count <==> !Finishes(trace, a, c)
    ensures var slots := Landed(Swept(t.slots, a.now), a, c, k, filled).0;
      SlotHolds(Table(slots, Reopened(t.open, slots, a.f, k)), j, trace + [a], c)
  {
    var s := Swept(t.slots, a.now);
    assert SlotHolds(t, j, trace, c) && SlotOk(t, j, c);
    if t.open[j].Some? { PresentNext(trace, a, t.open[j].value, c); }
    PresentNext(trace, a, a.f, c);
    if j != k && s[j].Busy? { SlotIsAlive(t, trace, a, c, j); }
    hide Keeps, Present, Finishes, Grown, TableOk, Distinct, Whole, Others, Alive, CountOf;
  }

  lemma LandedIsOpen(t: Table, a: Arrival, c: Chunk, k: nat, filled: Slot)
    requires k < SLOTS && filled.Busy? && |t.open| == SLOTS && filled.received < filled.count
    ensures var slots := Landed(Swept(t.slots, a.now), a, c, k, filled).0;
      IsOpen(Table(slots, Reopened(t.open, slots, a.f, k)), a.f)
  {
    var slots := Landed(Swept(t.slots, a.now), a, c, k, filled).0;
    assert Reopened(t.open, slots, a.f, k)[k] == Some(a.f);
  }

  lemma StaysForgotten(t: Table, trace: seq<Arrival>, a: Arrival, c: Chunk, k: nat, filled: Slot, f: Frame)
    requires Keeps(t, trace, c) && k < SLOTS && filled.Busy? && |t.open| == SLOTS
    requires trace != [] ==> trace[|trace| - 1].now <= a.now
    requires Swept(t.slots, a.now)[k].Free? || t.open[k] == Some(a.f)
    requires filled.received < filled.count <==> !Finishes(trace, a, c)
    requires var slots := Landed(Swept(t.slots, a.now), a, c, k, filled).0;
      !IsOpen(Table(slots, Reopened(t.open, slots, a.f, k)), f)
    ensures Forgotten(trace + [a], f, c)
  {
    PresentNext(trace, a, f, c);
    hide Present, Finishes, Grown, Distinct, Whole;
    var slots := Landed(Swept(t.slots, a.now), a, c, k, filled).0;
    var open := Reopened(t.open, slots, a.f, k);
    if filled.received < filled.count { LandedIsOpen(t, a, c, k, filled); }
    if f == a.f {
      assert !(filled.received < filled.count);
    } else if IsOpen(t, f) {
      var j :| 0 <= j < |t.open| && t.open[j] == Some(f);
      assert SlotHolds(t, j, trace, c) && SlotOk(t, j, c);
      assert open[j] != Some(f);
      assert Swept(t.slots, a.now)[j].Free?;
    } else {
      assert Forgotten(trace, f, c);
    }
  }

  // ---- what comes out, and when ----

  lemma {:induction false} OrderlyKeeps(trace: seq<Arrival>, c: Chunk)
    requires Orderly(trace, c)
    ensures Keeps(After(trace, c), trace, c)
    decreases |trace|
  {
    hide Keeps, Follows, Next;
    if trace == [] {
      NothingKept(c);
    } else {
      var n := |trace| - 1;
      OrderlyPrefix(trace, n, c);
      OrderlyKeeps(trace[..n], c);
      StepKeeps(After(trace[..n], c), trace[..n], trace[n], c);
      assert trace[..n] + [trace[n]] == trace;
    }
  }

  lemma NothingKept(c: Chunk)
    ensures Keeps(After([], c), [], c)
  {
    EmptyIsOk(c);
  }

  lemma OrderlyPrefix(trace: seq<Arrival>, n: nat, c: Chunk)
    requires Orderly(trace, c) && n <= |trace|
    ensures Orderly(trace[..n], c)
  {
    hide Follows;
    forall j | 0 <= j < n ensures Follows(trace[..n][..j], trace[..n][j], c) {
      assert trace[..n][..j] == trace[..j];
    }
  }

  /** Fragments of any frames in any order, repeated or padded, at any times: a frame comes out exactly when
      the fragments of an attempt are all there, an attempt lasting 1.2 seconds from its first fragment. */
  lemma ComesOutExactly(trace: seq<Arrival>, j: nat, c: Chunk)
    requires Orderly(trace, c) && j < |trace|
    ensures Out(After(trace[..j], c), trace[j], c) ==
      if Finishes(trace[..j], trace[j], c) then Up(trace[j].f.wire) else Nothing
  {
    OrderlyPrefix(trace, j, c);
    OrderlyKeeps(trace[..j], c);
    hide Keeps, Finishes, Out, After;
    StepKeeps(After(trace[..j], c), trace[..j], trace[j], c);
  }

  /** The first fragment of `f` since it last came out, and all that came since, however long ago. */
  function Since(trace: seq<Arrival>, f: Frame, c: Chunk): Option<Attempt> {
    if trace == [] then None
    else
      var before, last := trace[..|trace| - 1], trace[|trace| - 1];
      if last.f != f then Since(before, f, c)
      else
        var p := Since(before, f, c);
        var g := if p.Some? then Attempt(p.value.since, p.value.got + {last.i}) else Attempt(last.now, {last.i});
        if Whole(g, f, c) then None else Some(g)
  }

  /** Every fragment comes at most 1.2 seconds after the first one of its frame since that last came out. */
  predicate Prompt(trace: seq<Arrival>, c: Chunk) {
    forall j :: 0 <= j < |trace| && Since(trace[..j], trace[j].f, c).Some? ==>
      trace[j].now <= Since(trace[..j], trace[j].f, c).value.since + 1_200_000_000
  }

  lemma {:induction false} PromptIsPresent(trace: seq<Arrival>, f: Frame, c: Chunk)
    requires Prompt(trace, c)
    ensures Present(trace, f, c) == Since(trace, f, c)
    decreases |trace|
  {
    if trace != [] {
      var n := |trace| - 1;
      forall j | 0 <= j < n ensures trace[..n][..j] == trace[..j] {}
      PromptIsPresent(trace[..n], f, c);
      hide Whole;
    }
  }

  /** The fragments that have come once fragment `i` has. */
  function Came(p: Option<Attempt>, i: nat): set<nat> { (if p.Some? then p.value.got else {}) + {i} }

  /** When all fragments of a frame come in time it comes out exactly at the last one missing: every other
      one has come since it last came out. */
  lemma ComesOutInTime(trace: seq<Arrival>, j: nat, c: Chunk)
    requires Orderly(trace, c) && Prompt(trace, c) && j < |trace|
    ensures var a, p := trace[j], Since(trace[..j], trace[j].f, c);
      Out(After(trace[..j], c), a, c) ==
        if forall x: nat :: x < CountOf(|a.f.wire|, c) ==> x in Came(p, a.i) then Up(a.f.wire) else Nothing
  {
    hide *;
    ComesOutExactly(trace, j, c);
    PromptPrefix(trace, j, c);
    PromptIsPresent(trace[..j], trace[j].f, c);
    InTime(trace[..j], trace[j], c);
  }

  lemma PromptPrefix(trace: seq<Arrival>, j: nat, c: Chunk)
    requires Prompt(trace, c) && j < |trace|
    ensures Prompt(trace[..j], c)
    ensures var p := Since(trace[..j], trace[j].f, c); p.Some? ==> trace[j].now <= p.value.since + 1_200_000_000
  {
    hide Since;
    forall i | 0 <= i < j ensures trace[..j][..i] == trace[..i] {}
  }

  lemma InTime(trace: seq<Arrival>, a: Arrival, c: Chunk)
    requires var p := Present(trace, a.f, c); p.Some? ==> a.now <= p.value.since + 1_200_000_000
    ensures var p := Present(trace, a.f, c);
      Finishes(trace, a, c) <==> forall x: nat :: x < CountOf(|a.f.wire|, c) ==> x in Came(p, a.i)
  {
    hide Present, CountOf;
    var g := Grown(Present(trace, a.f, c), a.i, a.now);
    assert g.got == Came(Present(trace, a.f, c), a.i);
  }

  /** A fragment that comes later than that begins its frame anew: what came before is gone, and the frame
      comes out only if this is its only fragment. */
  lemma LateStartsAnew(trace: seq<Arrival>, j: nat, c: Chunk)
    requires Orderly(trace, c) && j < |trace|
    requires var p := Present(trace[..j], trace[j].f, c);
      p.Some? && trace[j].now > p.value.since + 1_200_000_000
    ensures var a := trace[j];
      && (CountOf(|a.f.wire|, c) > 1 ==>
            && Out(After(trace[..j], c), a, c) == Nothing
            && Present(trace[..j + 1], a.f, c) == Some(Attempt(a.now, {a.i})))
      && (CountOf(|a.f.wire|, c) == 1 ==> Out(After(trace[..j], c), a, c) == Up(a.f.wire))
  {
    hide *;
    var a := trace[j];
    ComesOutExactly(trace, j, c);
    PresentNext(trace[..j], a, a.f, c);
    assert trace[..j] + [a] == trace[..j + 1];
    OrderlyAt(trace, j, c);
    FollowsMeans(trace[..j], a, c);
    ArrivalIndex(a, c);
    TooLate(trace[..j], a, c);
  }

  lemma OrderlyAt(trace: seq<Arrival>, j: nat, c: Chunk)
    requires Orderly(trace, c) && j < |trace|
    ensures Follows(trace[..j], trace[j], c)
  {
  }

  lemma TooLate(trace: seq<Arrival>, a: Arrival, c: Chunk)
    requires a.i < CountOf(|a.f.wire|, c)
    requires var p := Present(trace, a.f, c); p.Some? && a.now > p.value.since + 1_200_000_000
    ensures Grown(Present(trace, a.f, c), a.i, a.now) == Attempt(a.now, {a.i})
    ensures Finishes(trace, a, c) <==> CountOf(|a.f.wire|, c) == 1
  {
    hide Present, CountOf;
    var g := Grown(Present(trace, a.f, c), a.i, a.now);
    if CountOf(|a.f.wire|, c) > 1 {
      var x: nat := if a.i == 0 then 1 else 0;
      assert x !in g.got;
    }
  }
}
