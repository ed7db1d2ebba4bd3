/** Runs of the reassembler: fragments of any frames, in any order, any number of times, at any time. */
module Reassembly {
  import opened Seq32
  import opened BigEndian
  import opened AckWire
  import opened Fragment

  /** Fragment `i` of `f` arrives, perhaps padded. */
  datatype Arrival = Arrival(f: Frame, i: nat, body: Bytes, now: int)

  /** The slots, and the frame each one assembles. */
  datatype Table = Table(slots: Slots, open: seq<Option<Frame>>)

  function AllFree(): Slots { seq(SLOTS, _ => Free) }

  function NoneOpen(): seq<Option<Frame>> { seq(SLOTS, _ => None) }

  predicate Cuttable(f: Frame, c: Chunk) { CountOf(|f.wire|, c) <= MAX_FRAGMENTS && |f.wire| < TWO32 }

  predicate IsArrival(a: Arrival, c: Chunk) {
    Cuttable(a.f, c) && a.i < CountOf(|a.f.wire|, c) && FragmentOf(a.f, a.i, c) <= a.body
  }

  lemma HeaderReads(i: byte, n: byte, total: Bytes, tag: byte, p: Bytes, body: Bytes)
    requires |total| == 4 && [FRAG_MAGIC, i, n] + total + [tag] + p <= body
    ensures IsTagged(body) && body[1] == i && body[2] == n && body[3..7] == total && body[7] == tag
    ensures |p| <= |body| - HEADER && body[HEADER..HEADER + |p|] == p
  {
    var b := [FRAG_MAGIC, i, n] + total + [tag] + p;
    assert b[3..7] == total && b[HEADER..] == p;
    assert body[3..7] == b[3..7] && body[HEADER..HEADER + |p|] == b[HEADER..];
    assert forall k :: 0 <= k < HEADER ==> body[k] == b[k];
  }

  /** What the reassembler reads in a fragment. It takes part in a frame up to the limit. */
  lemma FragmentReads(a: Arrival, c: Chunk)
    requires IsArrival(a, c)
    ensures IsTagged(a.body) && a.body[1] == a.i && a.body[2] == CountOf(|a.f.wire|, c)
    ensures TotalIn(a.body) == |a.f.wire| && a.body[7] == a.f.tag
    ensures WellFormed(a.body, c) <==> |a.f.wire| <= MAX_FRAME
    ensures WellFormed(a.body, c) ==>
      a.body[HEADER..HEADER + Want(a.i, CountOf(|a.f.wire|, c), |a.f.wire|, c)] == PartOf(a.f.wire, a.i, c)
  {
    hide PartOf, CountOf, Want, Put, Get;
    Widths();
    GetPut(|a.f.wire|, 4);
    HeaderReads(a.i, CountOf(|a.f.wire|, c), Put(|a.f.wire|, 4), a.f.tag, PartOf(a.f.wire, a.i, c), a.body);
    PartIsWanted(a.f.wire, a.i, c);
  }

  function Slotted(t: Table, a: Arrival, c: Chunk): nat {
    Place(Swept(t.slots, a.now), a.f.tag, |a.f.wire|, CountOf(|a.f.wire|, c), a.now).0
  }

  /** The frames that `slots` assemble after frame `f` was given slot `at`. */
  function Reopened(open: seq<Option<Frame>>, slots: Slots, f: Frame, at: int): (r: seq<Option<Frame>>)
    requires |open| == SLOTS
    ensures |r| == SLOTS
  {
    seq(SLOTS, k requires 0 <= k < SLOTS =>
      if slots[k].Free? then None else if k == at then Some(f) else open[k])
  }

  function Next(t: Table, a: Arrival, c: Chunk): Table {
    if |t.open| != SLOTS then t
    else
      var slots := Push(t.slots, a.body, a.now, c).0;
      Table(slots, Reopened(t.open, slots, a.f, if |a.f.wire| <= MAX_FRAME then Slotted(t, a, c) else -1))
  }

  function Out(t: Table, a: Arrival, c: Chunk): Outcome { Push(t.slots, a.body, a.now, c).1 }

  function After(trace: seq<Arrival>, c: Chunk): Table {
    if trace == [] then Table(AllFree(), NoneOpen()) else Next(After(trace[..|trace| - 1], c), trace[|trace| - 1], c)
  }

  /** No other frame with the same tag is open when a fragment arrives. */
  predicate NoClash(t: Table, a: Arrival) {
    |t.open| == SLOTS && forall k :: 0 <= k < SLOTS && Holds(Swept(t.slots, a.now)[k], a.f.tag) ==>
      t.open[k] == Some(a.f)
  }

  ghost predicate Tame(trace: seq<Arrival>, c: Chunk) {
    forall j :: 0 <= j < |trace| ==> IsArrival(trace[j], c) && NoClash(After(trace[..j], c), trace[j])
  }

  // ---- the invariant ----

  ghost predicate SlotOk(t: Table, k: nat, c: Chunk)
    requires k < SLOTS && |t.open| == SLOTS
  {
    && (t.slots[k].Free? <==> t.open[k].None?)
    && (t.slots[k].Busy? ==> Assembles(t.slots[k], t.open[k].value, c) && t.slots[k].received < t.slots[k].count)
  }

  predicate Distinct(s: Slots) {
    forall j, k :: 0 <= j < k < SLOTS && s[j].Busy? && s[k].Busy? ==> s[j].tag != s[k].tag
  }

  ghost predicate TableOk(t: Table, c: Chunk) {
    |t.open| == SLOTS && Distinct(t.slots) && forall k :: 0 <= k < SLOTS ==> SlotOk(t, k, c)
  }

  lemma EmptyIsOk(c: Chunk)
    ensures TableOk(Table(AllFree(), NoneOpen()), c)
  {
  }

  /** The slot that a fragment goes to assembles its frame, and no other slot has its tag. */
  lemma PlaceIsRight(t: Table, a: Arrival, c: Chunk)
    requires TableOk(t, c) && IsArrival(a, c) && NoClash(t, a)
    ensures var s := Swept(t.slots, a.now);
      var (k, slot) := Place(s, a.f.tag, |a.f.wire|, CountOf(|a.f.wire|, c), a.now);
      && k == Slotted(t, a, c) && Assembles(slot, a.f, c) && slot.received < slot.count
      && (forall j :: 0 <= j < SLOTS && j != k && s[j].Busy? ==> s[j].tag != a.f.tag)
  {
    var s := Swept(t.slots, a.now);
    var k := Find(s, a.f.tag, 0);
    if k < SLOTS {
      assert SlotOk(t, k, c);
      forall j | 0 <= j < SLOTS && j != k && s[j].Busy? ensures s[j].tag != a.f.tag {
        assert s[j] == t.slots[j] && s[k] == t.slots[k];
      }
    } else {
      OpenedAssembles(a.f, a.now, c);
    }
  }

  /** What the reassembler does with a fragment, in frames. */
  function Landed(s: Slots, a: Arrival, c: Chunk, k: nat, filled: Slot): (Slots, Outcome)
    requires k < SLOTS && filled.Busy?
  {
    if filled.received < filled.count then (s[k := filled], Nothing) else (s[k := Free], Up(a.f.wire))
  }

  lemma FragmentFits(t: Table, a: Arrival, c: Chunk)
    requires TableOk(t, c) && IsArrival(a, c) && NoClash(t, a)
    ensures |a.f.wire| > MAX_FRAME ==> Push(t.slots, a.body, a.now, c) == (t.slots, Nothing)
    ensures |a.f.wire| <= MAX_FRAME ==>
      var s := Swept(t.slots, a.now);
      var (k, slot) := Place(s, a.f.tag, |a.f.wire|, CountOf(|a.f.wire|, c), a.now);
      Assembles(slot, a.f, c) && slot.received < slot.count && a.i < |slot.parts| &&
      var filled := Filled(slot, a.i, PartOf(a.f.wire, a.i, c));
      && Push(t.slots, a.body, a.now, c) == Landed(s, a, c, k, filled)
      && Assembles(filled, a.f, c) && filled.received <= filled.count
  {
    FragmentReads(a, c);
    PlaceIsRight(t, a, c);
    hide TableOk, NoClash, Place, PartOf, CountOf, Want, Swept, Assembles, Joined, WellFormed, IsArrival, TotalIn,
      Filled, Want;
    ArrivalIndex(a, c);
    var (k, slot) := Place(Swept(t.slots, a.now), a.f.tag, |a.f.wire|, CountOf(|a.f.wire|, c), a.now);
    FilledCounts(slot, a.f, a.i, c);
  }

  lemma ArrivalIndex(a: Arrival, c: Chunk)
    requires IsArrival(a, c)
    ensures a.i < CountOf(|a.f.wire|, c)
  {
  }

  lemma FilledCounts(s: Slot, f: Frame, i: nat, c: Chunk)
    requires Assembles(s, f, c) && i < CountOf(|f.wire|, c)
    ensures i < |s.parts| && Assembles(Filled(s, i, PartOf(f.wire, i, c)), f, c)
    ensures var g := Filled(s, i, PartOf(f.wire, i, c));
      && g.received <= g.count && (g.received == g.count ==> Joined(g.parts) == f.wire) && g.total == |f.wire|
  {
    FilledAssembles(s, f, i, c);
    var g := Filled(s, i, PartOf(f.wire, i, c));
    if g.received == g.count { FullSlotIsTheFrame(g, f, c); }
  }

  lemma SweptOk(t: Table, now: int, c: Chunk)
    requires TableOk(t, c)
    ensures Distinct(Swept(t.slots, now))
    ensures forall k :: 0 <= k < SLOTS && Swept(t.slots, now)[k].Busy? ==> Swept(t.slots, now)[k] == t.slots[k]
  {
  }

  /** A fragment of `f` given slot `k` leaves a table in which that slot assembles `f`, or is free. */
  lemma LandedOk(t: Table, a: Arrival, c: Chunk, k: nat, filled: Slot)
    requires TableOk(t, c) && k < SLOTS && Assembles(filled, a.f, c) && filled.received <= filled.count
    requires var s := Swept(t.slots, a.now);
      forall j :: 0 <= j < SLOTS && j != k && s[j].Busy? ==> s[j].tag != a.f.tag
    ensures var slots := Landed(Swept(t.slots, a.now), a, c, k, filled).0;
      TableOk(Table(slots, Reopened(t.open, slots, a.f, k)), c)
  {
    SweptOk(t, a.now, c);
    var s := Swept(t.slots, a.now);
    var slots := Landed(s, a, c, k, filled).0;
    hide Assembles, Swept;
    assert filled.tag == a.f.tag by { AssemblesTag(filled, a.f, c); }
    forall j | 0 <= j < SLOTS ensures SlotOk(Table(slots, Reopened(t.open, slots, a.f, k)), j, c) {
      assert SlotOk(t, j, c);
    }
  }

  lemma AssemblesTag(s: Slot, f: Frame, c: Chunk)
    requires Assembles(s, f, c)
    ensures s.tag == f.tag && s.count == |s.parts| == CountOf(|f.wire|, c)
  {
  }

  lemma NextOk(t: Table, a: Arrival, c: Chunk)
    requires TableOk(t, c) && IsArrival(a, c) && NoClash(t, a)
    ensures TableOk(Next(t, a, c), c)
    ensures Out(t, a, c) in {Up(a.f.wire), Nothing}
  {
    FragmentFits(t, a, c);
    hide Push, NoClash, IsArrival, Filled, Place, PartOf, CountOf;
    if |a.f.wire| > MAX_FRAME {
      StaysOk(t, a, c);
    } else {
      PlaceIsRight(t, a, c);
      var (k, slot) := Place(Swept(t.slots, a.now), a.f.tag, |a.f.wire|, CountOf(|a.f.wire|, c), a.now);
      LandedOk(t, a, c, k, Filled(slot, a.i, PartOf(a.f.wire, a.i, c)));
    }
  }

  lemma StaysOk(t: Table, a: Arrival, c: Chunk)
    requires TableOk(t, c)
    ensures Reopened(t.open, t.slots, a.f, -1) == t.open
  {
    hide Assembles;
    forall k | 0 <= k < SLOTS ensures Reopened(t.open, t.slots, a.f, -1)[k] == t.open[k] { assert SlotOk(t, k, c); }
  }

  lemma {:induction false} AfterOk(trace: seq<Arrival>, c: Chunk)
    requires Tame(trace, c)
    ensures TableOk(After(trace, c), c)
  {
    if trace == [] {
      EmptyIsOk(c);
    } else {
      var n := |trace| - 1;
      TamePrefix(trace, n, c);
      AfterOk(trace[..n], c);
      NextOk(After(trace[..n], c), trace[n], c);
    }
  }

  lemma TamePrefix(trace: seq<Arrival>, n: nat, c: Chunk)
    requires Tame(trace, c) && n <= |trace|
    ensures Tame(trace[..n], c)
  {
    forall j | 0 <= j < n ensures IsArrival(trace[..n][j], c) && NoClash(After(trace[..n][..j], c), trace[..n][j]) {
      assert trace[..n][..j] == trace[..j];
    }
  }

  /** Reassembly never mixes frames: however fragments are interleaved, repeated, padded, evicted or
      timed out, a frame that comes out is, byte for byte, the frame whose fragment completed it. */
  lemma NeverMixes(trace: seq<Arrival>, j: nat, c: Chunk)
    requires Tame(trace, c) && j < |trace|
    ensures Out(After(trace[..j], c), trace[j], c) in {Up(trace[j].f.wire), Nothing}
  {
    TamePrefix(trace, j, c);
    AfterOk(trace[..j], c);
    NextOk(After(trace[..j], c), trace[j], c);
  }

  // ---- with room and time, every frame comes out ----

  /** Fragment `x` of `f` has arrived since `f` last came out. */
  ghost predicate Since(trace: seq<Arrival>, f: Frame, x: nat, c: Chunk)
    decreases |trace|, 0
  {
    trace != [] &&
    var before, last := trace[..|trace| - 1], trace[|trace| - 1];
    if last.f != f then Since(before, f, x, c)
    else !Completes(before, last, c) && (x == last.i || Since(before, f, x, c))
  }

  /** The last missing fragment of its frame. */
  ghost predicate Completes(trace: seq<Arrival>, a: Arrival, c: Chunk)
    decreases |trace|, 1
  {
    forall x: nat :: x < CountOf(|a.f.wire|, c) ==> x == a.i || Since(trace, a.f, x, c)
  }

  /** When a fragment arrives no frame has timed out, and its frame has a slot or finds a free one. */
  predicate Roomy(t: Table, a: Arrival) {
    && (forall k :: 0 <= k < SLOTS ==> !Expired(t.slots[k], a.now))
    && (Find(t.slots, a.f.tag, 0) == SLOTS ==> FirstFree(t.slots, 0) < SLOTS)
  }

  ghost predicate Quiet(trace: seq<Arrival>, c: Chunk) {
    forall j :: 0 <= j < |trace| ==> |trace[j].f.wire| <= MAX_FRAME && Roomy(After(trace[..j], c), trace[j])
  }

  ghost predicate Tracked(t: Table, k: nat, trace: seq<Arrival>, c: Chunk)
    requires k < SLOTS && |t.open| == SLOTS
  {
    t.slots[k].Busy? && t.open[k].Some? ==>
      forall x: nat :: x < |t.slots[k].parts| ==> (t.slots[k].parts[x].Some? <==> Since(trace, t.open[k].value, x, c))
  }

  ghost predicate IsOpen(t: Table, f: Frame) {
    exists k :: 0 <= k < |t.open| && t.open[k] == Some(f)
  }

  /** The slots remember exactly what has arrived of each frame since it last came out. */
  ghost predicate Tracks(t: Table, trace: seq<Arrival>, c: Chunk) {
    && |t.open| == SLOTS
    && (forall k :: 0 <= k < SLOTS ==> Tracked(t, k, trace, c))
    && (forall f: Frame, x: nat :: !IsOpen(t, f) && x < CountOf(|f.wire|, c) ==> !Since(trace, f, x, c))
  }

  lemma SinceNext(trace: seq<Arrival>, a: Arrival, f: Frame, x: nat, c: Chunk)
    ensures Since(trace + [a], f, x, c) <==>
      if a.f != f then Since(trace, f, x, c) else !Completes(trace, a, c) && (x == a.i || Since(trace, f, x, c))
  {
    assert (trace + [a])[..|trace|] == trace;
  }

  lemma NothingSwept(t: Table, a: Arrival)
    requires Roomy(t, a)
    ensures Swept(t.slots, a.now) == t.slots
  {
  }

  /** The slot a fragment goes to knows what has arrived of its frame, and no other slot is its. */
  lemma PlaceKnows(t: Table, trace: seq<Arrival>, a: Arrival, c: Chunk)
    requires TableOk(t, c) && Tracks(t, trace, c) && IsArrival(a, c) && NoClash(t, a) && Roomy(t, a)
    ensures Swept(t.slots, a.now) == t.slots
    ensures var (k, slot) := Place(t.slots, a.f.tag, |a.f.wire|, CountOf(|a.f.wire|, c), a.now);
      && (t.open[k] == Some(a.f) || t.open[k].None?) && Assembles(slot, a.f, c)
      && (forall j :: 0 <= j < SLOTS && j != k ==> t.open[j] != Some(a.f))
      && (forall x: nat :: x < |slot.parts| ==> (slot.parts[x].Some? <==> Since(trace, a.f, x, c)))
  {
    hide Since, Completes, Roomy, CountOf, PartOf, IsArrival;
    NothingSwept(t, a);
    PlaceIsRight(t, a, c);
    var (k, slot) := Place(t.slots, a.f.tag, |a.f.wire|, CountOf(|a.f.wire|, c), a.now);
    forall j | 0 <= j < SLOTS && j != k ensures t.open[j] != Some(a.f) { assert SlotOk(t, j, c); }
    assert SlotOk(t, k, c) && Tracked(t, k, trace, c);
    if Find(t.slots, a.f.tag, 0) == SLOTS {
      assert slot == Opened(a.f.tag, |a.f.wire|, CountOf(|a.f.wire|, c), a.now);
      RoomyHasFree(t, a);
      assert !IsOpen(t, a.f);
    }
  }

  lemma RoomyHasFree(t: Table, a: Arrival)
    requires Roomy(t, a) && Find(t.slots, a.f.tag, 0) == SLOTS
    ensures t.slots[Claim(t.slots)].Free?
  {
  }

  /** The slot is full exactly when the last missing fragment was put in. */
  lemma FullWhenComplete(slot: Slot, trace: seq<Arrival>, a: Arrival, c: Chunk)
    requires Assembles(slot, a.f, c) && a.i < slot.count
    requires forall x: nat :: x < |slot.parts| ==> (slot.parts[x].Some? <==> Since(trace, a.f, x, c))
    ensures var filled := Filled(slot, a.i, PartOf(a.f.wire, a.i, c));
      && (filled.received < filled.count <==> !Completes(trace, a, c)) && |filled.parts| == |slot.parts|
      && (forall x: nat :: x < |slot.parts| ==> (filled.parts[x].Some? <==> x == a.i || Since(trace, a.f, x, c)))
  {
    FilledAssembles(slot, a.f, a.i, c);
    hide Since, CountOf, PartOf, Got;
    var filled := Filled(slot, a.i, PartOf(a.f.wire, a.i, c));
    GotAll(filled.parts);
    assert filled.count == |filled.parts| == CountOf(|a.f.wire|, c) == |slot.parts|;
    if x: nat :| x < CountOf(|a.f.wire|, c) && x != a.i && !Since(trace, a.f, x, c) {
      assert filled.parts[x].None?;
    } else {
      assert forall x :: 0 <= x < |filled.parts| ==> filled.parts[x].Some?;
    }
  }

  lemma NextTracks(t: Table, trace: seq<Arrival>, a: Arrival, c: Chunk)
    requires TableOk(t, c) && Tracks(t, trace, c) && IsArrival(a, c) && NoClash(t, a) && Roomy(t, a)
    requires |a.f.wire| <= MAX_FRAME
    ensures Tracks(Next(t, a, c), trace + [a], c)
    ensures Out(t, a, c) == if Completes(trace, a, c) then Up(a.f.wire) else Nothing
  {
    FragmentFits(t, a, c);
    PlaceKnows(t, trace, a, c);
    NextOk(t, a, c);
    var (k, slot) := Place(t.slots, a.f.tag, |a.f.wire|, CountOf(|a.f.wire|, c), a.now);
    FullWhenComplete(slot, trace, a, c);
    hide Since, Completes, CountOf, PartOf, IsArrival, NoClash, Roomy, Push, Place, Swept, Filled;
    var filled := Filled(slot, a.i, PartOf(a.f.wire, a.i, c));
    LandedTracks(t, trace, a, c, k, filled);
  }

  lemma LandedTracks(t: Table, trace: seq<Arrival>, a: Arrival, c: Chunk, k: nat, filled: Slot)
    requires TableOk(t, c) && Tracks(t, trace, c) && k < SLOTS && filled.Busy?
    requires |filled.parts| == CountOf(|a.f.wire|, c) && (t.open[k] == Some(a.f) || t.open[k].None?)
    requires forall j :: 0 <= j < SLOTS && j != k ==> t.open[j] != Some(a.f)
    requires filled.received < filled.count <==> !Completes(trace, a, c)
    requires forall x: nat :: x < |filled.parts| ==> (filled.parts[x].Some? <==> x == a.i || Since(trace, a.f, x, c))
    ensures var slots := Landed(t.slots, a, c, k, filled).0;
      Tracks(Table(slots, Reopened(t.open, slots, a.f, k)), trace + [a], c)
  {
    hide Since, Completes, CountOf;
    var slots := Landed(t.slots, a, c, k, filled).0;
    var u := Table(slots, Reopened(t.open, slots, a.f, k));
    forall j | 0 <= j < SLOTS ensures Tracked(u, j, trace + [a], c) {
      assert SlotOk(t, j, c) && Tracked(t, j, trace, c);
      if u.slots[j].Busy? {
        forall x: nat | x < |u.slots[j].parts|
          ensures u.slots[j].parts[x].Some? <==> Since(trace + [a], u.open[j].value, x, c)
        {
          SinceNext(trace, a, u.open[j].value, x, c);
        }
      }
    }
    forall f: Frame, x: nat | !IsOpen(u, f) && x < CountOf(|f.wire|, c) ensures !Since(trace + [a], f, x, c) {
      SinceNext(trace, a, f, x, c);
      if f == a.f {
        assert u.open[k] != Some(f);
      } else {
        StaysOpen(t, u, f, k, c);
      }
    }
  }

  lemma StaysOpen(t: Table, u: Table, f: Frame, k: nat, c: Chunk)
    requires TableOk(t, c) && |u.open| == SLOTS && k < SLOTS && t.open[k] != Some(f)
    requires forall j :: 0 <= j < SLOTS && j != k ==> u.slots[j] == t.slots[j]
    requires forall j :: 0 <= j < SLOTS && j != k && u.slots[j].Busy? ==> u.open[j] == t.open[j]
    ensures IsOpen(t, f) ==> IsOpen(u, f)
  {
    if IsOpen(t, f) {
      var j :| 0 <= j < |t.open| && t.open[j] == Some(f);
      assert SlotOk(t, j, c);
      assert u.open[j] == Some(f);
    }
  }

  lemma NothingTracked(c: Chunk)
    ensures Tracks(After([], c), [], c)
  {
  }

  lemma {:induction false} AfterTracks(trace: seq<Arrival>, c: Chunk)
    requires Tame(trace, c) && Quiet(trace, c)
    ensures Tracks(After(trace, c), trace, c)
  {
    hide *;
    if trace == [] {
      NothingTracked(c);
    } else {
      var n := |trace| - 1;
      TamePrefix(trace, n, c);
      QuietPrefix(trace, n, c);
      AfterTracks(trace[..n], c);
      AfterOk(trace[..n], c);
      LastArrival(trace, c);
      assert trace[..n] + [trace[n]] == trace;
      LastTracked(trace[..n], trace[n], After(trace[..n], c), c);
    }
  }

  lemma LastTracked(before: seq<Arrival>, a: Arrival, t: Table, c: Chunk)
    requires t == After(before, c) && TableOk(t, c) && Tracks(t, before, c)
    requires IsArrival(a, c) && NoClash(t, a) && Roomy(t, a) && |a.f.wire| <= MAX_FRAME
    ensures Tracks(After(before + [a], c), before + [a], c)
  {
    AfterNext(before, a, c);
    hide *;
    NextTracks(t, before, a, c);
  }

  lemma AfterNext(before: seq<Arrival>, a: Arrival, c: Chunk)
    ensures After(before + [a], c) == Next(After(before, c), a, c)
  {
    assert (before + [a])[..|before|] == before;
  }

  lemma LastArrival(trace: seq<Arrival>, c: Chunk)
    requires Tame(trace, c) && Quiet(trace, c) && trace != []
    ensures var before, a := trace[..|trace| - 1], trace[|trace| - 1];
      IsArrival(a, c) && NoClash(After(before, c), a) && Roomy(After(before, c), a) && |a.f.wire| <= MAX_FRAME
  {
  }

  lemma QuietPrefix(trace: seq<Arrival>, n: nat, c: Chunk)
    requires Quiet(trace, c) && n <= |trace|
    ensures Quiet(trace[..n], c)
  {
    forall j | 0 <= j < n
      ensures Roomy(After(trace[..n][..j], c), trace[..n][j]) && |trace[..n][j].f.wire| <= MAX_FRAME
    {
      assert trace[..n][..j] == trace[..j];
    }
  }

  /** With a free slot for every frame and no timeout, a frame comes out exactly when its last
      missing fragment arrives. */
  lemma ComesOutWhenComplete(trace: seq<Arrival>, j: nat, c: Chunk)
    requires Tame(trace, c) && Quiet(trace, c) && j < |trace|
    ensures Out(After(trace[..j], c), trace[j], c) ==
      if Completes(trace[..j], trace[j], c) then Up(trace[j].f.wire) else Nothing
  {
    TamePrefix(trace, j, c);
    QuietPrefix(trace, j, c);
    AfterOk(trace[..j], c);
    AfterTracks(trace[..j], c);
    NextTracks(After(trace[..j], c), trace[..j], trace[j], c);
  }

  /** A frame over the limit is never put together: none of its fragments is taken. */
  lemma TooLongNeverComesOut(t: Table, a: Arrival, c: Chunk)
    requires TableOk(t, c) && IsArrival(a, c) && NoClash(t, a) && |a.f.wire| > MAX_FRAME
    ensures Next(t, a, c) == t && Out(t, a, c).Nothing?
  {
    FragmentFits(t, a, c);
    StaysOk(t, a, c);
  }

  /** Everything that can be cut is within the limit exactly for chunks of up to 4112 bytes. */
  lemma CuttableFitsExactly(c: Chunk)
    ensures (forall f: Frame :: CountOf(|f.wire|, c) <= MAX_FRAGMENTS ==> |f.wire| <= MAX_FRAME) <==> c <= 4112
  {
    if c <= 4112 {
      forall f: Frame | CountOf(|f.wire|, c) <= MAX_FRAGMENTS ensures |f.wire| <= MAX_FRAME { SmallChunks(f, c); }
    } else {
      var f := Frame(0, seq(MAX_FRAME + 1, _ => 0));
      LargeChunks(|f.wire|, c);
      assert CountOf(|f.wire|, c) <= MAX_FRAGMENTS && |f.wire| > MAX_FRAME;
    }
  }

  lemma SmallChunks(f: Frame, c: Chunk)
    requires c <= 4112 && CountOf(|f.wire|, c) <= MAX_FRAGMENTS
    ensures |f.wire| <= MAX_FRAME
  {
    CountFits(|f.wire|, c);
    TimesGrows(CountOf(|f.wire|, c), MAX_FRAGMENTS, c);
    TimesIs(MAX_FRAGMENTS, c);
  }

  lemma LargeChunks(len: nat, c: Chunk)
    requires c > 4112 && len == MAX_FRAME + 1
    ensures CountOf(len, c) <= MAX_FRAGMENTS
  {
    var n := CountOf(len, c) - 1;
    CountFits(len, c);
    TimesIs(n, c);
    if n >= MAX_FRAGMENTS { TimesGrows(MAX_FRAGMENTS, n, c); TimesIs(MAX_FRAGMENTS, c); }
  }

  /** So it is with the chunks of 1304 bytes that are sent by default. */
  lemma DefaultFramesFit(f: Frame)
    requires CountOf(|f.wire|, 1304) <= MAX_FRAGMENTS
    ensures |f.wire| <= MAX_FRAME && Cuttable(f, 1304)
  {
    SmallChunks(f, 1304);
  }

  // ---- bodies of any kind ----

  /** What is not a fragment is handed up as it is, and a fragment whose header makes no sense or that is
      shorter than it says is ignored: neither touches a slot. */
  lemma OthersTouchNothing(s: Slots, body: Bytes, now: int, c: Chunk)
    ensures |body| < 8 || body[0] != 0xF1 ==> Push(s, body, now, c) == (s, Up(body))
    ensures |body| >= 8 && body[0] == 0xF1 ==>
      var index: int, count: int, total, left := body[1], body[2], Get32(body[3..7]), |body| - 8;
      || index >= count
      || total > 0x10_0000
      || (index < count - 1 && left < c)
      || (index == count - 1 && !(0 <= total - index * c <= left))
      ==> Push(s, body, now, c) == (s, Nothing)
  {
    hide Take, Swept, Get32;
  }

  /** The slots after bodies that anyone may have made, each taken at its time. */
  function Ran(run: seq<(Bytes, int)>, c: Chunk): Slots {
    if run == [] then AllFree()
    else Push(Ran(run[..|run| - 1], c), run[|run| - 1].0, run[|run| - 1].1, c).0
  }

  predicate Sane(s: Slots) {
    Distinct(s) && forall k :: 0 <= k < SLOTS && s[k].Busy? ==> s[k].count == |s[k].parts|
  }

  lemma SweptSane(s: Slots, now: int)
    requires Sane(s)
    ensures Sane(Swept(s, now))
  {
  }

  lemma PlacedSane(s: Slots, k: nat, slot: Slot)
    requires Sane(s) && k < SLOTS
    requires slot.Busy? ==> slot.count == |slot.parts|
    requires slot.Busy? ==> forall j :: 0 <= j < SLOTS && j != k && s[j].Busy? ==> s[j].tag != slot.tag
    ensures Sane(s[k := slot])
  {
  }

  lemma TakeSane(s: Slots, tag: byte, total: int, count: nat, i: nat, payload: Bytes, now: int)
    requires Sane(s) && i < count
    ensures Sane(Take(s, tag, total, count, i, payload, now).0)
  {
    hide Joined;
    var (k, slot) := Place(s, tag, total, count, now);
    PlacedSane(s, k, Free);
    if i < |slot.parts| { PlacedSane(s, k, Filled(slot, i, payload)); }
  }

  lemma {:induction false} RanSane(run: seq<(Bytes, int)>, c: Chunk)
    ensures Sane(Ran(run, c))
  {
    if run != [] {
      var (body, now) := run[|run| - 1];
      var s := Ran(run[..|run| - 1], c);
      RanSane(run[..|run| - 1], c);
      SweptSane(s, now);
      hide Sane, Swept, Take, WellFormed;
      if IsTagged(body) && WellFormed(body, c) {
        IndexBelowCount(body, c);
        var payload := body[HEADER..HEADER + Want(body[1], body[2], TotalIn(body), c)];
        TakeSane(Swept(s, now), body[7], TotalIn(body), body[2], body[1], payload, now);
      }
    }
  }

  lemma IndexBelowCount(body: Bytes, c: Chunk)
    requires IsTagged(body) && WellFormed(body, c)
    ensures body[1] < body[2] && 0 <= Want(body[1], body[2], TotalIn(body), c) <= |body| - HEADER
  {
  }

  /** Some slot, not timed out, is open under the tag for no more than `index` fragments. */
  ghost predicate OpenForFewer(s: Slots, tag: byte, index: nat, now: int) {
    exists k :: 0 <= k < SLOTS && Holds(s[k], tag) && !Expired(s[k], now) && s[k].count <= index
  }

  /** After any bodies whatever, the code indexes past the parts of a slot exactly when the next body is
      well-formed and a slot is open under its tag for fewer fragments than its index needs. */
  lemma OutOfRangeExactly(run: seq<(Bytes, int)>, body: Bytes, now: int, c: Chunk)
    ensures Push(Ran(run, c), body, now, c).1.OutOfRange? <==>
      IsTagged(body) && WellFormed(body, c) && OpenForFewer(Ran(run, c), body[7], body[1], now)
  {
    RanSane(run, c);
    if IsTagged(body) && WellFormed(body, c) {
      IndexBelowCount(body, c);
      hide Ran, Joined, WellFormed, Want, Get32;
      PlaceOutOfRange(Ran(run, c), body[7], TotalIn(body), body[2], body[1], now);
    }
  }

  lemma PlaceOutOfRange(s: Slots, tag: byte, total: int, count: nat, i: nat, now: int)
    requires Sane(s) && i < count
    ensures i >= |Place(Swept(s, now), tag, total, count, now).1.parts| <==> OpenForFewer(s, tag, i, now)
  {
    var k := Find(Swept(s, now), tag, 0);
    assert k < SLOTS ==> Swept(s, now)[k] == s[k];
    if OpenForFewer(s, tag, i, now) {
      var j :| 0 <= j < SLOTS && Holds(s[j], tag) && !Expired(s[j], now) && s[j].count <= i;
      assert Swept(s, now)[j] == s[j];
      assert k == j;
    }
  }

  lemma SmallTotal(hi: byte, lo: byte)
    ensures Get([0, 0, hi, lo]) == hi * 256 + lo
  {
    assert [0, 0, hi, lo][..3] == [0, 0, hi] && [0, 0, hi][..2] == [0, 0] && [0, 0][..1] == [0];
    assert Get([0]) == 0 && Get([0, 0]) == 0 && Get([0, 0, hi]) == hi;
  }

  /** The first fragment of two and the third of three under one tag, at the default chunk: the second
      body to come indexes past the parts of the slot the first one opened. */
  lemma TwoBodiesGoOutOfRange(tag: byte, payload: Bytes, now: int)
    requires |payload| == 1304
    ensures var first := [FRAG_MAGIC, 0, 2, 0, 0, 5, 25, tag] + payload;
      var second := [FRAG_MAGIC, 2, 3, 0, 0, 10, 48, tag];
      Push(Ran([(first, now)], 1304), second, now, 1304).1.OutOfRange?
  {
    var first := [FRAG_MAGIC, 0, 2, 0, 0, 5, 25, tag] + payload;
    var second := [FRAG_MAGIC, 2, 3, 0, 0, 10, 48, tag];
    assert first[3..7] == [0, 0, 5, 25] && second[3..7] == [0, 0, 10, 48];
    SmallTotal(5, 25);
    SmallTotal(10, 48);
    assert WellFormed(first, 1304) && WellFormed(second, 1304);
    assert Ran([], 1304) == AllFree() && [(first, now)][..0] == [];
    assert first[HEADER..HEADER + 1304] == payload;
    FirstOfTwo(tag, 1305, payload, now);
    assert Holds(Ran([(first, now)], 1304)[0], tag);
    OutOfRangeExactly([(first, now)], second, now, 1304);
  }

  lemma FirstOfTwo(tag: byte, total: int, payload: Bytes, now: int)
    ensures var slot := Take(Swept(AllFree(), now), tag, total, 2, 0, payload, now).0[0];
      Holds(slot, tag) && !Expired(slot, now) && slot.count == 2
  {
    assert Swept(AllFree(), now) == AllFree();
  }

  /** Nothing of the kind happens while fragments come from a fragmenter, and no two frames of one tag
      are open at once. */
  lemma TameStaysInRange(trace: seq<Arrival>, j: nat, c: Chunk)
    requires Tame(trace, c) && j < |trace|
    ensures !Out(After(trace[..j], c), trace[j], c).OutOfRange?
  {
    NeverMixes(trace, j, c);
  }
}
