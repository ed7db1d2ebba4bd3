/** Frames split into fragments that each fit one video frame, and put back together.

    `Push` is the reference for the reassembler: 24 slots, each holding the fragments of one frame
    that have arrived, whatever their order. */
module Fragment {
  import opened Seq32
  import opened BigEndian
  import opened AckWire

  const FRAG_MAGIC: byte := 0xF1
  const HEADER: int := 8
  const MAX_FRAGMENTS: int := 255
  const SLOTS: int := 24
  const TIMEOUT: int := 1_200_000_000   // nanoseconds
  const MAX_FRAME: int := 0x10_0000

  /** Bytes of a frame that one fragment carries. */
  type Chunk = c: int | 0 < c witness 1304

  datatype Frame = Frame(tag: byte, wire: Bytes)

  // ---- cutting ----

  function Times(i: nat, c: nat): nat {
    if i == 0 then 0 else Times(i - 1, c) + c
  }

  lemma {:induction false} TimesIs(i: nat, c: nat)
    ensures Times(i, c) == i * c
  {
    if i > 0 { TimesIs(i - 1, c); }
  }

  lemma {:induction false} TimesGrows(i: nat, j: nat, c: nat)
    requires i <= j
    ensures Times(i, c) <= Times(j, c)
    decreases j
  {
    if i < j { TimesGrows(i, j - 1, c); }
  }

  function CountOf(len: nat, c: Chunk): (n: nat)
    ensures n > 0
  {
    var n := (len + c - 1) / c;
    if n == 0 then 1 else n
  }

  /** All fragments but the last are full, and the last one is not empty unless the frame is. */
  lemma CountFits(len: nat, c: Chunk)
    ensures Times(CountOf(len, c) - 1, c) <= len <= Times(CountOf(len, c), c)
    ensures len > 0 ==> Times(CountOf(len, c) - 1, c) < len
  {
    var n := (len + c - 1) / c;
    assert len + c - 1 == c * n + (len + c - 1) % c;
    TimesIs(CountOf(len, c), c);
    TimesIs(CountOf(len, c) - 1, c);
    if len > 0 {
      assert c * n > 0;
      assert (n - 1) * c == c * n - c;
    } else {
      assert c * n < c;
    }
  }

  function Upto(i: nat, len: nat, c: Chunk): (e: nat)
    ensures e <= len
  {
    var e := Times(i, c);
    if e > len then len else e
  }

  /** The bytes of fragment `i`. */
  function PartOf(wire: Bytes, i: nat, c: Chunk): Bytes {
    TimesGrows(i, i + 1, c);
    wire[Upto(i, |wire|, c)..Upto(i + 1, |wire|, c)]
  }

  /** How long fragment `index` of `count` is, by the header alone. */
  function Want(index: int, count: int, total: int, c: Chunk): int {
    if index == count - 1 then total - index * c else c
  }

  lemma PartIsWanted(wire: Bytes, i: nat, c: Chunk)
    requires i < CountOf(|wire|, c)
    ensures |PartOf(wire, i, c)| == Want(i, CountOf(|wire|, c), |wire|, c)
  {
    var n := CountOf(|wire|, c);
    CountFits(|wire|, c);
    TimesIs(i, c);
    if i < n - 1 { TimesGrows(i + 1, n - 1, c); }
  }

  function FragmentOf(f: Frame, i: nat, c: Chunk): Bytes
    requires i < CountOf(|f.wire|, c) <= MAX_FRAGMENTS
  {
    [FRAG_MAGIC, i, CountOf(|f.wire|, c)] + Put(|f.wire| % TWO32, 4) + [f.tag] + PartOf(f.wire, i, c)
  }

  function FragmentsOf(f: Frame, c: Chunk): (fs: seq<Bytes>)
    requires CountOf(|f.wire|, c) <= MAX_FRAGMENTS
    ensures |fs| == CountOf(|f.wire|, c)
  {
    seq(CountOf(|f.wire|, c), i requires 0 <= i < CountOf(|f.wire|, c) => FragmentOf(f, i, c))
  }

  // ---- putting together ----

  datatype Slot = Free | Busy(tag: byte, total: int, count: nat, received: nat, parts: seq<Option<Bytes>>,
    deadline: int)

  type Slots = s: seq<Slot> | |s| == SLOTS witness seq(SLOTS, _ => Free)

  function Joined(parts: seq<Option<Bytes>>): Bytes {
    if parts == [] then []
    else Joined(parts[..|parts| - 1]) + (match parts[|parts| - 1] case Some(p) => p case None => [])
  }

  predicate Expired(s: Slot, now: int) { s.Busy? && now > s.deadline }

  function Swept(s: Slots, now: int): Slots {
    seq(SLOTS, k requires 0 <= k < SLOTS => if Expired(s[k], now) then Free else s[k])
  }

  predicate Holds(s: Slot, tag: byte) { s.Busy? && s.tag == tag }

  /** The first slot from `k` on that assembles a frame tagged `tag`; SLOTS if none does. */
  function Find(s: Slots, tag: byte, k: nat): (r: nat)
    requires k <= SLOTS
    ensures k <= r <= SLOTS && (r < SLOTS ==> Holds(s[r], tag))
    ensures forall j :: k <= j < r ==> !Holds(s[j], tag)
    decreases SLOTS - k
  {
    if k == SLOTS || Holds(s[k], tag) then k else Find(s, tag, k + 1)
  }

  function FirstFree(s: Slots, k: nat): (r: nat)
    requires k <= SLOTS
    ensures k <= r <= SLOTS && (r < SLOTS ==> s[r].Free?)
    ensures forall j :: k <= j < r ==> s[j].Busy?
    decreases SLOTS - k
  {
    if k == SLOTS || s[k].Free? then k else FirstFree(s, k + 1)
  }

  /** The first of the slots below `k` with the earliest deadline. */
  function Earliest(s: Slots, k: nat): (r: nat)
    requires 0 < k <= SLOTS && forall j :: 0 <= j < k ==> s[j].Busy?
    ensures r < k && forall j :: 0 <= j < k ==> s[r].deadline <= s[j].deadline
    ensures forall j :: 0 <= j < r ==> s[r].deadline < s[j].deadline
  {
    if k == 1 then 0
    else
      var r := Earliest(s, k - 1);
      if s[k - 1].deadline < s[r].deadline then k - 1 else r
  }

  function Claim(s: Slots): (r: nat)
    ensures r < SLOTS
    ensures (exists k :: 0 <= k < SLOTS && s[k].Free?) ==> s[r].Free? && forall j :: 0 <= j < r ==> s[j].Busy?
    ensures (forall k :: 0 <= k < SLOTS ==> s[k].Busy?) ==>
      && (forall j :: 0 <= j < SLOTS ==> s[r].deadline <= s[j].deadline)
      && (forall j :: 0 <= j < r ==> s[r].deadline < s[j].deadline)
  {
    var k := FirstFree(s, 0);
    if k < SLOTS then k else Earliest(s, SLOTS)
  }

  function NoParts(n: nat): seq<Option<Bytes>> { seq(n, _ => None) }

  function Opened(tag: byte, total: int, count: nat, now: int): Slot {
    Busy(tag, total, count, 0, NoParts(count), now + TIMEOUT)
  }

  function Filled(s: Slot, i: nat, payload: Bytes): Slot
    requires s.Busy? && i < |s.parts|
  {
    if s.parts[i].Some? then s else s.(parts := s.parts[i := Some(payload)], received := s.received + 1)
  }

  /** The slot a fragment goes to, after the sweep: its frame's, or one claimed for it. */
  function Place(s: Slots, tag: byte, total: int, count: nat, now: int): (nat, Slot) {
    var k := Find(s, tag, 0);
    if k < SLOTS then (k, s[k]) else (Claim(s), Opened(tag, total, count, now))
  }

  /** What a body leads to: a frame to hand up, nothing yet, or an index past the parts of its slot. */
  datatype Outcome = Up(frame: Bytes) | Nothing | OutOfRange

  /** Put a well-formed fragment into its slot; a slot whose last part this was is freed. The slot open
      under a tag may have been opened for fewer parts than this fragment counts. */
  function Take(s: Slots, tag: byte, total: int, count: nat, i: nat, payload: Bytes, now: int): (Slots, Outcome)
    requires i < count
  {
    var (k, slot) := Place(s, tag, total, count, now);
    if i >= |slot.parts| then (s, OutOfRange)
    else
      var filled := Filled(slot, i, payload);
      if filled.received < filled.count then (s[k := filled], Nothing)
      else
        var out := Joined(filled.parts);
        (s[k := Free], if |out| == filled.total then Up(out) else Nothing)
  }

  predicate IsTagged(body: Bytes) { |body| >= HEADER && body[0] == FRAG_MAGIC }

  function TotalIn(body: Bytes): int
    requires IsTagged(body)
  {
    Get32(body[3..7])
  }

  /** Whether the header makes sense and the fragment is as long as it must be. */
  predicate WellFormed(body: Bytes, c: Chunk)
    requires IsTagged(body)
  {
    var index, count, total := body[1], body[2], TotalIn(body);
    && count != 0 && index < count && total <= MAX_FRAME
    && 0 <= Want(index, count, total, c) <= |body| - HEADER
  }

  function Push(s: Slots, body: Bytes, now: int, c: Chunk): (Slots, Outcome) {
    if !IsTagged(body) then (s, Up(body))
    else if !WellFormed(body, c) then (s, Nothing)
    else
      var want := Want(body[1], body[2], TotalIn(body), c);
      Take(Swept(s, now), body[7], TotalIn(body), body[2], body[1], body[HEADER..HEADER + want], now)
  }

  // ---- what a slot holds ----

  function Got(parts: seq<Option<Bytes>>): (n: nat)
    ensures n <= |parts|
  {
    if parts == [] then 0
    else Got(parts[..|parts| - 1]) + if parts[|parts| - 1].Some? then 1 else 0
  }

  lemma {:induction false} GotOneMore(parts: seq<Option<Bytes>>, i: nat, p: Bytes)
    requires i < |parts| && parts[i].None?
    ensures Got(parts[i := Some(p)]) == Got(parts) + 1
  {
    var n := |parts| - 1;
    if i < n {
      GotOneMore(parts[..n], i, p);
      assert parts[i := Some(p)][..n] == parts[..n][i := Some(p)];
    } else {
      assert parts[i := Some(p)][..n] == parts[..n];
    }
  }

  lemma {:induction false} GotAll(parts: seq<Option<Bytes>>)
    ensures Got(parts) == |parts| <==> forall i :: 0 <= i < |parts| ==> parts[i].Some?
  {
    if parts != [] { GotAll(parts[..|parts| - 1]); }
  }

  lemma {:induction false} GotNone(n: nat)
    ensures Got(NoParts(n)) == 0
  {
    if n > 0 {
      GotNone(n - 1);
      assert NoParts(n)[..n - 1] == NoParts(n - 1);
    }
  }

  /** A slot that assembles `f` holds only bytes of `f`, each part in its place. */
  ghost predicate Assembles(s: Slot, f: Frame, c: Chunk) {
    && s.Busy? && s.tag == f.tag && s.total == |f.wire| && s.count == |s.parts| == CountOf(|f.wire|, c)
    && s.received == Got(s.parts)
    && forall i :: 0 <= i < |s.parts| && s.parts[i].Some? ==> s.parts[i].value == PartOf(f.wire, i, c)
  }

  lemma OpenedAssembles(f: Frame, now: int, c: Chunk)
    ensures Assembles(Opened(f.tag, |f.wire|, CountOf(|f.wire|, c), now), f, c)
  {
    GotNone(CountOf(|f.wire|, c));
  }

  lemma FilledAssembles(s: Slot, f: Frame, i: nat, c: Chunk)
    requires Assembles(s, f, c) && i < s.count
    ensures Assembles(Filled(s, i, PartOf(f.wire, i, c)), f, c)
  {
    if s.parts[i].None? { GotOneMore(s.parts, i, PartOf(f.wire, i, c)); }
  }

  /** The first `n` parts of a frame, joined, are its first bytes. */
  lemma {:induction false} JoinedIsPrefix(parts: seq<Option<Bytes>>, wire: Bytes, c: Chunk)
    requires forall i :: 0 <= i < |parts| ==> parts[i] == Some(PartOf(wire, i, c))
    ensures Joined(parts) == wire[..Upto(|parts|, |wire|, c)]
  {
    var n := |parts|;
    if n > 0 {
      JoinedIsPrefix(parts[..n - 1], wire, c);
      var a, b := Upto(n - 1, |wire|, c), Upto(n, |wire|, c);
      assert parts[n - 1] == Some(PartOf(wire, n - 1, c));
      assert a <= b;
      assert wire[..b] == wire[..a] + wire[a..b];
    }
  }

  lemma FullSlotIsTheFrame(s: Slot, f: Frame, c: Chunk)
    requires Assembles(s, f, c) && s.received == s.count
    ensures Joined(s.parts) == f.wire
  {
    GotAll(s.parts);
    JoinedIsPrefix(s.parts, f.wire, c);
    CountFits(|f.wire|, c);
    assert f.wire[..|f.wire|] == f.wire;
  }
}
