/** The fragmenter and the reassembler as objects. */
module Reassembler {
  import opened Seq32
  import opened BigEndian
  import opened AckWire
  import opened Fragment

  class Fragmenter {
    const c: Chunk
    var frameSeq: u32 // the counter shared by every transport

    constructor (c: Chunk)
      ensures this.c == c && frameSeq == 0
    {
      this.c := c;
      frameSeq := 0;
    }

    /** Cut a frame under the next tag, or refuse one that needs too many fragments. */
    method FragmentFrame(wire: Bytes) returns (r: Option<seq<Bytes>>)
      modifies this`frameSeq
      ensures CountOf(|wire|, c) > MAX_FRAGMENTS ==> r.None? && frameSeq == old(frameSeq)
      ensures CountOf(|wire|, c) <= MAX_FRAGMENTS ==>
        && frameSeq == Succ(old(frameSeq))
        && r == Some(FragmentsOf(Frame(frameSeq % 256, wire), c))
    {
      var n := (|wire| + c - 1) / c;
      CountFits(|wire|, c);
      if n == 0 {
        n := 1;
      }
      if n > MAX_FRAGMENTS {
        return None;
      }
      frameSeq := (frameSeq + 1) % TWO32;
      var tag := frameSeq % 256;
      var out: seq<Bytes> := [];
      ghost var all := FragmentsOf(Frame(tag, wire), c);
      var i := 0;
      while i < n
        invariant 0 <= i <= n && out == all[..i] && frameSeq == Succ(old(frameSeq))
      {
        var b := OneFragment(wire, tag, i);
        out := out + [b];
        i := i + 1;
      }
      assert all[..n] == all;
      return Some(out);
    }

    method OneFragment(wire: Bytes, tag: byte, i: nat) returns (b: Bytes)
      requires i < CountOf(|wire|, c) <= MAX_FRAGMENTS
      ensures b == FragmentOf(Frame(tag, wire), i, c)
    {
      hide Times, FragmentOf, Put, PartOf, CountOf;
      var start := i * c;
      var end := start + c;
      if end > |wire| {
        end := |wire|;
      }
      Cuts(wire, i, c);
      b := [FRAG_MAGIC, i, CountOf(|wire|, c)];
      b := b + Put(|wire| % TWO32, 4);
      b := b + [tag];
      b := b + wire[start..end];
      IsFragment(Frame(tag, wire), i, c, b);
    }
  }

  /** Where the slice of fragment `i` begins and ends. */
  lemma Cuts(wire: Bytes, i: nat, c: Chunk)
    requires i < CountOf(|wire|, c)
    ensures i * c <= |wire| && PartOf(wire, i, c) == wire[i * c..if i * c + c > |wire| then |wire| else i * c + c]
  {
    CountFits(|wire|, c);
    TimesIs(i, c);
    TimesGrows(i, CountOf(|wire|, c) - 1, c);
    assert Times(i + 1, c) == Times(i, c) + c;
  }

  lemma IsFragment(f: Frame, i: nat, c: Chunk, b: Bytes)
    requires i < CountOf(|f.wire|, c) <= MAX_FRAGMENTS
    requires b == [FRAG_MAGIC, i, CountOf(|f.wire|, c)] + Put(|f.wire| % TWO32, 4) + [f.tag] + PartOf(f.wire, i, c)
    ensures b == FragmentOf(f, i, c)
  {
  }

  class Reassembler {
    const c: Chunk
    const slots: array<Slot>

    ghost predicate Valid()
      reads this
    {
      slots.Length == SLOTS
    }

    constructor (c: Chunk)
      ensures Valid() && fresh(slots) && this.c == c
      ensures slots[..] == seq(SLOTS, _ => Free)
    {
      this.c := c;
      slots := new Slot[SLOTS](_ => Free);
    }

    method FindSlot(tag: byte) returns (k: nat)
      requires Valid()
      ensures k == Find(slots[..], tag, 0)
    {
      k := 0;
      while k < SLOTS
        invariant k <= SLOTS && Find(slots[..], tag, 0) == Find(slots[..], tag, k)
      {
        if slots[k].Busy? && slots[k].tag == tag {
          return;
        }
        k := k + 1;
      }
    }

    method ClaimSlot() returns (k: nat)
      requires Valid()
      ensures k == Claim(slots[..])
    {
      k := 0;
      while k < SLOTS
        invariant k <= SLOTS && FirstFree(slots[..], 0) == FirstFree(slots[..], k)
      {
        if slots[k].Free? {
          return;
        }
        k := k + 1;
      }
      assert forall j :: 0 <= j < SLOTS ==> slots[..][j].Busy?;
      k := 0;
      var i := 1;
      while i < SLOTS
        invariant 1 <= i <= SLOTS && k == Earliest(slots[..], i)
      {
        assert slots[..][i].Busy? && slots[..][k].Busy?;
        if slots[i].deadline < slots[k].deadline {
          k := i;
        }
        i := i + 1;
      }
    }

    method Sweep(now: int)
      requires Valid()
      modifies slots
      ensures slots[..] == Swept(old(slots[..]), now)
    {
      var i := 0;
      while i < SLOTS
        invariant 0 <= i <= SLOTS
        invariant forall k :: 0 <= k < i ==> slots[k] == Swept(old(slots[..]), now)[k]
        invariant forall k :: i <= k < SLOTS ==> slots[k] == old(slots[k])
      {
        if slots[i].Busy? && now > slots[i].deadline {
          slots[i] := Free;
        }
        i := i + 1;
      }
    }

    method Join(parts: seq<Option<Bytes>>) returns (out: Bytes)
      ensures out == Joined(parts)
    {
      out := [];
      var i := 0;
      while i < |parts|
        invariant 0 <= i <= |parts| && out == Joined(parts[..i])
      {
        assert parts[..i + 1][..i] == parts[..i];
        match parts[i] {
          case Some(p) => out := out + p;
          case None =>
        }
        i := i + 1;
      }
      assert parts[..|parts|] == parts;
    }

    /** Take one body off the wire. */
    method PushBody(body: Bytes, now: int) returns (out: Outcome)
      requires Valid()
      modifies slots
      ensures (slots[..], out) == Push(old(slots[..]), body, now, c)
    {
      if |body| < HEADER || body[0] != FRAG_MAGIC {
        return Up(body);
      }
      var index, count, total: int, tag := body[1], body[2], Get32(body[3..7]), body[7];
      var payload := body[HEADER..];
      if count == 0 || index >= count || total > MAX_FRAME {
        return Nothing;
      }
      var want: int := c;
      if index == count - 1 {
        want := total - index * c;
      }
      if want < 0 || want > |payload| {
        return Nothing;
      }
      payload := payload[..want];
      assert payload == body[HEADER..HEADER + want];
      out := Store(tag, total, count, index, payload, now);
    }

    /** The code does not compare the index with the parts of a slot that was open before: what is an
        outcome here ends the code with an index out of range. */
    method Store(tag: byte, total: int, count: byte, index: byte, payload: Bytes, now: int) returns (out: Outcome)
      requires Valid() && index < count
      modifies slots
      ensures (slots[..], out) == Take(Swept(old(slots[..]), now), tag, total, count, index, payload, now)
    {
      hide Swept, Joined, Find, Claim;
      Sweep(now);
      ghost var s: Slots := slots[..];
      var k := FindSlot(tag);
      if k == SLOTS {
        k := ClaimSlot();
        slots[k] := Opened(tag, total, count, now);
      }
      assert (k, slots[k]) == Place(s, tag, total, count, now);
      if index >= |slots[k].parts| {
        return OutOfRange;
      }
      if slots[k].parts[index].None? {
        slots[k] := slots[k].(parts := slots[k].parts[index := Some(payload)], received := slots[k].received + 1);
      }
      if slots[k].received < slots[k].count {
        assert slots[..] == s[k := slots[k]];
        return Nothing;
      }
      var joined := Join(slots[k].parts);
      var frameTotal := slots[k].total;
      slots[k] := Free;
      assert slots[..] == s[k := Free];
      if |joined| != frameTotal {
        return Nothing;
      }
      return Up(joined);
    }
  }
}
