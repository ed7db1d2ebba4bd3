/** What one call does to a session, in the fields and bytes of what it is given. */
module SessionCalls {
  import opened Seq32
  import opened Envelope
  import opened SessionState

  /** The bits 0 for IPv4 and 1 for TCP; 2 for UDP and 4 for ICMP errors at will. */
  predicate KnownCaps(caps: int) { caps in {3, 7, 19, 23} }

  lemma AndBelow(a: u32, b: u32)
    ensures And(a, b) <= b
  {
    AndCommutes(a, b);
  }

  /** Parameters are valid exactly if they have IPv4 and TCP and nothing unknown, and 1280 to 65000 bytes. */
  lemma ValidExactly(p: Params)
    ensures ValidParams(p) <==> KnownCaps(p.caps) && 1280 <= p.max <= 65000
  {
    AndBelow(p.caps, 23);
    if p.caps <= 23 { CapsBelow32(p.caps); }
  }

  lemma AndGrows(a: nat, b: nat, i: nat, j: nat)
    requires 2 * a + i < 64 && 2 * b + j < 64 && i < 2 && j < 2
    ensures And(2 * a + i, 2 * b + j) == 2 * And(a, b) + if i == 1 && j == 1 then 1 else 0
  {
    assert (2 * a + i) / 2 == a && (2 * b + j) / 2 == b;
    if a == 0 || b == 0 { assert And(a, b) == 0; }
  }

  lemma HighBits(c: nat, d: nat, e: nat)
    requires c < 2 && d < 2 && e < 2
    ensures And(c + 2 * d + 4 * e, 5) == c + 4 * e && And(c + 2 * d + 4 * e, 0) == 0
  {
    hide *;
    AndNone(e);
    AndNone(c + 2 * d + 4 * e);
    AndGrows(0, 0, e, 1);
    AndGrows(e, 1, d, 0);
    AndGrows(d + 2 * e, 2, c, 1);
  }

  lemma FiveBits(a: nat, b: nat, x: nat, y: nat)
    requires a < 2 && b < 2 && x < 8 && And(x, 5) == y && And(x, 0) == 0
    ensures And(a + 2 * b + 4 * x, 23) == a + 2 * b + 4 * y && And(a + 2 * b + 4 * x, 3) == a + 2 * b
  {
    hide *;
    AndGrows(x, 5, b, 1);
    AndGrows(b + 2 * x, 11, a, 1);
    AndGrows(x, 0, b, 1);
    AndGrows(b + 2 * x, 1, a, 1);
  }

  lemma AndNone(a: u32)
    ensures And(a, 0) == And(0, a) == 0
  {
  }

  lemma CapsBelow32(caps: u32)
    requires caps < 32
    ensures And(caps, 23) == caps && And(caps, 3) == 3 <==> KnownCaps(caps)
  {
    hide And;
    var c2 := caps / 2;
    var c4 := c2 / 2;
    var c8 := c4 / 2;
    HighBits(c4 % 2, c8 % 2, c8 / 2);
    FiveBits(caps % 2, c2 % 2, c4, c4 % 2 + c8 / 2 * 4);
  }

  /** Of the agreed terms a bit is set if both set it, and the size is the smaller one. */
  lemma CommonIsBoth(a: Params, b: Params, k: nat)
    ensures Bit(Common(a, b).caps, k) <==> Bit(a.caps, k) && Bit(b.caps, k)
    ensures var m := Common(a, b).max; m <= a.max && m <= b.max && (m == a.max || m == b.max)
  {
    AndIsBitwise(b.caps, a.caps, k);
  }

  /** A hello that a session takes note of. */
  predicate InOrder(e: Envelope) {
    && e.hello.Some? && e.hello.value.reserved == 0 && e.hello.value.ready <= 1
    && e.local != ZERO && KnownCaps(e.hello.value.caps) && 1280 <= e.hello.value.max <= 65000
  }

  lemma GoodIsInOrder(e: Envelope)
    ensures GoodHello(e) <==> InOrder(e)
  {
    if e.hello.Some? { ValidExactly(HelloParams(e.hello.value)); }
    hide KnownCaps, ValidParams;
  }

  /** Any other hello, and any hello to a session that has stopped, changes nothing and is not answered. */
  lemma OthersAreIgnored(s: Sess, e: Envelope, now: int, drawn: Option<Challenge>)
    requires s.stopped || !InOrder(e)
    ensures TakeHello(s, e, now, drawn) == (s, Silence)
  {
    GoodIsInOrder(e);
  }

  /** Before a session is ready: a hello that echoes its challenge makes it ready with the sender on the
      common terms, one that echoes nothing names the sender, one that echoes something else does nothing.
      The first kind is answered, and the second if the sender is new. */
  lemma BeforeReady(s: Sess, e: Envelope, now: int, drawn: Option<Challenge>)
    requires !s.ready && !s.stopped && InOrder(e)
    ensures var (s1, r) := TakeHello(s, e, now, drawn);
      if e.peer == s.local then
        s1 == s.(peer := e.local, ready := true, remote := Common(s.params, HelloParams(e.hello.value))) && r == Answer
      else if e.peer == ZERO then
        s1 == s.(peer := e.local) && r == if e.local == s.peer then Silence else Answer
      else s1 == s && r == Silence
  {
    GoodIsInOrder(e);
  }

  /** Once it is ready its own peer is answered exactly if it says that it is not ready yet, on the terms
      agreed, with no echo or the present one; and nothing changes. */
  lemma OfItsPeer(s: Sess, e: Envelope, now: int, drawn: Option<Challenge>)
    requires s.ready && !s.stopped && InOrder(e) && e.local == s.peer
    ensures var (s1, r) := TakeHello(s, e, now, drawn);
      && s1 == s && !r.Offer?
      && (r == Answer <==>
            && e.hello.value.ready == 0 && Common(s.params, HelloParams(e.hello.value)) == s.remote
            && (e.peer == s.local || e.peer == ZERO))
  {
    GoodIsInOrder(e);
  }

  /** A packet that the agreed terms let pass: complete IPv4 with TCP, or with UDP or ICMP if both ends
      said so, of no more than the agreed size. */
  predicate MayPass(p: Bytes, limits: Params) {
    && |p| >= 20 && 0x45 <= p[0] <= 0x4F && 4 * (p[0] - 0x40) <= |p| && |p| <= limits.max
    && (p[9] == 6 || (p[9] == 17 && Bit(limits.caps, 2)) || (p[9] == 1 && Bit(limits.caps, 4)))
  }

  /** A packet goes out exactly if the session is ready, the packet may pass, the counter has not run out
      and a carrier is alive; under the next number, from the session's challenge to its peer's. A number is
      used up only by a packet that may pass. */
  lemma GoesOutExactly(s: Sess, p: Bytes, live: bool)
    ensures var (s1, r) := SendPacket(s, p, live);
      var fit := s.ready && !s.stopped && MayPass(p, s.remote) && s.sequence < 0xFFFF_FFFF_FFFF_FFFF;
      && (r.Out? <==> fit && live)
      && s1 == (if fit then s.(sequence := s.sequence + 1) else s)
      && (r.Out? ==> r.env == Envelope(IPV4, if s.exit then EXIT else CLIENT, s.local, s.peer, None,
                                       Some(s.sequence + 1), None))
  {
    PassesExactly(p, s.remote);
    hide Refused, Bit;
  }

  /** A packet is handed up exactly if the session is ready, the packet names both present challenges and
      may pass, and its number was not taken before and is not 4096 or more below one that was; and then the
      number is taken. */
  lemma HandedUpExactly(s: Sess, e: Envelope, payload: Bytes)
    ensures var (s1, up) := TakeData(s, e, payload);
      && (up <==>
            && s.ready && !s.stopped && e.data.Some? && e.local == s.peer && e.peer == s.local
            && MayPass(payload, s.remote)
            && e.data.value != 0 && e.data.value !in s.accepted
            && forall x :: x in s.accepted ==> x < e.data.value + 4096)
      && s1 == if up then s.(accepted := s.accepted + {e.data.value}) else s
  {
    PassesExactly(payload, s.remote);
    hide Refused, Bit;
  }

  /** After a restart nothing goes out or comes in until a hello echoes the new challenge; then the numbers
      begin anew on both sides. */
  lemma StartsAnew(s: Sess, x: Challenge, e: Envelope, p: Bytes, live: bool, now: int, drawn: Option<Challenge>)
    requires !s.stopped && InOrder(e) && x != ZERO
    ensures var s1 := Restarted(s, Some(x));
      && !SendPacket(s1, p, live).1.Out? && !TakeData(s1, e, p).1
      && var (s2, r) := TakeHello(s1, e, now, drawn);
        if e.peer == x then
          && s2.ready && s2.local == x && s2.peer == e.local && s2.sequence == 0 && s2.accepted == {}
          && s2.remote == Common(s.params, HelloParams(e.hello.value)) && r == Answer
        else !s2.ready
  {
    BeforeReady(Restarted(s, Some(x)), e, now, drawn);
  }
}
