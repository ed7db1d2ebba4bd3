/** What a session's calls do to its state: the handshake, the replacement of a peer by a fresh one,
    and sequenced data. The functions are the reference that the `Session` class computes. */
module SessionState {
  import opened Seq32
  import opened Envelope
  import opened ReplayWindow

  const CAP_IPV4: u32 := 1
  const CAP_TCP: u32 := 2
  const CAP_UDP: u32 := 4
  const CAP_ICMP_ERRORS: u32 := 16
  const MAX_NEGOTIATED: int := 65000

  // Nanoseconds.
  const CANDIDATE_TTL: int := 20_000_000_000
  const CANDIDATE_INTERVAL: int := 1_000_000_000

  datatype Params = Params(caps: u32, max: int)

  /** The bits that two bitmaps share. */
  function And(a: u32, b: u32): (r: u32)
    ensures r <= a
  {
    if a == 0 || b == 0 then 0 else 2 * And(a / 2, b / 2) + if a % 2 == 1 && b % 2 == 1 then 1 else 0
  }

  lemma {:induction false} AndCommutes(a: u32, b: u32)
    ensures And(a, b) == And(b, a)
  {
    if a != 0 && b != 0 { AndCommutes(a / 2, b / 2); }
  }

  /** No unknown capability, at least IPv4 and TCP, and a packet size within bounds. */
  predicate ValidParams(p: Params) {
    && And(p.caps, CAP_IPV4 + CAP_TCP + CAP_UDP + CAP_ICMP_ERRORS) == p.caps
    && And(p.caps, CAP_IPV4 + CAP_TCP) == CAP_IPV4 + CAP_TCP
    && 1280 <= p.max <= MAX_NEGOTIATED
  }

  predicate Lacks(caps: u32, cap: u32) { And(caps, cap) == 0 }

  function Min(a: int, b: int): int { if a < b then a else b }

  /** What both ends can do. */
  function Common(mine: Params, theirs: Params): Params {
    Params(And(theirs.caps, mine.caps), Min(theirs.max, mine.max))
  }

  lemma CommonIsMutual(a: Params, b: Params)
    ensures Common(a, b) == Common(b, a)
  {
    AndCommutes(a.caps, b.caps);
  }

  datatype Refusal = NotIPv4 | TooLong | NoUDP | NoICMPErrors | OtherProtocol

  /** Why a packet may not pass, if it may not. */
  function Refused(p: Bytes, limits: Params): Option<Refusal> {
    if |p| < 20 || p[0] / 16 != 4 || p[0] % 16 * 4 < 20 || p[0] % 16 * 4 > |p| then Some(NotIPv4)
    else if |p| > limits.max then Some(TooLong)
    else if p[9] == 6 then None
    else if p[9] == 17 then if Lacks(limits.caps, CAP_UDP) then Some(NoUDP) else None
    else if p[9] == 1 then if Lacks(limits.caps, CAP_ICMP_ERRORS) then Some(NoICMPErrors) else None
    else Some(OtherProtocol)
  }

  /** Bit `k` of a bitmap. */
  predicate Bit(a: nat, k: nat) { if k == 0 then a % 2 == 1 else Bit(a / 2, k - 1) }

  /** The bits that two bitmaps share are those both have. */
  lemma {:induction false} AndIsBitwise(a: u32, b: u32, k: nat)
    ensures Bit(And(a, b), k) <==> Bit(a, k) && Bit(b, k)
    decreases k
  {
    if a == 0 || b == 0 {
      NoBits(k);
    } else if k > 0 {
      AndIsBitwise(a / 2, b / 2, k - 1);
    }
  }

  lemma {:induction false} NoBits(k: nat)
    ensures !Bit(0, k)
  {
    if k > 0 { NoBits(k - 1); }
  }

  lemma HalfBit(a: nat, k: nat)
    ensures Bit(a, k + 1) <==> Bit(a / 2, k)
  {
  }

  lemma HalfAnd(a: u32, k: u32)
    requires 0 < k < 0x8000_0000
    ensures And(a, 2 * k) == 0 <==> And(a / 2, k) == 0
  {
    if a == 0 { assert And(0, k) == 0; }
  }

  lemma OneBit(a: u32)
    ensures And(a, 1) == 0 <==> !Bit(a, 0)
  {
    if a > 0 { assert And(a / 2, 0) == 0; }
  }

  lemma LacksBits(caps: u32)
    ensures Lacks(caps, CAP_UDP) <==> !Bit(caps, 2)
    ensures Lacks(caps, CAP_ICMP_ERRORS) <==> !Bit(caps, 4)
  {
    hide And, Bit;
    var c2 := caps / 2;
    var c4 := c2 / 2;
    var c8 := c4 / 2;
    HalfAnd(caps, 2);
    HalfAnd(c2, 1);
    OneBit(c4);
    HalfBit(caps, 1);
    HalfBit(c2, 0);
    HalfAnd(caps, 8);
    HalfAnd(c2, 4);
    HalfAnd(c4, 2);
    HalfAnd(c8, 1);
    OneBit(c8 / 2);
    HalfBit(caps, 3);
    HalfBit(c2, 2);
    HalfBit(c4, 1);
    HalfBit(c8, 0);
  }

  /** Which packets may pass, in header bytes: complete IPv4 (version 4, a header of at least five words that
      is all there), no longer than agreed, and TCP, or UDP or ICMP if bit 2 or 4 of the capabilities
      says so. */
  lemma PassesExactly(p: Bytes, limits: Params)
    ensures Refused(p, limits).None? <==>
      && |p| >= 20 && 0x45 <= p[0] <= 0x4F && 4 * (p[0] - 0x40) <= |p| && |p| <= limits.max
      && (p[9] == 6 || (p[9] == 17 && Bit(limits.caps, 2)) || (p[9] == 1 && Bit(limits.caps, 4)))
  {
    LacksBits(limits.caps);
    hide Lacks, Bit;
  }

  /** A peer that wants to take over, and the challenge it was given. */
  datatype Candidate = Candidate(sender: Challenge, local: Challenge, expires: int)

  /** `accepted` holds the sequence numbers taken from the present peer. */
  datatype Sess = Sess(local: Challenge, peer: Challenge, params: Params, remote: Params, exit: bool,
                       ready: bool, stopped: bool, sequence: u64, accepted: set<int>,
                       candidate: Option<Candidate>, candidateLast: Option<int>)

  const NO_PARAMS: Params := Params(0, 0)

  function RoleOf(s: Sess): byte { if s.exit then EXIT else CLIENT }

  function NewSess(params: Params, exit: bool, local: Challenge): Sess {
    Sess(local, ZERO, params, NO_PARAMS, exit, false, false, 0, {}, None, None)
  }

  function HelloWith(s: Sess, local: Challenge, peer: Challenge, ready: byte): Envelope {
    Envelope(HELLO, RoleOf(s), local, peer, Some(Hello(s.params.caps, s.params.max % 65536, ready, 0)), None, None)
  }

  function BuildHello(s: Sess): Envelope {
    HelloWith(s, s.local, s.peer, if s.ready then 1 else 0)
  }

  /** What a hello is answered with: nothing, the session's own hello on every carrier, or the
      challenge for a candidate. */
  datatype Reply = Silence | Answer | Offer(env: Envelope)

  function HelloParams(h: Hello): Params { Params(h.caps, h.max) }

  predicate GoodHello(e: Envelope) {
    && e.hello.Some? && e.hello.value.reserved == 0 && e.hello.value.ready <= 1
    && e.local != ZERO && ValidParams(HelloParams(e.hello.value))
  }

  function TakeHello(s: Sess, e: Envelope, now: int, drawn: Option<Challenge>): (Sess, Reply) {
    if s.stopped || !GoodHello(e) then (s, Silence)
    else
      var params := HelloParams(e.hello.value);
      if s.ready && e.local != s.peer then TakeStranger(s, e, now, drawn)
      else if s.ready && Common(s.params, params) != s.remote then (s, Silence)
      else if e.peer != s.local && e.peer != ZERO then (s, Silence)
      else
        var echo := e.peer == s.local;
        var s1 := s.(peer := e.local);
        var s2 := if echo then s1.(remote := Common(s.params, params), ready := true) else s1;
        var owed := e.local != s.peer || (!s.ready && echo) || (s.ready && e.hello.value.ready == 0);
        (s2, if owed then Answer else Silence)
  }

  /** A hello from someone else while a peer is established. `drawn` is the challenge drawn for it,
      should one be needed. */
  function TakeStranger(s: Sess, e: Envelope, now: int, drawn: Option<Challenge>): (Sess, Reply)
    requires GoodHello(e)
  {
    var s1 := if s.candidate.Some? && now > s.candidate.value.expires then s.(candidate := None) else s;
    var cand := s1.candidate;
    if cand.Some? && cand.value.sender == e.local && e.peer == cand.value.local then
      (s1.(local := cand.value.local, peer := e.local, remote := Common(s.params, HelloParams(e.hello.value)),
           sequence := 0, accepted := {}, candidate := None), Answer)
    else if e.peer != ZERO then (s1, Silence)
    else if cand.Some? && cand.value.sender == e.local then
      (s1, Offer(HelloWith(s, cand.value.local, e.local, 0)))
    else if s.candidateLast.Some? && now - s.candidateLast.value < CANDIDATE_INTERVAL then (s1, Silence)
    else if drawn.None? then (s1, Silence)
    else
      (s1.(candidate := Some(Candidate(e.local, drawn.value, now + CANDIDATE_TTL)), candidateLast := Some(now)),
       Offer(HelloWith(s, drawn.value, e.local, 0)))
  }

  /** Start over with a fresh challenge: the peer was silent for too long. When none can be drawn the
      old one stays. */
  function Restarted(s: Sess, drawn: Option<Challenge>): Sess {
    s.(ready := false, peer := ZERO, remote := NO_PARAMS, sequence := 0, accepted := {}, candidate := None,
      local := if drawn.Some? then drawn.value else s.local)
  }

  datatype Sending = Pending | Barred(why: Refusal) | Exhausted | NoLink | Out(env: Envelope)

  function SendPacket(s: Sess, p: Bytes, live: bool): (Sess, Sending) {
    if !s.ready || s.stopped then (s, Pending)
    else if Refused(p, s.remote).Some? then (s, Barred(Refused(p, s.remote).value))
    else if s.sequence == TWO64 - 1 then (s, Exhausted)
    else
      var seqNo := s.sequence + 1;
      (s.(sequence := seqNo),
       if !live then NoLink else Out(Envelope(IPV4, RoleOf(s), s.local, s.peer, None, Some(seqNo), None)))
  }

  /** Whether a data packet is handed up. */
  ghost function TakeData(s: Sess, e: Envelope, payload: Bytes): (Sess, bool) {
    if e.data.None? || !s.ready || s.stopped || e.local != s.peer || e.peer != s.local then (s, false)
    else if Refused(payload, s.remote).Some? || !Fresh(s.accepted, e.data.value) then (s, false)
    else (s.(accepted := s.accepted + {e.data.value}), true)
  }
}
