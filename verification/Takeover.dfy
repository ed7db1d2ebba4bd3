/** How a restarted peer gets in: a session that is ready gives a stranger a challenge of its own, and the
    stranger that echoes it in time takes over. Times are in nanoseconds. */
module Takeover {
  import opened Seq32
  import opened Envelope
  import opened SessionState

  /** Everything but the candidate is as it was. */
  predicate Unmoved(s: Sess, s': Sess) {
    && s'.local == s.local && s'.peer == s.peer && s'.remote == s.remote && s'.ready == s.ready
    && s'.sequence == s.sequence && s'.accepted == s.accepted
    && s'.params == s.params && s'.exit == s.exit && s'.stopped == s.stopped
  }

  /** The session is ready with another peer than the one that says this hello. */
  predicate FromAStranger(s: Sess, e: Envelope) { s.ready && !s.stopped && GoodHello(e) && e.local != s.peer }

  /** The hello that offers a stranger the challenge `x`. */
  predicate Offers(r: Reply, s: Sess, e: Envelope, x: Challenge) {
    && r.Offer? && r.env.kind == HELLO && r.env.role == (if s.exit then EXIT else CLIENT)
    && r.env.local == x && r.env.peer == e.local
    && r.env.hello == Some(Hello(s.params.caps, s.params.max % 65536, 0, 0))
  }

  /** A stranger's hello that echoes nothing is offered the challenge drawn, if no other candidate is pending
      and none was drawn within the last second. */
  lemma StrangerIsOffered(s: Sess, e: Envelope, now: int, x: Challenge)
    requires FromAStranger(s, e) && e.peer == ZERO && s.candidate.None?
    requires s.candidateLast.Some? ==> now >= s.candidateLast.value + 1_000_000_000
    ensures var (s1, r) := TakeHello(s, e, now, Some(x)); Offers(r, s, e, x) && Unmoved(s, s1)
  {
  }

  /** What the next stranger's hello does after that. The stranger that was offered `x` takes over exactly if
      it echoes `x` within 20 seconds: the session is then ready under `x` with the new peer, agreed anew,
      its counter and its window empty, and says so. Nobody else does, and nobody later. */
  lemma TakesOverInTime(s: Sess, e: Envelope, now: int, x: Challenge, e2: Envelope, now2: int, drawn: Option<Challenge>)
    requires FromAStranger(s, e) && e.peer == ZERO && s.candidate.None? && x != ZERO
    requires s.candidateLast.Some? ==> now >= s.candidateLast.value + 1_000_000_000
    requires FromAStranger(s, e2)
    ensures var s1 := TakeHello(s, e, now, Some(x)).0; var (s2, r) := TakeHello(s1, e2, now2, drawn);
      if e2.local == e.local && e2.peer == x && now2 <= now + 20_000_000_000 then
        && s2.ready && s2.local == x && s2.peer == e.local
        && s2.remote == Common(s.params, HelloParams(e2.hello.value))
        && s2.sequence == 0 && s2.accepted == {} && s2.candidate.None? && r == Answer
      else Unmoved(s, s2) && r != Answer && (e2.peer != ZERO ==> r == Silence)
  {
  }

  /** A stranger that asks again within the 20 seconds is offered the same challenge. */
  lemma SameOfferAgain(s: Sess, e: Envelope, now: int, x: Challenge, e2: Envelope, now2: int, drawn: Option<Challenge>)
    requires FromAStranger(s, e) && e.peer == ZERO && s.candidate.None? && x != ZERO
    requires s.candidateLast.Some? ==> now >= s.candidateLast.value + 1_000_000_000
    requires FromAStranger(s, e2) && e2.local == e.local && e2.peer == ZERO && now2 <= now + 20_000_000_000
    ensures var s1 := TakeHello(s, e, now, Some(x)).0; var (s2, r) := TakeHello(s1, e2, now2, drawn);
      s2 == s1 && Offers(r, s, e2, x)
  {
  }

  /** Another stranger is not heard within a second of the last draw, and is offered a challenge of its own
      after it, in place of the first one's. */
  lemma OneDrawASecond(s: Sess, e: Envelope, now: int, x: Challenge, e2: Envelope, now2: int, y: Challenge)
    requires FromAStranger(s, e) && e.peer == ZERO && s.candidate.None? && x != ZERO
    requires s.candidateLast.Some? ==> now >= s.candidateLast.value + 1_000_000_000
    requires FromAStranger(s, e2) && e2.local != e.local && e2.peer == ZERO
    ensures var s1 := TakeHello(s, e, now, Some(x)).0; var (s2, r) := TakeHello(s1, e2, now2, Some(y));
      if now2 < now + 1_000_000_000 then s2 == s1 && r == Silence else Offers(r, s, e2, y) && Unmoved(s, s2)
  {
  }

  /** No hello from its own peer changes what a ready session has agreed on, its challenge or its counters. */
  lemma PeerKeepsTheTerms(s: Sess, e: Envelope, now: int, drawn: Option<Challenge>)
    requires s.ready && e.local == s.peer
    ensures var (s1, r) := TakeHello(s, e, now, drawn); s1 == s && !r.Offer?
  {
  }
}
