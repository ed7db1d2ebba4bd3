/** The session object: each call computes the corresponding function of `SessionState`. */
module Session {
  import opened Seq32
  import opened Envelope
  import opened ReplayWindow
  import opened SessionState

  class Session {
    var local: Challenge
    var peer: Challenge
    const params: Params
    var remote: Params
    const exit: bool
    var ready: bool
    var stopped: bool
    var sequence: u64
    const window: ReplayWindow // holds `highest` too
    var candidate: Option<Candidate>
    var candidateLast: Option<int>

    ghost predicate Valid()
      reads this, window, window.words
    {
      window.Valid()
    }

    ghost function State(): Sess
      reads this, window
    {
      Sess(local, peer, params, remote, exit, ready, stopped, sequence, AcceptedBy(window.calls), candidate,
      candidateLast)
    }

    constructor (params: Params, exit: bool, local: Challenge)
      ensures Valid() && State() == NewSess(params, exit, local)
      ensures fresh(window) && fresh(window.words)
    {
      this.params, this.exit, this.local := params, exit, local;
      peer, remote, ready, stopped, sequence := ZERO, NO_PARAMS, false, false, 0;
      candidate, candidateLast := None, None;
      window := new ReplayWindow();
    }

    function Role(): byte
      reads this
    {
      if exit then EXIT else CLIENT
    }

    method ReceiveHello(e: Envelope, now: int, drawn: Option<Challenge>) returns (reply: Reply)
      requires Valid()
      modifies this, window, window.words
      ensures Valid() && (State(), reply) == TakeHello(old(State()), e, now, drawn)
    {
      if stopped {
        return Silence;
      }
      if e.hello.None? || e.hello.value.reserved != 0 || e.hello.value.ready > 1 {
        return Silence;
      }
      var sender := e.local;
      if sender == ZERO {
        return Silence;
      }
      var theirs := Params(e.hello.value.caps, e.hello.value.max);
      if !ValidParams(theirs) {
        return Silence;
      }
      hide And, ValidParams, Min, HelloWith;
      var echo, zero := e.peer == local, e.peer == ZERO;
      if ready && sender != peer {
        reply := OfferReplacementLocked(sender, theirs, e, now, drawn);
        return;
      }
      if ready && (And(theirs.caps, params.caps) != remote.caps || Min(theirs.max, params.max) != remote.max) {
        return Silence;
      }
      if !echo && !zero {
        return Silence;
      }
      var changed, wasReady := sender != peer, ready;
      peer := sender;
      if echo {
        remote := Params(And(theirs.caps, params.caps), Min(theirs.max, params.max));
        ready := true;
      }
      if changed || (!wasReady && echo) || (wasReady && e.hello.value.ready == 0) {
        return Answer;
      }
      return Silence;
    }

    method OfferReplacementLocked(sender: Challenge, theirs: Params, e: Envelope, now: int, drawn: Option<Challenge>)
      returns (reply: Reply)
      requires Valid() && GoodHello(e) && sender == e.local && theirs == HelloParams(e.hello.value)
      modifies this, window, window.words
      ensures Valid() && (State(), reply) == TakeStranger(old(State()), e, now, drawn)
    {
      var cand := candidate;
      if cand.Some? && now > cand.value.expires {
        cand, candidate := None, None;
      }
      if cand.Some? && cand.value.sender == sender && e.peer == cand.value.local {
        local := cand.value.local;
        peer := sender;
        remote := Params(And(theirs.caps, params.caps), Min(theirs.max, params.max));
        sequence := 0;
        window.Reset();
        candidate := None;
        return Answer;
      }
      if e.peer != ZERO {
        return Silence;
      }
      if cand.None? || cand.value.sender != sender {
        if candidateLast.Some? && now - candidateLast.value < CANDIDATE_INTERVAL {
          return Silence;
        }
        if drawn.None? {
          return Silence;
        }
        cand := Some(Candidate(sender, drawn.value, now + CANDIDATE_TTL));
        candidate := cand;
        candidateLast := Some(now);
      }
      return Offer(Envelope(HELLO, Role(), cand.value.local, sender,
                            Some(Hello(params.caps, params.max % 65536, 0, 0)), None, None));
    }

    method ResetLocked(drawn: Option<Challenge>)
      requires Valid()
      modifies this, window, window.words
      ensures Valid() && State() == Restarted(old(State()), drawn)
    {
      ready := false;
      peer := ZERO;
      remote := NO_PARAMS;
      sequence := 0;
      window.Reset();
      candidate := None;
      if drawn.Some? {
        local := drawn.value;
      }
    }

    method Stop()
      requires Valid()
      modifies this`stopped, this`ready
      ensures Valid() && State() == old(State()).(stopped := true, ready := false)
    {
      stopped := true;
      ready := false;
    }

    method Send(p: Bytes, live: bool) returns (r: Sending)
      requires Valid()
      modifies this`sequence
      ensures Valid() && (State(), r) == SendPacket(old(State()), p, live)
    {
      if !ready || stopped {
        return Pending;
      }
      var no := Refused(p, remote);
      if no.Some? {
        return Barred(no.value);
      }
      if sequence == TWO64 - 1 {
        return Exhausted;
      }
      sequence := sequence + 1;
      var env := Envelope(IPV4, Role(), local, peer, None, Some(sequence), None);
      if !live {
        return NoLink;
      }
      return Out(env);
    }

    method ReceiveIPv4(e: Envelope, payload: Bytes) returns (up: bool)
      requires Valid()
      modifies window, window.words
      ensures Valid() && (State(), up) == TakeData(old(State()), e, payload)
    {
      if e.data.None? {
        return false;
      }
      if !ready || stopped {
        return false;
      }
      if e.local != peer || e.peer != local {
        return false;
      }
      var no := Refused(payload, remote);
      if no.Some? {
        return false;
      }
      AcceptedNext(window.calls, e.data.value);
      up := window.Accept(e.data.value);
    }
  }
}
