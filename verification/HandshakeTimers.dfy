/** The hello exchange with its timers: the client's hello timer and keepalive reset, and the pings and
    pongs of both ends. Control messages may be lost, delayed and repeated. */
module HandshakeTimers {
  import opened Seq32
  import opened Envelope
  import opened SessionState
  import opened Handshake

  /** A ping or pong on its way to the client (`toA`) or to the exit. */
  datatype Control = Control(toA: bool, pong: bool, local: Challenge, peer: Challenge)

  /** `d.a` is the client and `d.b` the exit; `keepalive` tells whether the client has heard a pong, and
      `said` is every control message ever sent. */
  datatype Timed = Timed(d: Duo, keepalive: bool, said: set<Control>)

  datatype Tick =
    | Turn(st: Step)
    | HelloTimer
    | KeepTimer(silent: bool, drawn: Challenge)
    | Ping(atA: bool)
    | HearControl(c: Control)

  function EndOf(t: Timed, atA: bool): Sess { if atA then t.d.a.s else t.d.b.s }

  /** A control message for the present peers, heard by a session that is ready. */
  predicate Minds(s: Sess, c: Control) { s.ready && !s.stopped && c.local == s.peer && c.peer == s.local }

  predicate CanTick(t: Timed, x: Tick) {
    match x
    case Turn(st) => Can(t.d, st)
    case HearControl(c) => c in t.said
    case _ => true
  }

  function DoTick(k: nat, t: Timed, x: Tick): Timed
    requires CanTick(t, x)
  {
    match x
    case Turn(st) => t.(d := Do(k, t.d, st))
    case HelloTimer =>
      if t.d.a.s.ready then t else t.(d := Duo(t.d.a.(owed := t.d.a.owed + k), t.d.b))
    case KeepTimer(silent, drawn) =>
      if t.d.a.s.ready && t.keepalive && silent
      then t.(d := Duo(t.d.a.(s := Restarted(t.d.a.s, Some(drawn))), t.d.b), keepalive := false)
      else t
    case Ping(atA) =>
      var s := EndOf(t, atA);
      if s.ready && !s.stopped then t.(said := t.said + {Control(!atA, false, s.local, s.peer)}) else t
    case HearControl(c) =>
      var s := EndOf(t, c.toA);
      if !Minds(s, c) then t
      else if !c.pong then t.(said := t.said + {Control(!c.toA, true, s.local, s.peer)})
      else t.(keepalive := t.keepalive || c.toA)
  }

  predicate Ticks(k: nat, t: Timed, xs: seq<Tick>)
    decreases |xs|
  {
    xs == [] || (CanTick(t, xs[0]) && Ticks(k, DoTick(k, t, xs[0]), xs[1..]))
  }

  function AfterTicks(k: nat, t: Timed, xs: seq<Tick>): Timed
    requires Ticks(k, t, xs)
    decreases |xs|
  {
    if xs == [] then t else AfterTicks(k, DoTick(k, t, xs[0]), xs[1..])
  }

  /** Only an exit that is ready answers the client's pings. */
  ghost predicate Warm(t: Timed) {
    t.keepalive || (exists c :: c in t.said && c.toA && c.pong) ==> t.d.b.s.ready
  }

  lemma ReadyStays(k: nat, d: Duo, st: Step)
    requires Can(d, st) && d.b.s.ready
    ensures Do(k, d, st).b.s.ready
  {
    hide GoodHello, HelloWith, Common;
  }

  lemma TickKeepsWarm(k: nat, t: Timed, x: Tick)
    requires Warm(t) && CanTick(t, x)
    ensures Warm(DoTick(k, t, x))
  {
    hide Do, Can;
    if x.Turn? && t.d.b.s.ready { ReadyStays(k, t.d, x.st); }
  }

  lemma {:induction false} TicksKeepWarm(k: nat, t: Timed, xs: seq<Tick>)
    requires Warm(t) && Ticks(k, t, xs)
    ensures Warm(AfterTicks(k, t, xs))
    decreases |xs|
  {
    hide Warm, DoTick, CanTick;
    if xs != [] {
      TickKeepsWarm(k, t, xs[0]);
      TicksKeepWarm(k, DoTick(k, t, xs[0]), xs[1..]);
    }
  }

  /** The client is ready, the exit is not, and nothing is owed or on its way. */
  predicate Stalled(d: Duo) {
    && d.a.s.ready && !d.b.s.ready
    && d.a.owed == d.b.owed == 0 && d.a.inbox == d.b.inbox == []
  }

  lemma TickKeepsStalled(k: nat, t: Timed, x: Tick)
    requires Warm(t) && Stalled(t.d) && CanTick(t, x)
    ensures DoTick(k, t, x).d == t.d
  {
  }

  lemma {:induction false} TicksKeepStalled(k: nat, t: Timed, xs: seq<Tick>)
    requires Warm(t) && Stalled(t.d) && Ticks(k, t, xs)
    ensures AfterTicks(k, t, xs).d == t.d
    decreases |xs|
  {
    hide Warm, Stalled, DoTick, CanTick;
    if xs != [] {
      TickKeepsWarm(k, t, xs[0]);
      TickKeepsStalled(k, t, xs[0]);
      TicksKeepStalled(k, DoTick(k, t, xs[0]), xs[1..]);
    }
  }

  /** A stall is for good. Whatever hellos, pings, pongs and losses led to it, from then on neither
      timer and no control message changes anything about either end. */
  lemma StallIsPermanent(k: nat, t: Timed, xs: seq<Tick>, more: seq<Tick>)
    requires !t.keepalive && t.said == {} && Ticks(k, t, xs) && Stalled(AfterTicks(k, t, xs).d)
    requires Ticks(k, AfterTicks(k, t, xs), more)
    ensures AfterTicks(k, AfterTicks(k, t, xs), more).d == AfterTicks(k, t, xs).d
  {
    TicksKeepWarm(k, t, xs);
    TicksKeepStalled(k, AfterTicks(k, t, xs), more);
  }

  function Turns(steps: seq<Step>): (xs: seq<Tick>)
    ensures |xs| == |steps|
  {
    seq(|steps|, j requires 0 <= j < |steps| => Turn(steps[j]))
  }

  lemma {:induction false} TurnsAreTicks(k: nat, d: Duo, steps: seq<Step>)
    requires Runs(k, d, steps)
    ensures Ticks(k, Timed(d, false, {}), Turns(steps))
    ensures AfterTicks(k, Timed(d, false, {}), Turns(steps)) == Timed(After(k, d, steps), false, {})
    decreases |steps|
  {
    if steps != [] {
      TurnsAreTicks(k, Do(k, d, steps[0]), steps[1..]);
      assert Turns(steps)[1..] == Turns(steps[1..]);
      hide Do, Can;
    }
  }

  /** So it is after the client's only reply was lost: with the timers running the exit never gets ready. */
  lemma LostReplyIsFinal(d: Duo, c: Challenge, e: Challenge, mine: Params, theirs: Params, now: int, drawn: Challenge,
                         more: seq<Tick>)
    requires Opening(d, c, e, mine, theirs) && |d.b.inbox| == 1
    ensures Ticks(1, Timed(d, false, {}), Turns(LostReply(now, drawn)))
    ensures var t := AfterTicks(1, Timed(d, false, {}), Turns(LostReply(now, drawn)));
      Ticks(1, t, more) ==>
        && AfterTicks(1, t, more).d == t.d
        && AfterTicks(1, t, more).d.a.s.ready && !AfterTicks(1, t, more).d.b.s.ready
  {
    LostReplyStalls(d, c, e, mine, theirs, now, drawn);
    TurnsAreTicks(1, d, LostReply(now, drawn));
    var t := AfterTicks(1, Timed(d, false, {}), Turns(LostReply(now, drawn)));
    OverIsQuiet(t.d);
    hide Runs, After, LostReply, Opening, Over, Turns;
    if Ticks(1, t, more) { StallIsPermanent(1, Timed(d, false, {}), Turns(LostReply(now, drawn)), more); }
  }
}
