/** Any number of sessions that share a key, over carriers that lose, delay, repeat and reorder
    what they carry.

    Whatever was ever sent stays on the wire and may be received any number of times by any session.
    Nothing else is received (the carriers' encryption authenticates it), and a challenge that is
    drawn was never drawn before. Sessions come up, say hello, receive, send, restart and stop in
    any order; each locked section of the code is one step. */
module SessionNet {
  import opened Seq32
  import opened Envelope
  import opened ReplayWindow
  import opened SessionState

  datatype Packet = Packet(env: Envelope, payload: Bytes)
  datatype Delivery = Delivery(to: nat, packet: Packet)

  /** `owner` tells which session drew a challenge; `heard` is what each session received, `log` what it
      handed up. */
  datatype Net = Net(sess: seq<Sess>, wire: set<Packet>, owner: map<Challenge, nat>, heard: set<Delivery>,
    log: seq<Delivery>)

  const START: Net := Net([], {}, map[], {}, [])

  datatype Act = Join(params: Params, exit: bool) | SayHello | Receive(packet: Packet, now: int)
               | SendData(p: Bytes, live: bool) | Restart | Stop

  /** `drawn` is the challenge the session draws, should it need one. */
  datatype Step = Step(id: nat, drawn: Challenge, act: Act)

  predicate Can(n: Net, s: Step) {
    && s.drawn !in n.owner && s.drawn != ZERO
    && match s.act
       case Join(params, exit) => s.id == |n.sess| && ValidParams(params)
       case Receive(packet, now) => s.id < |n.sess| && packet in n.wire
       case Restart => s.id < |n.sess| && n.sess[s.id].ready && !n.sess[s.id].exit
       case _ => s.id < |n.sess|
  }

  function Changed(n: Net, s: Step, s': Sess): Net
    requires s.id < |n.sess|
  {
    n.(sess := n.sess[s.id := s'], owner := n.owner[s.drawn := s.id])
  }

  function Said(n: Net, p: Packet): Net { n.(wire := n.wire + {p}) }

  /** What `receive` does with a packet. An answer is not said here: it is built later, when the
      lock was released, which `SayHello` covers. */
  ghost function Treated(n: Net, s: Step): Net
    requires s.act.Receive? && s.id < |n.sess|
  {
    var before, e := n.sess[s.id], s.act.packet.env;
    if e.role == RoleOf(before) then Changed(n, s, before)
    else if e.kind == HELLO then
      var (after, reply) := TakeHello(before, e, s.act.now, Some(s.drawn));
      var n1 := Changed(n, s, after);
      if reply.Offer? then Said(n1, Packet(reply.env, [])) else n1
    else if e.kind == IPV4 then
      var (after, up) := TakeData(before, e, s.act.packet.payload);
      var n1 := Changed(n, s, after);
      if up then n1.(log := n1.log + [Delivery(s.id, s.act.packet)]) else n1
    else Changed(n, s, before)
  }

  /** A packet comes in on some carrier. */
  ghost function Received(n: Net, s: Step): Net
    requires s.act.Receive? && s.id < |n.sess|
  {
    Treated(n.(heard := n.heard + {Delivery(s.id, s.act.packet)}), s)
  }

  ghost function Do(n: Net, s: Step): Net
    requires Can(n, s)
  {
    match s.act
    case Join(params, exit) =>
      n.(sess := n.sess + [NewSess(params, exit, s.drawn)], owner := n.owner[s.drawn := s.id])
    case SayHello => Said(Changed(n, s, n.sess[s.id]), Packet(BuildHello(n.sess[s.id]), []))
    case Receive(_, _) => Received(n, s)
    case SendData(p, live) =>
      var (after, r) := SendPacket(n.sess[s.id], p, live);
      var n1 := Changed(n, s, after);
      if r.Out? then Said(n1, Packet(r.env, p)) else n1
    case Restart => Changed(n, s, Restarted(n.sess[s.id], Some(s.drawn)))
    case Stop => Changed(n, s, n.sess[s.id].(stopped := true, ready := false))
  }

  // ---- the invariant ----

  predicate Known(n: Net, c: Challenge) { c in n.owner && n.owner[c] < |n.sess| }

  function SessOf(n: Net, c: Challenge): Sess
    requires Known(n, c)
  {
    n.sess[n.owner[c]]
  }

  /** A session drew its own challenge and the one it gave to a candidate. */
  predicate Owns(n: Net, id: nat)
    requires id < |n.sess|
  {
    var s := n.sess[id];
    && ValidParams(s.params)
    && s.local != ZERO && s.local in n.owner && n.owner[s.local] == id
    && (s.candidate.Some? ==>
          var c := s.candidate.value.local;
          c != ZERO && c != s.local && c in n.owner && n.owner[c] == id)
  }

  /** A hello that names challenge `c` was answered by whoever drew `to`. */
  predicate IsEcho(p: Packet, c: Challenge, to: Challenge) {
    p.env.kind == HELLO && p.env.local == c && p.env.peer == to
  }

  /** A session that is ready received a hello from its present peer that echoes its present challenge,
      from the other role, and agreed with that peer on what both can do. */
  ghost predicate Bound(n: Net, id: nat, s: Sess) {
    s.ready ==>
      && Known(n, s.peer) && SessOf(n, s.peer).exit != s.exit
      && s.remote == Common(s.params, SessOf(n, s.peer).params)
      && exists p :: p in n.wire && IsEcho(p, s.peer, s.local) && Delivery(id, p) in n.heard
  }

  predicate HelloOk(n: Net, p: Packet) {
    p.env.kind == HELLO ==>
      && Known(n, p.env.local) && p.env.role == RoleOf(SessOf(n, p.env.local))
      && p.env.hello.Some? && HelloParams(p.env.hello.value) == SessOf(n, p.env.local).params
  }

  predicate Engaged(s: Sess) { s.ready || s.stopped }

  /** A data packet was let out by what both ends can do; its number is not above the sender's
      counter while that session still speaks under the same challenge. */
  predicate DataOk(n: Net, p: Packet) {
    p.env.kind == IPV4 ==>
      && p.env.data.Some? && Known(n, p.env.local) && Known(n, p.env.peer)
      && var s := SessOf(n, p.env.local);
      && p.env.role == RoleOf(s)
      && Refused(p.payload, Common(s.params, SessOf(n, p.env.peer).params)).None?
      && (p.env.local == s.local ==> p.env.peer == s.peer && p.env.data.value <= s.sequence && Engaged(s))
      && (s.candidate.Some? ==> p.env.local != s.candidate.value.local)
  }

  predicate SameName(p: Packet, q: Packet) {
    p.env.local == q.env.local && p.env.peer == q.env.peer && p.env.data == q.env.data
  }

  ghost predicate NamedOnce(n: Net) {
    forall p, q :: p in n.wire && q in n.wire && p.env.kind == q.env.kind == IPV4 && SameName(p, q) ==> p == q
  }

  /** What was handed up was on the wire, for the session that drew the challenge it echoes; while
      that challenge is in use, the window remembers the number. */
  predicate LogOk(n: Net, d: Delivery) {
    var e := d.packet.env;
    && d.packet in n.wire && e.kind == IPV4 && e.data.Some?
    && Known(n, e.peer) && n.owner[e.peer] == d.to
    && var s := n.sess[d.to];
    && (e.peer == s.local ==> e.local == s.peer && e.data.value in s.accepted && Engaged(s))
    && (s.candidate.Some? ==> e.peer != s.candidate.value.local)
  }

  ghost predicate LoggedOnce(n: Net) {
    forall i, j :: 0 <= i < j < |n.log| ==> !SameName(n.log[i].packet, n.log[j].packet)
  }

  ghost predicate Inv(n: Net) {
    && (forall c :: c in n.owner ==> n.owner[c] < |n.sess|)
    && (forall id: nat :: id < |n.sess| ==> Owns(n, id) && Bound(n, id, n.sess[id]))
    && (forall p :: p in n.wire ==> HelloOk(n, p) && DataOk(n, p))
    && NamedOnce(n)
    && (forall d :: d in n.log ==> LogOk(n, d))
    && LoggedOnce(n)
  }

  // ---- one session changes ----

  /** How a step may change a session: under the same challenge an established session keeps its
      peer, its counter and its window only grow; otherwise it takes a challenge not used before. */
  ghost predicate Follows(s: Sess, s': Sess, drawn: Challenge) {
    && s'.params == s.params && s'.exit == s.exit
    && (if s'.local == s.local then
          && (Engaged(s) ==> Engaged(s') && s'.peer == s.peer && s.sequence <= s'.sequence && s.accepted <= s'.accepted)
          && (s'.candidate.Some? ==>
                s'.candidate.value.local == drawn
                || (s.candidate.Some? && s'.candidate.value.local == s.candidate.value.local))
        else
          && s'.candidate.None?
          && (s'.local == drawn || (s.candidate.Some? && s'.local == s.candidate.value.local)))
  }

  lemma FollowsOwns(n: Net, s: Step, s': Sess)
    requires s.id < |n.sess| && Owns(n, s.id) && s.drawn !in n.owner && s.drawn != ZERO
    requires Follows(n.sess[s.id], s', s.drawn)
    ensures Owns(Changed(n, s, s'), s.id)
  {
  }

  lemma FollowsData(n: Net, s: Step, s': Sess, p: Packet)
    requires s.id < |n.sess| && Owns(n, s.id) && s.drawn !in n.owner && DataOk(n, p)
    requires Follows(n.sess[s.id], s', s.drawn)
    ensures DataOk(Changed(n, s, s'), p)
  {
    hide Refused, Common;
  }

  lemma FollowsHello(n: Net, s: Step, s': Sess, p: Packet)
    requires s.id < |n.sess| && s.drawn !in n.owner && HelloOk(n, p)
    requires Follows(n.sess[s.id], s', s.drawn)
    ensures HelloOk(Changed(n, s, s'), p)
  {
  }

  lemma FollowsLog(n: Net, s: Step, s': Sess, d: Delivery)
    requires s.id < |n.sess| && Owns(n, s.id) && s.drawn !in n.owner && LogOk(n, d)
    requires Follows(n.sess[s.id], s', s.drawn)
    ensures LogOk(Changed(n, s, s'), d)
  {
  }

  lemma FollowsBound(n: Net, s: Step, s': Sess, id: nat, other: Sess)
    requires s.id < |n.sess| && s.drawn !in n.owner && Bound(n, id, other)
    requires Follows(n.sess[s.id], s', s.drawn)
    ensures Bound(Changed(n, s, s'), id, other)
  {
  }

  lemma ChangedKeeps(n: Net, s: Step, s': Sess)
    requires Inv(n) && s.id < |n.sess| && s.drawn !in n.owner && s.drawn != ZERO
    requires Follows(n.sess[s.id], s', s.drawn) && Bound(n, s.id, s')
    ensures Inv(Changed(n, s, s'))
  {
    hide Owns, Bound, HelloOk, DataOk, LogOk, Follows;
    var n' := Changed(n, s, s');
    forall id: nat | id < |n'.sess| ensures Owns(n', id) && Bound(n', id, n'.sess[id]) {
      FollowsBound(n, s, s', id, n'.sess[id]);
      if id == s.id { FollowsOwns(n, s, s'); } else { OthersOwn(n, s, s', id); }
    }
    forall p | p in n'.wire ensures HelloOk(n', p) && DataOk(n', p) {
      FollowsHello(n, s, s', p);
      FollowsData(n, s, s', p);
    }
    forall d | d in n'.log ensures LogOk(n', d) { FollowsLog(n, s, s', d); }
  }

  lemma OthersOwn(n: Net, s: Step, s': Sess, id: nat)
    requires s.id < |n.sess| && id < |n.sess| && id != s.id && s.drawn !in n.owner && Owns(n, id)
    ensures Owns(Changed(n, s, s'), id)
  {
  }

  // ---- one packet is said, or handed up ----

  lemma SaidKeeps(n: Net, p: Packet)
    requires Inv(n) && HelloOk(n, p) && DataOk(n, p)
    requires p.env.kind == IPV4 ==> forall q :: q in n.wire && q.env.kind == IPV4 ==> !SameName(p, q)
    ensures Inv(Said(n, p))
  {
    hide Owns, HelloOk, DataOk, LogOk, SameName;
    var n' := Said(n, p);
    forall q | q in n'.wire ensures HelloOk(n', q) && DataOk(n', q) { SaidSame(n, p, q); }
    forall id: nat | id < |n'.sess| ensures Owns(n', id) && Bound(n', id, n'.sess[id]) { SaidOwns(n, p, id); }
    forall d | d in n'.log ensures LogOk(n', d) { SaidLog(n, p, d); }
    forall q, r | q in n'.wire && r in n'.wire && q.env.kind == r.env.kind == IPV4 && SameName(q, r) ensures q == r {
      SameNameSymmetric(q, r);
    }
  }

  lemma SameNameSymmetric(q: Packet, r: Packet)
    ensures SameName(q, r) <==> SameName(r, q)
  {
  }

  lemma SaidSame(n: Net, p: Packet, q: Packet)
    ensures HelloOk(n, q) ==> HelloOk(Said(n, p), q)
    ensures DataOk(n, q) ==> DataOk(Said(n, p), q)
  {
  }

  lemma SaidOwns(n: Net, p: Packet, id: nat)
    requires id < |n.sess| && Owns(n, id)
    ensures Owns(Said(n, p), id)
  {
  }

  lemma SaidLog(n: Net, p: Packet, d: Delivery)
    requires LogOk(n, d)
    ensures LogOk(Said(n, p), d)
  {
  }

  lemma LoggedKeeps(n: Net, d: Delivery)
    requires Inv(n) && LogOk(n, d) && forall c :: c in n.log ==> !SameName(c.packet, d.packet)
    ensures Inv(n.(log := n.log + [d]))
  {
    hide HelloOk, DataOk, SameName;
    var n' := n.(log := n.log + [d]);
    forall p | p in n'.wire ensures HelloOk(n', p) && DataOk(n', p) { LogSame(n, n', p); }
    forall c | c in n'.log ensures LogOk(n', c) {
      assert c in n.log || c == d;
    }
  }

  lemma LogSame(n: Net, n': Net, p: Packet)
    requires n'.sess == n.sess && n'.owner == n.owner && HelloOk(n, p) && DataOk(n, p)
    ensures HelloOk(n', p) && DataOk(n', p)
  {
  }

  // ---- the steps ----

  lemma JoinKeeps(n: Net, s: Step)
    requires Inv(n) && Can(n, s) && s.act.Join?
    ensures Inv(Do(n, s))
  {
    hide ValidParams, Refused, Common;
    var n' := Do(n, s);
    forall p | p in n'.wire ensures HelloOk(n', p) && DataOk(n', p) {
      assert HelloOk(n, p) && DataOk(n, p);
    }
    forall id: nat | id < |n'.sess| ensures Owns(n', id) && Bound(n', id, n'.sess[id]) {
      if id < |n.sess| { assert Owns(n, id) && Bound(n, id, n.sess[id]); }
    }
    forall d | d in n'.log ensures LogOk(n', d) { assert LogOk(n, d); }
  }

  lemma HelloWithOk(n: Net, id: nat, c: Challenge, peer: Challenge, ready: byte)
    requires id < |n.sess| && ValidParams(n.sess[id].params) && c in n.owner && n.owner[c] == id
    ensures HelloOk(n, Packet(HelloWith(n.sess[id], c, peer, ready), []))
    ensures DataOk(n, Packet(HelloWith(n.sess[id], c, peer, ready), []))
  {
  }

  lemma SameFollows(n: Net, s: Step)
    requires Inv(n) && s.id < |n.sess|
    ensures Follows(n.sess[s.id], n.sess[s.id], s.drawn) && Bound(n, s.id, n.sess[s.id])
  {
  }

  lemma SayHelloKeeps(n: Net, s: Step)
    requires Inv(n) && Can(n, s) && s.act.SayHello?
    ensures Inv(Do(n, s))
  {
    hide Bound, HelloOk, DataOk, LogOk, Follows, HelloWith;
    SameFollows(n, s);
    ChangedKeeps(n, s, n.sess[s.id]);
    var n1, me := Changed(n, s, n.sess[s.id]), n.sess[s.id];
    assert Owns(n1, s.id);
    HelloWithOk(n1, s.id, me.local, me.peer, if me.ready then 1 else 0);
    HelloIsHello(me, me.local, me.peer, if me.ready then 1 else 0);
    SaidKeeps(n1, Packet(BuildHello(me), []));
  }

  lemma HelloIsHello(s: Sess, c: Challenge, peer: Challenge, ready: byte)
    ensures HelloWith(s, c, peer, ready).kind == HELLO
  {
  }

  lemma RestartKeeps(n: Net, s: Step)
    requires Inv(n) && s.id < |n.sess| && s.drawn !in n.owner && s.drawn != ZERO
    ensures Inv(Changed(n, s, Restarted(n.sess[s.id], Some(s.drawn))))
  {
    ChangedKeeps(n, s, Restarted(n.sess[s.id], Some(s.drawn)));
  }

  lemma StopKeeps(n: Net, s: Step)
    requires Inv(n) && Can(n, s) && s.act.Stop?
    ensures Inv(Do(n, s))
  {
    ChangedKeeps(n, s, n.sess[s.id].(stopped := true, ready := false));
  }

  lemma SendDataKeeps(n: Net, s: Step)
    requires Inv(n) && Can(n, s) && s.act.SendData?
    ensures Inv(Do(n, s))
  {
    hide Refused, Common, ValidParams, HelloOk, LogOk, DataOk;
    var me, data := n.sess[s.id], s.act.p;
    var (after, r) := SendPacket(me, data, s.act.live);
    assert Owns(n, s.id) && Bound(n, s.id, me);
    ChangedKeeps(n, s, after);
    if r.Out? {
      var n1, p := Changed(n, s, after), Packet(r.env, data);
      NextIsUnused(n, s, p);
      NextIsOk(n, s, p, after);
      assert HelloOk(n1, p) by { DataIsNoHello(n1, p); }
      SaidKeeps(n1, p);
    }
  }

  lemma DataIsNoHello(n: Net, p: Packet)
    requires p.env.kind == IPV4
    ensures HelloOk(n, p)
  {
  }

  /** No packet on the wire has the next number. */
  lemma NextIsUnused(n: Net, s: Step, p: Packet)
    requires Inv(n) && s.id < |n.sess| && n.sess[s.id].ready
    requires p.env.local == n.sess[s.id].local && p.env.data.Some? && p.env.data.value > n.sess[s.id].sequence
    ensures forall q :: q in n.wire && q.env.kind == IPV4 ==> !SameName(p, q)
  {
    hide Refused, Common;
    assert Owns(n, s.id);
    forall q | q in n.wire && q.env.kind == IPV4 ensures !SameName(p, q) { assert DataOk(n, q); }
  }

  lemma NextIsOk(n: Net, s: Step, p: Packet, after: Sess)
    requires s.id < |n.sess| && Owns(n, s.id) && Bound(n, s.id, n.sess[s.id]) && s.drawn !in n.owner
    requires var me := n.sess[s.id];
      && me.ready && me.sequence < TWO64 - 1 && after == me.(sequence := me.sequence + 1)
      && Refused(p.payload, me.remote).None?
      && p.env == Envelope(IPV4, RoleOf(me), me.local, me.peer, None, Some(me.sequence + 1), None)
    ensures DataOk(Changed(n, s, after), p)
  {
    hide Refused, Common, ValidParams;
  }

  /** A hello that is on the wire moves a session as `Follows` allows and leaves it bound. */
  lemma HelloFollows(n: Net, s: Step, p: Packet, now: int)
    requires s.id < |n.sess| && p in n.wire && Delivery(s.id, p) in n.heard && HelloOk(n, p) && p.env.kind == HELLO
    requires Owns(n, s.id) && Bound(n, s.id, n.sess[s.id]) && p.env.role != RoleOf(n.sess[s.id])
    ensures var (after, reply) := TakeHello(n.sess[s.id], p.env, now, Some(s.drawn));
      && Follows(n.sess[s.id], after, s.drawn) && Bound(n, s.id, after)
  {
    hide Common, ValidParams, HelloWith;
    assert IsEcho(p, p.env.local, p.env.peer);
  }

  /** A challenge is only offered by the session that drew it. */
  lemma OfferIsOwned(n: Net, s: Step, p: Packet, now: int)
    requires s.id < |n.sess| && Owns(n, s.id) && s.drawn !in n.owner
    ensures var (after, reply) := TakeHello(n.sess[s.id], p.env, now, Some(s.drawn));
      var n1 := Changed(n, s, after);
      reply.Offer? ==>
        reply.env.kind == HELLO && HelloOk(n1, Packet(reply.env, [])) && DataOk(n1, Packet(reply.env, []))
  {
    hide Common;
    var (after, reply) := TakeHello(n.sess[s.id], p.env, now, Some(s.drawn));
    var n1 := Changed(n, s, after);
    if reply.Offer? {
      HelloWithOk(n1, s.id, s.drawn, p.env.local, 0);
      if n.sess[s.id].candidate.Some? {
        HelloWithOk(n1, s.id, n.sess[s.id].candidate.value.local, p.env.local, 0);
      }
    }
  }

  lemma ReceiveHelloKeeps(n: Net, s: Step)
    requires Inv(n) && Can(n, s) && s.act.Receive? && s.act.packet.env.kind == HELLO
    requires s.act.packet.env.role != RoleOf(n.sess[s.id]) && Delivery(s.id, s.act.packet) in n.heard
    ensures Inv(Treated(n, s))
  {
    hide Bound, HelloOk, DataOk, LogOk, Follows, TakeHello, Owns;
    var p, now := s.act.packet, s.act.now;
    assert Owns(n, s.id) && Bound(n, s.id, n.sess[s.id]) && HelloOk(n, p);
    HelloFollows(n, s, p, now);
    var (after, reply) := TakeHello(n.sess[s.id], p.env, now, Some(s.drawn));
    ChangedKeeps(n, s, after);
    OfferIsOwned(n, s, p, now);
    if reply.Offer? { SaidKeeps(Changed(n, s, after), Packet(reply.env, [])); }
  }

  lemma TakenIsLogged(n: Net, s: Step, p: Packet, after: Sess)
    requires Inv(n) && s.id < |n.sess| && s.drawn !in n.owner && p in n.wire && p.env.kind == IPV4
    requires TakeData(n.sess[s.id], p.env, p.payload) == (after, true)
    ensures LogOk(Changed(n, s, after), Delivery(s.id, p))
    ensures forall c :: c in n.log ==> !SameName(c.packet, p)
  {
    hide Refused;
    assert Owns(n, s.id);
    forall c | c in n.log ensures !SameName(c.packet, p) { assert LogOk(n, c); }
  }

  lemma TakeDataFollows(n: Net, s: Step, p: Packet)
    requires Inv(n) && s.id < |n.sess|
    ensures var after := TakeData(n.sess[s.id], p.env, p.payload).0;
      Follows(n.sess[s.id], after, s.drawn) && Bound(n, s.id, after)
  {
    hide Refused;
    assert Bound(n, s.id, n.sess[s.id]);
  }

  lemma ReceiveDataKeeps(n: Net, s: Step)
    requires Inv(n) && Can(n, s) && s.act.Receive? && s.act.packet.env.kind == IPV4
    requires s.act.packet.env.role != RoleOf(n.sess[s.id])
    ensures Inv(Treated(n, s))
  {
    hide Bound, HelloOk, DataOk, LogOk, Follows, TakeData, Owns, SameName;
    var p := s.act.packet;
    TakeDataFollows(n, s, p);
    var (after, up) := TakeData(n.sess[s.id], p.env, p.payload);
    ChangedKeeps(n, s, after);
    if up {
      TakenIsLogged(n, s, p, after);
      LoggedKeeps(Changed(n, s, after), Delivery(s.id, p));
    }
  }

  lemma HeardKeeps(n: Net, d: Delivery)
    requires Inv(n)
    ensures Inv(n.(heard := n.heard + {d}))
  {
    hide ValidParams, Refused, Common;
    var n' := n.(heard := n.heard + {d});
    forall p | p in n'.wire ensures HelloOk(n', p) && DataOk(n', p) { LogSame(n, n', p); }
    forall id: nat | id < |n'.sess| ensures Owns(n', id) && Bound(n', id, n'.sess[id]) {
      assert Owns(n, id) && Bound(n, id, n.sess[id]);
    }
    forall c | c in n'.log ensures LogOk(n', c) { assert LogOk(n, c); }
  }

  lemma ReceiveKeeps(n: Net, s: Step)
    requires Inv(n) && Can(n, s) && s.act.Receive?
    ensures Inv(Received(n, s))
  {
    hide Inv;
    HeardKeeps(n, Delivery(s.id, s.act.packet));
    TreatedKeeps(n.(heard := n.heard + {Delivery(s.id, s.act.packet)}), s);
  }

  lemma TreatedKeeps(n: Net, s: Step)
    requires Inv(n) && Can(n, s) && s.act.Receive? && Delivery(s.id, s.act.packet) in n.heard
    ensures Inv(Treated(n, s))
  {
    hide Inv, Follows, TakeHello, TakeData;
    var e := s.act.packet.env;
    if e.role != RoleOf(n.sess[s.id]) && e.kind == HELLO {
      ReceiveHelloKeeps(n, s);
    } else if e.role != RoleOf(n.sess[s.id]) && e.kind == IPV4 {
      ReceiveDataKeeps(n, s);
    } else {
      SameFollows(n, s);
      ChangedKeeps(n, s, n.sess[s.id]);
    }
  }

  lemma StepKeeps(n: Net, s: Step)
    requires Inv(n) && Can(n, s)
    ensures Inv(Do(n, s))
  {
    hide Inv;
    match s.act {
      case Join(_, _) => JoinKeeps(n, s);
      case SayHello => SayHelloKeeps(n, s);
      case Receive(_, _) => ReceiveKeeps(n, s);
      case SendData(_, _) => SendDataKeeps(n, s);
      case Restart => RestartKeeps(n, s);
      case Stop => StopKeeps(n, s);
    }
  }
}
