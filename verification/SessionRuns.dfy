/** What holds in every run of the sessions of `SessionNet`: freshness, agreement and at-most-once data. */
module SessionRuns {
  import opened Seq32
  import opened Envelope
  import opened ReplayWindow
  import opened SessionState
  import opened SessionNet

  /** `states` are what the steps lead through from the start. */
  ghost predicate IsRun(states: seq<Net>, steps: seq<Step>) {
    && |states| == |steps| + 1 && states[0] == START
    && forall k {:trigger steps[k]} :: 0 <= k < |steps| ==>
      Can(states[k], steps[k]) && states[k + 1] == Do(states[k], steps[k])
  }

  /** The states that some run leads to. */
  ghost predicate Reachable(n: Net) {
    exists states, steps :: IsRun(states, steps) && states[|steps|] == n
  }

  lemma {:induction false} RunKeeps(states: seq<Net>, steps: seq<Step>, k: nat)
    requires IsRun(states, steps) && k <= |steps|
    ensures Inv(states[k])
  {
    hide Inv, Can, Do;
    if k == 0 {
      StartHolds();
    } else {
      RunKeeps(states, steps, k - 1);
      StepKeeps(states[k - 1], steps[k - 1]);
    }
  }

  lemma StartHolds()
    ensures Inv(START)
  {
  }

  lemma ReachableKeeps(n: Net)
    requires Reachable(n)
    ensures Inv(n)
  {
    var states, steps :| IsRun(states, steps) && states[|steps|] == n;
    RunKeeps(states, steps, |steps|);
  }

  // ---- what holds in every run ----

  /** Handshake freshness: a session that is ready has received a hello from its present peer, of the
      other role, that echoes its present challenge. */
  lemma ReadyIsFresh(n: Net, id: nat)
    requires Reachable(n) && id < |n.sess| && n.sess[id].ready
    ensures var s := n.sess[id];
      && Known(n, s.peer) && SessOf(n, s.peer).exit != s.exit
      && exists p :: p in n.wire && Delivery(id, p) in n.heard
                     && p.env.kind == HELLO && p.env.local == s.peer && p.env.peer == s.local
  {
    hide Reachable;
    ReachableKeeps(n);
    assert Bound(n, id, n.sess[id]);
    var p :| p in n.wire && IsEcho(p, n.sess[id].peer, n.sess[id].local) && Delivery(id, p) in n.heard;
  }

  /** Agreement: two ready sessions that name each other hold the same parameters, what both can
      do, so what one lets out the other lets in. */
  lemma PeersAgree(n: Net, a: nat, b: nat, p: Bytes)
    requires Reachable(n) && a < |n.sess| && b < |n.sess|
    requires n.sess[a].ready && n.sess[b].ready && n.sess[a].peer == n.sess[b].local
      && n.sess[b].peer == n.sess[a].local
    ensures n.sess[a].exit != n.sess[b].exit
    ensures n.sess[a].remote == n.sess[b].remote == Common(n.sess[a].params, n.sess[b].params)
    ensures Refused(p, n.sess[a].remote).None? <==> Refused(p, n.sess[b].remote).None?
  {
    hide Reachable, Refused;
    ReachableKeeps(n);
    assert Owns(n, a) && Owns(n, b) && Bound(n, a, n.sess[a]) && Bound(n, b, n.sess[b]);
    CommonIsMutual(n.sess[a].params, n.sess[b].params);
  }

  /** A data packet that reaches the ready session it was sent to is handed up exactly if the
      window lets it through: it is never barred by what the ends agreed on. */
  lemma NeverBarred(n: Net, id: nat, p: Packet)
    requires Reachable(n) && id < |n.sess| && p in n.wire && p.env.kind == IPV4
    requires var s := n.sess[id]; s.ready && !s.stopped && p.env.local == s.peer && p.env.peer == s.local
    ensures p.env.data.Some?
    ensures TakeData(n.sess[id], p.env, p.payload).1 <==> Fresh(n.sess[id].accepted, p.env.data.value)
  {
    hide Reachable, Refused;
    ReachableKeeps(n);
    assert Owns(n, id) && Bound(n, id, n.sess[id]) && DataOk(n, p);
    CommonIsMutual(n.sess[id].params, SessOf(n, p.env.local).params);
  }

  /** A packet that the agreed terms let pass goes out, and the ready peer it goes to takes it, when it comes
      in as the newest. */
  lemma NewPacketIsTaken(n: Net, a: nat, b: nat, p: Bytes)
    requires Reachable(n) && a < |n.sess| && b < |n.sess|
    requires var s, t := n.sess[a], n.sess[b];
      && s.ready && t.ready && !s.stopped && !t.stopped && s.peer == t.local && t.peer == s.local
      && Refused(p, Common(s.params, t.params)).None? && s.sequence < TWO64 - 1
      && forall x :: x in t.accepted ==> x <= s.sequence
    ensures var r := SendPacket(n.sess[a], p, true);
      && r.1.Out? && r.0.sequence == n.sess[a].sequence + 1
      && r.1.env.kind == IPV4 && r.1.env.data == Some(n.sess[a].sequence + 1)
      && r.1.env.local == n.sess[a].local && r.1.env.peer == n.sess[b].local
      && TakeData(n.sess[b], r.1.env, p) ==
           (n.sess[b].(accepted := n.sess[b].accepted + {n.sess[a].sequence + 1}), true)
  {
    PeersAgree(n, a, b, p);
    hide Reachable, Refused, Common;
  }

  /** Each (sender challenge, recipient challenge, number) names one packet, whatever restarts and
      replacements happened. */
  lemma NamesOnePacket(n: Net, p: Packet, q: Packet)
    requires Reachable(n) && p in n.wire && q in n.wire && p.env.kind == q.env.kind == IPV4
    requires p.env.local == q.env.local && p.env.peer == q.env.peer && p.env.data == q.env.data
    ensures p == q
  {
    hide Reachable;
    ReachableKeeps(n);
    assert SameName(p, q);
  }

  /** Every packet sent gets a name that nothing on the wire has. */
  lemma EverySendIsNew(n: Net, id: nat, data: Bytes, live: bool, q: Packet)
    requires Reachable(n) && id < |n.sess| && q in n.wire && q.env.kind == IPV4
    requires SendPacket(n.sess[id], data, live).1.Out?
    ensures !SameName(Packet(SendPacket(n.sess[id], data, live).1.env, data), q)
  {
    hide Reachable, Refused;
    ReachableKeeps(n);
    assert Owns(n, id) && DataOk(n, q);
  }

  /** At-most-once data: over a whole run no data packet is handed up twice, by one session or by
      several, and what is handed up is a packet that was sent, to the session that drew the
      challenge it echoes. */
  lemma AtMostOnce(n: Net, i: nat, j: nat)
    requires Reachable(n) && i < j < |n.log|
    ensures n.log[i].packet in n.wire && Known(n, n.log[i].packet.env.peer)
    ensures n.owner[n.log[i].packet.env.peer] == n.log[i].to
    ensures n.log[i].packet != n.log[j].packet && !SameName(n.log[i].packet, n.log[j].packet)
  {
    hide Reachable;
    ReachableKeeps(n);
    assert LogOk(n, n.log[i]);
    assert !SameName(n.log[i].packet, n.log[j].packet);
  }
}
