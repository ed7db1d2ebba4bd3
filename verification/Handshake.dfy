/** The hello exchange of two sessions over `k` carriers, with no restart and no hello timer.

    Hellos are delivered in any order or lost. An accepted hello makes a session owe its own hello
    on every carrier; each is built when it is said, from the state of that moment. */
module Handshake {
  import opened Seq32
  import opened Envelope
  import opened SessionState

  /** A session, the hellos it still owes, and the hellos on their way to it. */
  datatype End = End(s: Sess, owed: nat, inbox: seq<Envelope>)
  datatype Duo = Duo(a: End, b: End)

  datatype Act = Hear(i: nat, now: int, drawn: Challenge) | Say | Lose(i: nat)
  datatype Step = Step(atA: bool, act: Act)

  function Without<T>(q: seq<T>, i: nat): seq<T>
    requires i < |q|
  {
    q[..i] + q[i + 1..]
  }

  function Heard(k: nat, me: End, i: nat, now: int, drawn: Challenge): End
    requires i < |me.inbox|
  {
    var e, rest := me.inbox[i], Without(me.inbox, i);
    if e.role == RoleOf(me.s) then me.(inbox := rest)
    else
      var (s', reply) := TakeHello(me.s, e, now, Some(drawn));
      End(s', if reply.Answer? then me.owed + k else me.owed, rest)
  }

  predicate CanAct(me: End, act: Act) {
    match act
    case Hear(i, _, _) => i < |me.inbox|
    case Say => me.owed > 0
    case Lose(i) => i < |me.inbox|
  }

  function Acted(k: nat, me: End, you: End, act: Act): (End, End)
    requires CanAct(me, act)
  {
    match act
    case Hear(i, now, drawn) => (Heard(k, me, i, now, drawn), you)
    case Say => (me.(owed := me.owed - 1), you.(inbox := you.inbox + [BuildHello(me.s)]))
    case Lose(i) => (me.(inbox := Without(me.inbox, i)), you)
  }

  predicate Can(d: Duo, st: Step) { CanAct(if st.atA then d.a else d.b, st.act) }

  function Do(k: nat, d: Duo, st: Step): Duo
    requires Can(d, st)
  {
    if st.atA then var (a, b) := Acted(k, d.a, d.b, st.act); Duo(a, b)
    else var (b, a) := Acted(k, d.b, d.a, st.act); Duo(a, b)
  }

  predicate Runs(k: nat, d: Duo, steps: seq<Step>)
    decreases |steps|
  {
    steps == [] || (Can(d, steps[0]) && Runs(k, Do(k, d, steps[0]), steps[1..]))
  }

  function After(k: nat, d: Duo, steps: seq<Step>): Duo
    requires Runs(k, d, steps)
    decreases |steps|
  {
    if steps == [] then d else After(k, Do(k, d, steps[0]), steps[1..])
  }

  // ---- what two sessions can say to each other ----

  /** A hello of `from` that could be meant for `to`. */
  predicate IsHelloOf(e: Envelope, from: Sess, to: Sess) {
    && e.kind == HELLO && e.role == RoleOf(from) && e.local == from.local && (e.peer == ZERO || e.peer == to.local)
    && e.hello.Some? && e.hello.value.reserved == 0 && e.hello.value.ready <= 1
    && HelloParams(e.hello.value) == from.params
  }

  /** `me` knows nobody but `you`, and everything on its way to it was said by `you`. */
  predicate Meets(me: End, you: Sess) {
    && me.s.exit != you.exit && me.s.local != you.local && me.s.local != ZERO && you.local != ZERO
    && !me.s.stopped && ValidParams(me.s.params) && ValidParams(you.params)
    && (me.s.peer == ZERO || me.s.peer == you.local)
    && (me.s.ready ==> me.s.peer == you.local && me.s.remote == Common(me.s.params, you.params))
    && forall j :: 0 <= j < |me.inbox| ==> IsHelloOf(me.inbox[j], you, me.s)
  }

  predicate Met(d: Duo) { Meets(d.a, d.b.s) && Meets(d.b, d.a.s) }

  /** What a hello from the one known peer does. */
  function Welcomed(s: Sess, e: Envelope): Sess
    requires e.hello.Some?
  {
    if e.peer == s.local
    then s.(peer := e.local, ready := true, remote := Common(s.params, HelloParams(e.hello.value)))
    else s.(peer := e.local)
  }

  lemma HearIsWelcome(k: nat, me: End, you: Sess, i: nat, now: int, drawn: Challenge)
    requires Meets(me, you) && i < |me.inbox|
    ensures var e := me.inbox[i];
      && IsHelloOf(e, you, me.s)
      && Heard(k, me, i, now, drawn) ==
           End(Welcomed(me.s, e),
               me.owed + (if me.s.peer == ZERO || (!me.s.ready && e.peer == me.s.local)
                           || (me.s.ready && e.hello.value.ready == 0)
                          then k else 0),
               Without(me.inbox, i))
  {
    hide ValidParams, Common;
    assert IsHelloOf(me.inbox[i], you, me.s);
  }

  lemma WithoutFrom<T>(q: seq<T>, i: nat, j: nat)
    requires i < |q| && j < |q| - 1
    ensures Without(q, i)[j] == q[if j < i then j else j + 1]
  {
  }

  lemma ActKeeps(k: nat, me: End, you: End, act: Act)
    requires Meets(me, you.s) && Meets(you, me.s) && CanAct(me, act)
    ensures var (me', you') := Acted(k, me, you, act);
      Meets(me', you'.s) && Meets(you', me'.s)
  {
    hide ValidParams, Common;
    match act {
      case Hear(i, now, drawn) =>
        HearIsWelcome(k, me, you.s, i, now, drawn);
        forall j | 0 <= j < |me.inbox| - 1
          ensures IsHelloOf(Without(me.inbox, i)[j], you.s, me.s)
        {
          WithoutFrom(me.inbox, i, j);
        }
      case Say => HelloIsHello(me.s, you.s);
      case Lose(i) =>
        forall j | 0 <= j < |me.inbox| - 1
          ensures IsHelloOf(Without(me.inbox, i)[j], you.s, me.s)
        {
          WithoutFrom(me.inbox, i, j);
        }
    }
  }

  lemma HelloIsHello(s: Sess, to: Sess)
    requires ValidParams(s.params) && (s.peer == ZERO || s.peer == to.local)
    ensures IsHelloOf(BuildHello(s), s, to)
    ensures BuildHello(s).hello.value.ready == (if s.ready then 1 else 0)
    ensures BuildHello(s).peer == s.peer && BuildHello(s).local == s.local
  {
  }

  lemma StepKeepsMet(k: nat, d: Duo, st: Step)
    requires Met(d) && Can(d, st)
    ensures Met(Do(k, d, st))
  {
    if st.atA { ActKeeps(k, d.a, d.b, st.act); } else { ActKeeps(k, d.b, d.a, st.act); }
  }

  // ---- replies die out ----

  /** Hellos of a session that is not ready. */
  function Unready(q: seq<Envelope>): nat {
    if q == [] then 0
    else Unready(q[..|q| - 1]) + if IsUnready(q[|q| - 1]) then 1 else 0
  }

  predicate IsUnready(e: Envelope) { e.hello.Some? && e.hello.value.ready == 0 }

  lemma UnreadyAppend(q: seq<Envelope>, e: Envelope)
    ensures Unready(q + [e]) == Unready(q) + if IsUnready(e) then 1 else 0
  {
    assert (q + [e])[..|q|] == q;
  }

  lemma {:induction false} UnreadyWithout(q: seq<Envelope>, i: nat)
    requires i < |q|
    ensures Unready(Without(q, i)) == Unready(q) - if IsUnready(q[i]) then 1 else 0
  {
    var n := |q| - 1;
    if i == n {
      assert Without(q, i) == q[..n];
    } else {
      UnreadyWithout(q[..n], i);
      assert Without(q, i) == Without(q[..n], i) + [q[n]];
      UnreadyAppend(Without(q[..n], i), q[n]);
    }
  }

  /** Transitions a session still has ahead: to know its peer, and to be ready. */
  function Ahead(s: Sess): nat {
    (if s.peer == ZERO then 1 else 0) + (if s.ready then 0 else 1)
  }

  /** Each transition and each hello of an unready session may still cause `k` hellos. */
  function Weigh(k: nat, transitions: nat, unready: nat, hellos: nat): nat {
    transitions * ((2 * k + 1) * (k + 1)) + (2 * k + 1) * unready + hellos
  }

  function StillUnready(me: End): nat { Unready(me.inbox) + if me.s.ready then 0 else me.owed }

  function Weight(k: nat, me: End): nat {
    Weigh(k, Ahead(me.s), StillUnready(me), |me.inbox| + 2 * me.owed)
  }

  lemma WeighsLess(k: nat, t: nat, z: nat, n: nat, t': nat, z': nat, n': nat)
    requires t' <= t
    requires || (t' < t && z' <= z + k && n' < n + 2 * k)
             || (z' < z && n' < n + 2 * k)
             || (z' <= z && n' < n)
    ensures Weigh(k, t', z', n') < Weigh(k, t, z, n)
  {
    var c := 2 * k + 1;
    var d := c * (k + 1);
    assert d == c * k + c by { Spread(c, k, 1); }
    if t' < t && z' <= z + k && n' < n + 2 * k {
      Scale(d, t' + 1, t);
      Spread(d, t', 1);
      Scale(c, z', z + k);
      Spread(c, z, k);
    } else {
      Scale(d, t', t);
      Scale(c, z', z);
      if z' < z && n' < n + 2 * k {
        Scale(c, z' + 1, z);
        Spread(c, z', 1);
      }
    }
  }

  lemma Scale(c: nat, x: int, y: int)
    requires x <= y
    ensures x * c <= y * c && c * x <= c * y
  {
  }

  lemma Spread(c: int, x: int, y: int)
    ensures c * (x + y) == c * x + c * y && (x + y) * c == x * c + y * c
  {
  }

  lemma HearWeighsLess(k: nat, me: End, you: Sess, i: nat, now: int, drawn: Challenge)
    requires Meets(me, you) && i < |me.inbox|
    ensures Weight(k, Heard(k, me, i, now, drawn)) < Weight(k, me)
  {
    HearIsWelcome(k, me, you, i, now, drawn);
    var e, me' := me.inbox[i], Heard(k, me, i, now, drawn);
    UnreadyWithout(me.inbox, i);
    LoseShorter(me.inbox, i);
    hide Without, Unready, Heard, ValidParams, Common, Weigh;
    WeighsLess(k, Ahead(me.s), StillUnready(me), |me.inbox| + 2 * me.owed,
               Ahead(me'.s), StillUnready(me'), |me'.inbox| + 2 * me'.owed);
  }

  /** Saying a hello that is owed moves it from one end to the other. */
  lemma SayWeighsLess(k: nat, me: End, you: End, e: Envelope)
    requires me.owed > 0 && (IsUnready(e) <==> !me.s.ready)
    ensures Weight(k, me.(owed := me.owed - 1)) + Weight(k, you.(inbox := you.inbox + [e]))
      < Weight(k, me) + Weight(k, you)
  {
    hide Unready, IsUnready;
    UnreadyAppend(you.inbox, e);
    if !me.s.ready {
      Spread(2 * k + 1, StillUnready(me), -1);
      Spread(2 * k + 1, StillUnready(you), 1);
    }
  }

  lemma ActWeighsLess(k: nat, me: End, you: End, act: Act)
    requires Meets(me, you.s) && Meets(you, me.s) && CanAct(me, act)
    ensures var (me', you') := Acted(k, me, you, act);
      Weight(k, me') + Weight(k, you') < Weight(k, me) + Weight(k, you)
  {
    hide Heard, Without, Unready, Weigh, BuildHello, ValidParams, Common;
    match act {
      case Hear(i, now, drawn) => HearWeighsLess(k, me, you.s, i, now, drawn);
      case Say =>
        HelloIsHello(me.s, you.s);
        SayWeighsLess(k, me, you, BuildHello(me.s));
      case Lose(i) =>
        UnreadyWithout(me.inbox, i);
        LoseShorter(me.inbox, i);
        var me' := me.(inbox := Without(me.inbox, i));
        WeighsLess(k, Ahead(me.s), StillUnready(me), |me.inbox| + 2 * me.owed,
                   Ahead(me'.s), StillUnready(me'), |me'.inbox| + 2 * me'.owed);
    }
  }

  lemma LoseShorter<T>(q: seq<T>, i: nat)
    requires i < |q|
    ensures |Without(q, i)| == |q| - 1
  {
  }

  function Total(k: nat, d: Duo): nat { Weight(k, d.a) + Weight(k, d.b) }

  /** Replies always die out: no exchange, with or without loss, is longer than its weight. */
  lemma {:induction false} RepliesDieOut(k: nat, d: Duo, steps: seq<Step>)
    requires Met(d) && Runs(k, d, steps)
    ensures |steps| + Total(k, After(k, d, steps)) <= Total(k, d)
    decreases |steps|
  {
    if steps != [] {
      var st := steps[0];
      if st.atA { ActWeighsLess(k, d.a, d.b, st.act); } else { ActWeighsLess(k, d.b, d.a, st.act); }
      StepKeepsMet(k, d, st);
      hide Met, Weight;
      RepliesDieOut(k, Do(k, d, st), steps[1..]);
    }
  }

  // ---- with nothing lost, both ends get ready ----

  /** Two new sessions, and the client's first hello on its way, once or more. */
  ghost predicate Opening(d: Duo, c: Challenge, e: Challenge, mine: Params, theirs: Params) {
    && c != e && c != ZERO && e != ZERO && ValidParams(mine) && ValidParams(theirs)
    && d.a == End(NewSess(mine, false, c), 0, []) && d.b.s == NewSess(theirs, true, e) && d.b.owed == 0
    && |d.b.inbox| > 0 && forall j :: 0 <= j < |d.b.inbox| ==> d.b.inbox[j] == BuildHello(d.a.s)
  }

  predicate Lossless(steps: seq<Step>) {
    forall j :: 0 <= j < |steps| ==> !steps[j].act.Lose?
  }

  predicate Echoes(q: seq<Envelope>, c: Challenge) {
    forall j :: 0 <= j < |q| ==> q[j].peer == c
  }

  predicate HasEcho(q: seq<Envelope>, c: Challenge) {
    exists j :: 0 <= j < |q| && q[j].peer == c
  }

  /** While an end is not ready, what will make it ready is owed or on its way. */
  predicate OnItsWay(d: Duo) {
    && Echoes(d.a.inbox, d.a.s.local) && (d.b.owed > 0 ==> d.b.s.peer != ZERO)
    && (d.a.s.peer != ZERO || d.b.s.ready || HasEcho(d.b.inbox, d.b.s.local) ==> d.a.s.ready)
    && (d.b.s.peer == ZERO ==> d.b.inbox != [])
    && (d.b.s.peer != ZERO && !d.a.s.ready ==> d.b.owed > 0 || d.a.inbox != [])
    && (d.a.s.ready && !d.b.s.ready ==> d.a.owed > 0 || HasEcho(d.b.inbox, d.b.s.local))
  }

  lemma EchoWithout(q: seq<Envelope>, i: nat, c: Challenge)
    requires i < |q|
    ensures Echoes(q, c) ==> Echoes(Without(q, i), c)
    ensures HasEcho(Without(q, i), c) ==> HasEcho(q, c)
    ensures HasEcho(q, c) && q[i].peer != c ==> HasEcho(Without(q, i), c)
  {
    var r := Without(q, i);
    forall j | 0 <= j < |r| ensures r[j] == q[if j < i then j else j + 1] { WithoutFrom(q, i, j); }
    if HasEcho(q, c) && q[i].peer != c {
      var j :| 0 <= j < |q| && q[j].peer == c;
      assert r[if j < i then j else j - 1].peer == c;
    }
  }

  lemma EchoAppend(q: seq<Envelope>, e: Envelope, c: Challenge)
    ensures Echoes(q + [e], c) <==> Echoes(q, c) && e.peer == c
    ensures HasEcho(q + [e], c) <==> HasEcho(q, c) || e.peer == c
  {
    var r := q + [e];
    assert r[|q|] == e && forall j :: 0 <= j < |q| ==> r[j] == q[j];
  }

  lemma HearAKeeps(k: nat, d: Duo, i: nat, now: int, drawn: Challenge)
    requires k > 0 && Met(d) && OnItsWay(d) && i < |d.a.inbox|
    ensures OnItsWay(Duo(Heard(k, d.a, i, now, drawn), d.b))
  {
    HearIsWelcome(k, d.a, d.b.s, i, now, drawn);
    EchoWithout(d.a.inbox, i, d.a.s.local);
    assert d.a.inbox[i].peer == d.a.s.local;
    hide Without, Echoes, HasEcho, ValidParams, Common, Heard;
  }

  lemma HearBKeeps(k: nat, d: Duo, i: nat, now: int, drawn: Challenge)
    requires k > 0 && Met(d) && OnItsWay(d) && i < |d.b.inbox|
    ensures OnItsWay(Duo(d.a, Heard(k, d.b, i, now, drawn)))
  {
    HearIsWelcome(k, d.b, d.a.s, i, now, drawn);
    EchoWithout(d.b.inbox, i, d.b.s.local);
    if d.b.inbox[i].peer == d.b.s.local { assert HasEcho(d.b.inbox, d.b.s.local); }
    hide Without, Echoes, HasEcho, ValidParams, Common, Heard;
  }

  lemma SayAKeeps(d: Duo)
    requires Met(d) && OnItsWay(d) && d.a.owed > 0
    ensures OnItsWay(Duo(d.a.(owed := d.a.owed - 1), d.b.(inbox := d.b.inbox + [BuildHello(d.a.s)])))
  {
    HelloIsHello(d.a.s, d.b.s);
    hide Echoes, HasEcho, BuildHello, ValidParams, Common;
    EchoAppend(d.b.inbox, BuildHello(d.a.s), d.b.s.local);
  }

  lemma SayBKeeps(d: Duo)
    requires Met(d) && OnItsWay(d) && d.b.owed > 0
    ensures OnItsWay(Duo(d.a.(inbox := d.a.inbox + [BuildHello(d.b.s)]), d.b.(owed := d.b.owed - 1)))
  {
    HelloIsHello(d.b.s, d.a.s);
    hide Echoes, HasEcho, BuildHello, ValidParams, Common;
    EchoAppend(d.a.inbox, BuildHello(d.b.s), d.a.s.local);
  }

  lemma StepKeepsOnItsWay(k: nat, d: Duo, st: Step)
    requires k > 0 && Met(d) && OnItsWay(d) && Can(d, st) && !st.act.Lose?
    ensures OnItsWay(Do(k, d, st))
  {
    hide Met, OnItsWay, Heard, BuildHello;
    if st.act.Say? {
      if st.atA { SayAKeeps(d); } else { SayBKeeps(d); }
    } else {
      if st.atA { HearAKeeps(k, d, st.act.i, st.act.now, st.act.drawn); }
      else { HearBKeeps(k, d, st.act.i, st.act.now, st.act.drawn); }
    }
  }

  lemma {:induction false} RunKeepsOnItsWay(k: nat, d: Duo, steps: seq<Step>)
    requires k > 0 && Met(d) && OnItsWay(d) && Runs(k, d, steps) && Lossless(steps)
    ensures Met(After(k, d, steps)) && OnItsWay(After(k, d, steps))
    decreases |steps|
  {
    if steps != [] {
      StepKeepsMet(k, d, steps[0]);
      StepKeepsOnItsWay(k, d, steps[0]);
      hide Met, OnItsWay;
      RunKeepsOnItsWay(k, Do(k, d, steps[0]), steps[1..]);
    }
  }

  lemma OpeningIsOnItsWay(d: Duo, c: Challenge, e: Challenge, mine: Params, theirs: Params)
    requires Opening(d, c, e, mine, theirs)
    ensures Met(d) && OnItsWay(d)
  {
    HelloIsHello(d.a.s, d.b.s);
    hide BuildHello, ValidParams;
  }

  /** Nothing is left to hear or to say. */
  ghost predicate Over(d: Duo) { forall st :: !Can(d, st) }

  lemma OverIsQuiet(d: Duo)
    requires Over(d)
    ensures d.a.owed == d.b.owed == 0 && d.a.inbox == d.b.inbox == []
  {
    assert !Can(d, Step(true, Say)) && !Can(d, Step(false, Say));
    assert !Can(d, Step(true, Lose(0))) && !Can(d, Step(false, Lose(0)));
  }

  /** Started by a client's hello with nothing lost, however the hellos overtake each other, the
      exchange ends with both sessions ready, naming each other and agreeing. */
  lemma BothGetReady(k: nat, d: Duo, steps: seq<Step>, c: Challenge, e: Challenge, mine: Params, theirs: Params)
    requires k > 0 && Opening(d, c, e, mine, theirs) && Runs(k, d, steps) && Lossless(steps) && Over(After(k, d, steps))
    ensures var f := After(k, d, steps);
      && f.a.s.ready && f.b.s.ready && f.a.s.peer == f.b.s.local && f.b.s.peer == f.a.s.local
      && f.a.s.remote == f.b.s.remote == Common(f.a.s.params, f.b.s.params)
  {
    OpeningIsOnItsWay(d, c, e, mine, theirs);
    RunKeepsOnItsWay(k, d, steps);
    var f := After(k, d, steps);
    OverIsQuiet(f);
    CommonIsMutual(f.a.s.params, f.b.s.params);
  }

  // ---- with losses: exactly when both get ready ----

  /** The exit hears a hello that echoes its challenge. */
  predicate HearsEcho(d: Duo, st: Step)
    requires Can(d, st)
  {
    !st.atA && st.act.Hear? && d.b.inbox[st.act.i].peer == d.b.s.local
  }

  /** Somewhere in the run it does: one of the client's replies gets through. */
  predicate EchoGetsThrough(k: nat, d: Duo, steps: seq<Step>)
    requires Runs(k, d, steps)
    decreases |steps|
  {
    steps != [] && (HearsEcho(d, steps[0]) || EchoGetsThrough(k, Do(k, d, steps[0]), steps[1..]))
  }

  /** What no loss can undo: the exit only ever echoes the client, and whoever echoes the exit's
      challenge, or was heard by an exit that is ready, is a client that is ready. */
  predicate Proper(d: Duo) {
    && Echoes(d.a.inbox, d.a.s.local) && (d.b.owed > 0 ==> d.b.s.peer != ZERO)
    && (d.a.s.peer != ZERO || d.b.s.ready || HasEcho(d.b.inbox, d.b.s.local) ==> d.a.s.ready)
  }

  lemma HearKeepsProper(k: nat, d: Duo, st: Step)
    requires Met(d) && Proper(d) && Can(d, st) && st.act.Hear?
    ensures Proper(Do(k, d, st))
    ensures Do(k, d, st).b.s.ready <==> d.b.s.ready || HearsEcho(d, st)
  {
    var i, now, drawn := st.act.i, st.act.now, st.act.drawn;
    if st.atA {
      HearIsWelcome(k, d.a, d.b.s, i, now, drawn);
      EchoWithout(d.a.inbox, i, d.a.s.local);
      assert d.a.inbox[i].peer == d.a.s.local;
    } else {
      HearIsWelcome(k, d.b, d.a.s, i, now, drawn);
      EchoWithout(d.b.inbox, i, d.b.s.local);
      if d.b.inbox[i].peer == d.b.s.local { assert HasEcho(d.b.inbox, d.b.s.local); }
    }
    hide Without, Echoes, HasEcho, ValidParams, Common, Heard;
  }

  lemma SayKeepsProper(k: nat, d: Duo, st: Step)
    requires Met(d) && Proper(d) && Can(d, st) && st.act.Say?
    ensures Proper(Do(k, d, st)) && Do(k, d, st).b.s.ready == d.b.s.ready
  {
    hide Echoes, HasEcho, BuildHello, ValidParams, Common;
    if st.atA {
      HelloIsHello(d.a.s, d.b.s);
      EchoAppend(d.b.inbox, BuildHello(d.a.s), d.b.s.local);
    } else {
      HelloIsHello(d.b.s, d.a.s);
      EchoAppend(d.a.inbox, BuildHello(d.b.s), d.a.s.local);
    }
  }

  lemma StepKeepsProper(k: nat, d: Duo, st: Step)
    requires Met(d) && Proper(d) && Can(d, st)
    ensures Proper(Do(k, d, st))
    ensures Do(k, d, st).b.s.ready <==> d.b.s.ready || HearsEcho(d, st)
  {
    match st.act {
      case Hear(_, _, _) => HearKeepsProper(k, d, st);
      case Say => SayKeepsProper(k, d, st);
      case Lose(i) =>
        if st.atA { EchoWithout(d.a.inbox, i, d.a.s.local); } else { EchoWithout(d.b.inbox, i, d.b.s.local); }
    }
  }

  lemma {:induction false} ReadyByEcho(k: nat, d: Duo, steps: seq<Step>)
    requires Met(d) && Proper(d) && Runs(k, d, steps)
    ensures Met(After(k, d, steps)) && Proper(After(k, d, steps))
    ensures After(k, d, steps).b.s.ready <==> d.b.s.ready || EchoGetsThrough(k, d, steps)
    decreases |steps|
  {
    if steps != [] {
      StepKeepsMet(k, d, steps[0]);
      StepKeepsProper(k, d, steps[0]);
      hide Met, Proper, HearsEcho;
      ReadyByEcho(k, Do(k, d, steps[0]), steps[1..]);
    }
  }

  /** Over every run, lossy or not, over or not, the exit is ready exactly if one of the client's
      replies got through; both ends are ready exactly then, and name each other and agree. */
  lemma ReadyExactly(k: nat, d: Duo, steps: seq<Step>, c: Challenge, e: Challenge, mine: Params, theirs: Params)
    requires Opening(d, c, e, mine, theirs) && Runs(k, d, steps)
    ensures var f := After(k, d, steps);
      && (f.b.s.ready <==> EchoGetsThrough(k, d, steps))
      && (f.a.s.ready && f.b.s.ready <==> EchoGetsThrough(k, d, steps))
      && (EchoGetsThrough(k, d, steps) ==>
            && f.a.s.peer == f.b.s.local && f.b.s.peer == f.a.s.local
            && f.a.s.remote == f.b.s.remote == Common(f.a.s.params, f.b.s.params))
  {
    OpeningIsOnItsWay(d, c, e, mine, theirs);
    ReadyByEcho(k, d, steps);
    var f := After(k, d, steps);
    CommonIsMutual(f.a.s.params, f.b.s.params);
  }

  // ---- a reply that is lost ----

  function LostReply(now: int, drawn: Challenge): seq<Step> {
    [Step(false, Hear(0, now, drawn)), Step(false, Say), Step(true, Hear(0, now, drawn)), Step(true, Say),
    Step(false, Lose(0))]
  }

  lemma RunFirst(k: nat, d: Duo, st: Step, rest: seq<Step>)
    requires Can(d, st) && Runs(k, Do(k, d, st), rest)
    ensures Runs(k, d, [st] + rest) && After(k, d, [st] + rest) == After(k, Do(k, d, st), rest)
  {
    assert ([st] + rest)[1..] == rest;
  }

  /** The exit's first two turns: it hears the client and says its challenge. */
  lemma ExitAnswers(d: Duo, c: Challenge, e: Challenge, mine: Params, theirs: Params, now: int, drawn: Challenge)
    requires Opening(d, c, e, mine, theirs) && |d.b.inbox| == 1
    ensures Can(d, Step(false, Hear(0, now, drawn)))
      && Can(Do(1, d, Step(false, Hear(0, now, drawn))), Step(false, Say))
    ensures var f := Do(1, Do(1, d, Step(false, Hear(0, now, drawn))), Step(false, Say));
      && f.a == d.a.(inbox := [BuildHello(f.b.s)])
      && f.b == End(d.b.s.(peer := c), 0, []) && Met(f)
  {
    OpeningIsOnItsWay(d, c, e, mine, theirs);
    HearIsWelcome(1, d.b, d.a.s, 0, now, drawn);
    var d1 := Do(1, d, Step(false, Hear(0, now, drawn)));
    StepKeepsMet(1, d, Step(false, Hear(0, now, drawn)));
    StepKeepsMet(1, d1, Step(false, Say));
    assert Without(d.b.inbox, 0) == [];
    hide ValidParams, Common, Met;
  }

  lemma ClientHears(f: Duo, now: int, drawn: Challenge)
    requires Met(f) && f.a.owed == 0 && f.a.inbox == [BuildHello(f.b.s)]
    requires !f.a.s.ready && !f.b.s.ready && f.b.s.peer == f.a.s.local
    ensures Can(f, Step(true, Hear(0, now, drawn)))
    ensures var f1 := Do(1, f, Step(true, Hear(0, now, drawn)));
      f1.b == f.b && f1.a.s.ready && f1.a.s.peer == f.b.s.local && f1.a.owed == 1 && f1.a.inbox == []
  {
    HelloIsHello(f.b.s, f.a.s);
    HearIsWelcome(1, f.a, f.b.s, 0, now, drawn);
    assert Without(f.a.inbox, 0) == [];
    hide ValidParams, Common, BuildHello, Met, TakeHello, Heard;
  }

  /** What the client says is lost. */
  lemma ReplyIsLost(f: Duo)
    requires f.a.owed == 1 && f.b.owed == 0 && f.a.inbox == [] && f.b.inbox == []
    ensures Runs(1, f, [Step(true, Say), Step(false, Lose(0))])
    ensures var g := After(1, f, [Step(true, Say), Step(false, Lose(0))]); Over(g) && g.a.s == f.a.s && g.b == f.b
  {
    hide BuildHello, TakeHello, Heard;
    var f1 := Do(1, f, Step(true, Say));
    assert Without(f1.b.inbox, 0) == [];
    RunFirst(1, f1, Step(false, Lose(0)), []);
    RunFirst(1, f, Step(true, Say), [Step(false, Lose(0))]);
    assert [Step(true, Say)] + [Step(false, Lose(0))] == [Step(true, Say), Step(false, Lose(0))];
  }

  /** The client's turns: it hears the challenge, is ready, says so, and what it says is lost. */
  lemma ClientIsReadyAlone(f: Duo, now: int, drawn: Challenge)
    requires Met(f) && f.a.owed == 0 && f.b.owed == 0 && f.a.inbox == [BuildHello(f.b.s)] && f.b.inbox == []
    requires !f.a.s.ready && !f.b.s.ready && f.b.s.peer == f.a.s.local
    ensures var steps := [Step(true, Hear(0, now, drawn)), Step(true, Say), Step(false, Lose(0))];
      Runs(1, f, steps) && (var g := After(1, f, steps);
        Over(g) && g.a.s.ready && g.a.s.peer == g.b.s.local && g.b == f.b)
  {
    hide *;
    var h := Step(true, Hear(0, now, drawn));
    ClientHears(f, now, drawn);
    ReplyIsLost(Do(1, f, h));
    RunFirst(1, f, h, [Step(true, Say), Step(false, Lose(0))]);
    assert [h] + [Step(true, Say), Step(false, Lose(0))] == [h, Step(true, Say), Step(false, Lose(0))];
  }

  /** One way for no reply to get through: over one carrier the client's only reply is lost, and the
      exchange is over with the client ready and the exit not, since only a client that is not ready
      says hello by itself. */
  lemma LostReplyStalls(d: Duo, c: Challenge, e: Challenge, mine: Params, theirs: Params, now: int, drawn: Challenge)
    requires Opening(d, c, e, mine, theirs) && |d.b.inbox| == 1
    ensures Runs(1, d, LostReply(now, drawn))
    ensures var f := After(1, d, LostReply(now, drawn));
      Over(f) && f.a.s.ready && f.a.s.peer == f.b.s.local && !f.b.s.ready
  {
    ExitAnswers(d, c, e, mine, theirs, now, drawn);
    hide ValidParams, Common, BuildHello, Met, TakeHello, Heard, Over;
    var s1, s2 := Step(false, Hear(0, now, drawn)), Step(false, Say);
    var f := Do(1, Do(1, d, s1), s2);
    ClientIsReadyAlone(f, now, drawn);
    var rest := [Step(true, Hear(0, now, drawn)), Step(true, Say), Step(false, Lose(0))];
    RunFirst(1, Do(1, d, s1), s2, rest);
    RunFirst(1, d, s1, [s2] + rest);
    assert [s1] + ([s2] + rest) == LostReply(now, drawn);
  }
}
