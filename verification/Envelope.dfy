/** The 78-byte envelope that every packet of a session starts with. */
module Envelope {
  import opened Seq32
  import opened BigEndian
  import opened AckWire

  const HELLO: byte := 1
  const IPV4: byte := 2
  const CONTROL: byte := 3
  const CLIENT: byte := 0
  const EXIT: byte := 1
  const SIZE: int := 78
  const MAGIC: Bytes := [79, 70, 78, 1]

  type Challenge = b: Bytes | |b| == 32 witness seq(32, _ => 0)
  const ZERO: Challenge := [0, 0, 0, 0, 0, 0, 0, 0,
                        0, 0, 0, 0, 0, 0, 0, 0,
                        0, 0, 0, 0, 0, 0, 0, 0,
                        0, 0, 0, 0, 0, 0, 0, 0]

  datatype Hello = Hello(caps: u32, max: u16, ready: byte, reserved: byte)
  datatype Ctl = Ctl(subtype: byte, flags: byte, payloadLen: u16)

  /** `local` is the sender's challenge, `peer` the echo of the recipient's. */
  datatype Envelope = Envelope(kind: byte, role: byte, local: Challenge, peer: Challenge,
                               hello: Option<Hello>, data: Option<u64>, control: Option<Ctl>)

  predicate Encodable(e: Envelope) {
    && (e.role == CLIENT || e.role == EXIT)
    && (e.kind == HELLO || e.kind == IPV4 || e.kind == CONTROL)
    && (e.kind == HELLO ==> e.hello.Some?)
    && (e.kind == IPV4 ==> e.data.Some?)
    && (e.kind == CONTROL ==> e.control.Some?)
  }

  /** Only the tail of its own kind is set. */
  predicate Sole(e: Envelope) {
    && (e.kind != HELLO ==> e.hello.None?)
    && (e.kind != IPV4 ==> e.data.None?)
    && (e.kind != CONTROL ==> e.control.None?)
  }

  function Tail(e: Envelope): (t: Bytes)
    requires Encodable(e)
    ensures |t| == 8
  {
    if e.kind == HELLO then
      Put(e.hello.value.caps, 4) + Put(e.hello.value.max, 2) + [e.hello.value.ready, e.hello.value.reserved]
    else if e.kind == IPV4 then Put(e.data.value, 8)
    else [e.control.value.subtype, e.control.value.flags] + Put(e.control.value.payloadLen, 2) + [0, 0, 0, 0]
  }

  function Layout(e: Envelope): (b: Bytes)
    requires Encodable(e)
    ensures |b| == SIZE
  {
    MAGIC + [e.kind, e.role] + e.local + e.peer + Tail(e)
  }

  /** `p` is the envelope `e` followed by its payload. */
  ghost predicate Reads(p: Bytes, e: Envelope) {
    && Encodable(e) && Sole(e) && Layout(e) <= p
    && (e.kind == CONTROL ==> e.control.value.payloadLen == |p| - SIZE)
  }

  lemma Fields(e: Envelope, p: Bytes)
    requires Encodable(e) && Layout(e) <= p
    ensures p[..4] == MAGIC && p[4] == e.kind && p[5] == e.role
    ensures p[6..38] == e.local && p[38..70] == e.peer && p[70..78] == Tail(e)
  {
    var b := Layout(e);
    assert b[..4] == MAGIC && b[6..38] == e.local && b[38..70] == e.peer && b[70..78] == Tail(e);
    assert p[..4] == b[..4] && p[6..38] == b[6..38] && p[38..70] == b[38..70] && p[70..78] == b[70..78];
    assert p[4] == b[4] && p[5] == b[5];
  }

  lemma TailFields(e: Envelope)
    requires Encodable(e)
    ensures var t := Tail(e);
      && (e.kind == HELLO ==>
            t[..4] == Put(e.hello.value.caps, 4) && t[4..6] == Put(e.hello.value.max, 2)
            && t[6] == e.hello.value.ready && t[7] == e.hello.value.reserved)
      && (e.kind == CONTROL ==>
            t[0] == e.control.value.subtype && t[1] == e.control.value.flags
            && t[2..4] == Put(e.control.value.payloadLen, 2) && t[4..8] == [0, 0, 0, 0])
  {
    hide Put;
  }

  /** Two envelopes with the same bytes are the same. */
  lemma ReadsUnique(p: Bytes, e: Envelope, f: Envelope)
    requires Reads(p, e) && Reads(p, f)
    ensures e == f
  {
    hide Layout, Tail;
    Fields(e, p);
    Fields(f, p);
    TailInjective(e, f);
  }

  lemma TailInjective(e: Envelope, f: Envelope)
    requires Encodable(e) && Encodable(f) && Sole(e) && Sole(f) && e.kind == f.kind && Tail(e) == Tail(f)
    ensures e.hello == f.hello && e.data == f.data && e.control == f.control
  {
    Widths();
    TailFields(e);
    TailFields(f);
    if e.kind == HELLO {
      GetPut(e.hello.value.caps, 4);
      GetPut(f.hello.value.caps, 4);
      GetPut(e.hello.value.max, 2);
      GetPut(f.hello.value.max, 2);
    } else if e.kind == IPV4 {
      GetPut(e.data.value, 8);
      GetPut(f.data.value, 8);
    } else {
      GetPut(e.control.value.payloadLen, 2);
      GetPut(f.control.value.payloadLen, 2);
    }
  }

  method Encode(e: Envelope) returns (r: Option<Bytes>)
    ensures r == if Encodable(e) then Some(Layout(e)) else None
  {
    if e.kind != HELLO && e.kind != IPV4 && e.kind != CONTROL {
      return None;
    }
    if e.role != CLIENT && e.role != EXIT {
      return None;
    }
    var out := new byte[SIZE](_ => 0);
    forall i | 0 <= i < 4 { out[i] := MAGIC[i]; }
    out[4] := e.kind;
    out[5] := e.role;
    forall i | 0 <= i < 32 { out[6 + i] := e.local[i]; }
    forall i | 0 <= i < 32 { out[38 + i] := e.peer[i]; }
    var tail;
    if e.kind == HELLO {
      if e.hello.None? {
        return None;
      }
      tail := Put(e.hello.value.caps, 4) + Put(e.hello.value.max, 2) + [e.hello.value.ready, e.hello.value.reserved];
    } else if e.kind == IPV4 {
      if e.data.None? {
        return None;
      }
      tail := Put(e.data.value, 8);
    } else {
      if e.control.None? {
        return None;
      }
      tail := [e.control.value.subtype, e.control.value.flags] + Put(e.control.value.payloadLen, 2) + [0, 0, 0, 0];
    }
    hide Put;
    forall i | 0 <= i < 8 { out[70 + i] := tail[i]; }
    assert out[..] == Layout(e);
    return Some(out[..]);
  }

  /** Reads exactly the packets that start with an envelope (and, for a control message, whose
      length is the announced one), and reads the one envelope they start with. */
  method Decode(p: Bytes) returns (r: Option<Envelope>)
    ensures r.Some? ==> Reads(p, r.value)
    ensures r.None? ==> forall e :: !Reads(p, e)
  {
    hide Layout, Tail;
    Widths();
    forall e | Reads(p, e)
      ensures |p| >= SIZE && p[..4] == MAGIC && p[4] == e.kind && p[5] == e.role && p[70..78] == Tail(e)
    {
      Fields(e, p);
    }
    if |p| < SIZE || p[..4] != MAGIC {
      return None;
    }
    var kind, role := p[4], p[5];
    if role != CLIENT && role != EXIT {
      return None;
    }
    var env := Envelope(kind, role, p[6..38], p[38..70], None, None, None);
    if kind == HELLO {
      env := env.(hello := Some(Hello(Get32(p[70..74]), Get16(p[74..76]), p[76], p[77])));
      ReadsHello(p, env);
    } else if kind == IPV4 {
      env := env.(data := Some(Get(p[70..78])));
      ReadsData(p, env);
    } else if kind == CONTROL {
      env := env.(control := Some(Ctl(p[70], p[71], Get16(p[72..74]))));
      if p[74] != 0 || p[75] != 0 || p[76] != 0 || p[77] != 0 {
        NotControl(p);
        return None;
      }
      if env.control.value.payloadLen != |p| - SIZE {
        NotControl(p);
        return None;
      }
      ReadsControl(p, env);
    } else {
      return None;
    }
    return Some(env);
  }

  lemma Joined(p: Bytes, e: Envelope)
    requires Encodable(e) && |p| >= SIZE && p[..4] == MAGIC && p[4] == e.kind && p[5] == e.role
    requires p[6..38] == e.local && p[38..70] == e.peer && p[70..78] == Tail(e)
    ensures Layout(e) <= p
  {
    hide Tail;
    assert p[..78] == p[..4] + [p[4], p[5]] + p[6..38] + p[38..70] + p[70..78];
  }

  lemma ReadsHello(p: Bytes, e: Envelope)
    requires |p| >= SIZE && p[..4] == MAGIC && p[4] == e.kind == HELLO && p[5] == e.role
      && (e.role == CLIENT || e.role == EXIT)
    requires p[6..38] == e.local && p[38..70] == e.peer && Sole(e)
    requires e.hello == Some(Hello(Get32(p[70..74]), Get16(p[74..76]), p[76], p[77]))
    ensures Reads(p, e)
  {
    hide Put, Get;
    PutGet(p[70..74]);
    PutGet(p[74..76]);
    assert p[70..78] == p[70..74] + p[74..76] + [p[76], p[77]];
    Joined(p, e);
  }

  lemma ReadsData(p: Bytes, e: Envelope)
    requires |p| >= SIZE && p[..4] == MAGIC && p[4] == e.kind == IPV4 && p[5] == e.role
      && (e.role == CLIENT || e.role == EXIT)
    requires p[6..38] == e.local && p[38..70] == e.peer && Sole(e)
    requires e.data.Some? && e.data.value == Get(p[70..78])
    ensures Reads(p, e)
  {
    hide Put, Get;
    PutGet(p[70..78]);
    Joined(p, e);
  }

  lemma ReadsControl(p: Bytes, e: Envelope)
    requires |p| >= SIZE && p[..4] == MAGIC && p[4] == e.kind == CONTROL && p[5] == e.role
      && (e.role == CLIENT || e.role == EXIT)
    requires p[6..38] == e.local && p[38..70] == e.peer && Sole(e)
    requires e.control == Some(Ctl(p[70], p[71], Get16(p[72..74]))) && e.control.value.payloadLen == |p| - SIZE
    requires p[74] == 0 && p[75] == 0 && p[76] == 0 && p[77] == 0
    ensures Reads(p, e)
  {
    hide Put, Get;
    PutGet(p[72..74]);
    assert p[70..78] == [p[70], p[71]] + p[72..74] + [0, 0, 0, 0];
    Joined(p, e);
  }

  /** A control packet that an envelope starts has zero reserved bytes and the announced length. */
  lemma NotControl(p: Bytes)
    requires |p| >= SIZE && p[4] == CONTROL
    ensures forall e :: Reads(p, e) ==>
      p[74] == 0 && p[75] == 0 && p[76] == 0 && p[77] == 0 && Get16(p[72..74]) == |p| - SIZE
  {
    forall e | Reads(p, e)
      ensures p[74] == 0 && p[75] == 0 && p[76] == 0 && p[77] == 0 && Get16(p[72..74]) == |p| - SIZE
    {
      hide Layout, Tail, Put;
      Widths();
      Fields(e, p);
      TailFields(e);
      var t := p[70..78];
      assert p[72..74] == t[2..4] && p[74..78] == t[4..8];
      assert p[74] == t[4..8][0] && p[75] == t[4..8][1] && p[76] == t[4..8][2] && p[77] == t[4..8][3];
      GetPut(e.control.value.payloadLen, 2);
    }
  }

  /** An encoded envelope is read back as it was, with any payload of the announced length. */
  lemma EncodedIsRead(e: Envelope, payload: Bytes, f: Envelope)
    requires Encodable(e) && Sole(e) && (e.kind == CONTROL ==> e.control.value.payloadLen == |payload|)
    ensures Reads(Layout(e) + payload, e)
    ensures Reads(Layout(e) + payload, f) ==> f == e
  {
    hide Layout;
    if Reads(Layout(e) + payload, f) { ReadsUnique(Layout(e) + payload, e, f); }
  }
}
