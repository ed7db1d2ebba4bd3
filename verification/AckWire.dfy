/** The ack frame: [0xAE][cum u32][hi u32][n u8][(start u32, count u16) * n]. */
module AckWire {
  import opened Seq32
  import opened BigEndian

  type u16 = x: int | 0 <= x < 65536

  datatype Run = Run(start: u32, count: u16)
  datatype Ack = Ack(cum: u32, hi: u32, runs: seq<Run>)

  const ACK_MAGIC: byte := 0xAE
  const ACK_HEADER: int := 10
  const ACK_MAX_RUNS: int := 100

  function EncodeRuns(runs: seq<Run>): (b: Bytes)
    ensures |b| == 6 * |runs|
  {
    if runs == [] then []
    else EncodeRuns(runs[..|runs| - 1]) + Put(runs[|runs| - 1].start, 4) + Put(runs[|runs| - 1].count, 2)
  }

  function Encode(a: Ack): Bytes
    requires |a.runs| < 256
  {
    [ACK_MAGIC] + Put(a.cum, 4) + Put(a.hi, 4) + [|a.runs|] + EncodeRuns(a.runs)
  }

  function Get32(b: Bytes): u32
    requires |b| == 4
  {
    Widths();
    Get(b)
  }

  function Get16(b: Bytes): u16
    requires |b| == 2
  {
    Widths();
    Get(b)
  }

  function RunAt(b: Bytes, r: nat): Run
    requires ACK_HEADER + 6 * r + 6 <= |b|
  {
    var o := ACK_HEADER + 6 * r;
    Run(Get32(b[o..o + 4]), Get16(b[o + 4..o + 6]))
  }

  /** What the sender reads out of a frame; None if it is too short for the runs it announces. */
  function Decode(b: Bytes): Option<Ack>
    requires |b| >= ACK_HEADER
  {
    var n: int := b[9];
    if |b| < ACK_HEADER + 6 * n then None
    else Some(Ack(Get32(b[1..5]), Get32(b[5..9]), seq(n, r requires 0 <= r < n => RunAt(b, r))))
  }

  lemma {:induction false} RunsAt(runs: seq<Run>, r: nat)
    requires r < |runs|
    ensures EncodeRuns(runs)[6 * r..6 * r + 4] == Put(runs[r].start, 4)
    ensures EncodeRuns(runs)[6 * r + 4..6 * r + 6] == Put(runs[r].count, 2)
  {
    var n := |runs| - 1;
    var b := EncodeRuns(runs);
    var init := EncodeRuns(runs[..n]);
    if r < n {
      RunsAt(runs[..n], r);
      assert b[6 * r..6 * r + 4] == init[6 * r..6 * r + 4];
      assert b[6 * r + 4..6 * r + 6] == init[6 * r + 4..6 * r + 6];
    } else {
      assert b[6 * r..6 * r + 4] == Put(runs[r].start, 4);
      assert b[6 * r + 4..6 * r + 6] == Put(runs[r].count, 2);
    }
  }

  lemma RunIsRead(a: Ack, tail: Bytes, r: nat)
    requires r < |a.runs| < 256
    ensures |Encode(a)| == ACK_HEADER + 6 * |a.runs| && RunAt(Encode(a) + tail, r) == a.runs[r]
  {
    hide Put, Get, EncodeRuns;
    Widths();
    var b, o := Encode(a) + tail, ACK_HEADER + 6 * r;
    RunsAt(a.runs, r);
    assert b[o..o + 4] == EncodeRuns(a.runs)[6 * r..6 * r + 4];
    assert b[o + 4..o + 6] == EncodeRuns(a.runs)[6 * r + 4..6 * r + 6];
    GetPut(a.runs[r].start, 4);
    GetPut(a.runs[r].count, 2);
  }

  /** An encoded ack is read back as it was, whatever bytes follow it. */
  lemma DecodeEncode(a: Ack, tail: Bytes)
    requires |a.runs| < 256
    ensures Decode(Encode(a) + tail) == Some(a)
  {
    hide Put, Get, EncodeRuns, RunAt;
    Widths();
    var b := Encode(a) + tail;
    assert b[1..5] == Put(a.cum, 4) && b[5..9] == Put(a.hi, 4) && b[9] == |a.runs|;
    GetPut(a.cum, 4);
    GetPut(a.hi, 4);
    var d := Decode(b).value;
    forall r | 0 <= r < |a.runs| ensures d.runs[r] == a.runs[r] { RunIsRead(a, tail, r); }
    assert d.runs == a.runs;
  }
}
