/** Packets laid end to end, each behind its 16-bit length. */
module Records {
  import opened Seq32
  import opened BigEndian

  function Stream(ps: seq<Bytes>): Bytes {
    if ps == [] then [] else Put(|ps[0]| % 65536, 2) + ps[0] + Stream(ps[1..])
  }

  lemma {:induction false} StreamAppend(a: seq<Bytes>, b: seq<Bytes>)
    ensures Stream(a + b) == Stream(a) + Stream(b)
  {
    hide Put;
    if a == [] {
      assert a + b == b;
    } else {
      StreamAppend(a[1..], b);
      assert (a + b)[1..] == a[1..] + b;
    }
  }
}
