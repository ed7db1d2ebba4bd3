/** The sender's estimate of the round trip. */
module RoundTrip {
  const MIN_AGE: int := 10_000_000_000 // nanoseconds a minimum is kept without a smaller one

  /** `srtt` is the smoothed round trip and `rttvar` its deviation; `min`, taken at `minAt`, the
      smallest one of late. All are zero before the first sample. */
  datatype Rtt = Rtt(srtt: int, rttvar: int, min: int, minAt: int)

  const UNKNOWN: Rtt := Rtt(0, 0, 0, 0)

  datatype Sample = Sample(d: int, at: int)

  function Abs(x: int): int { if x < 0 then -x else x }

  predicate Renews(r: Rtt, s: Sample) {
    r.min == 0 || s.d < r.min || s.at - r.minAt > MIN_AGE
  }

  function Estimate(r: Rtt, s: Sample): Rtt {
    Rtt(
      if r.srtt == 0 then s.d else (7 * r.srtt + s.d) / 8,
      if r.srtt == 0 then s.d / 2 else (3 * r.rttvar + Abs(r.srtt - s.d)) / 4,
      if Renews(r, s) then s.d else r.min,
      if Renews(r, s) then s.at else r.minAt)
  }

  /** Each sample moves the smoothed round trip an eighth of the way towards it, and the deviation a quarter
      of the way towards its distance, rounded down (section 2.3 of RFC 6298). */
  lemma MovesAnEighth(r: Rtt, s: Sample)
    requires r.srtt > 0 && r.rttvar >= 0 && s.d > 0
    ensures var e := Estimate(r, s);
      && 0 <= (s.d - r.srtt) - 8 * (e.srtt - r.srtt) < 8
      && (r.srtt >= s.d ==> 0 <= (r.srtt - s.d) - r.rttvar - 4 * (e.rttvar - r.rttvar) < 4)
      && (r.srtt <= s.d ==> 0 <= (s.d - r.srtt) - r.rttvar - 4 * (e.rttvar - r.rttvar) < 4)
  {
  }

  function After(samples: seq<Sample>): Rtt {
    if samples == [] then UNKNOWN else Estimate(After(samples[..|samples| - 1]), samples[|samples| - 1])
  }

  /** The smoothed round trip stays among the samples, and its deviation within their spread. */
  lemma {:induction false} SmoothedWithin(samples: seq<Sample>, lo: int, hi: int)
    requires samples != [] && 0 < lo && forall j :: 0 <= j < |samples| ==> lo <= samples[j].d <= hi
    ensures lo <= After(samples).srtt <= hi
    ensures 0 <= After(samples).rttvar <= if hi - lo > hi / 2 then hi - lo else hi / 2
  {
    var before := samples[..|samples| - 1];
    if before != [] { SmoothedWithin(before, lo, hi); }
  }

  /** The minimum is one of the samples; none taken since is smaller, and none came so late that the
      minimum was too old to be kept. */
  lemma {:induction false} MinIsOfLate(samples: seq<Sample>) returns (k: nat)
    requires samples != [] && forall j :: 0 <= j < |samples| ==> samples[j].d > 0
    ensures k < |samples| && After(samples).min == samples[k].d && After(samples).minAt == samples[k].at
    ensures forall j :: k < j < |samples| ==> samples[j].d >= samples[k].d && samples[j].at - samples[k].at <= MIN_AGE
    ensures k > 0 ==> Renews(After(samples[..k]), samples[k])
  {
    k := |samples| - 1;
    var before := samples[..k];
    if before != [] && !Renews(After(before), samples[k]) {
      k := MinIsOfLate(before);
      assert before[..k] == samples[..k];
    }
  }
}
