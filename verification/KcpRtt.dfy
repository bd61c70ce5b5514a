/** The retransmission timer: the integer filter of updateRtt against the exact recurrence
    of sections 2.2 and 2.3 of RFC 6298. */
module KcpRtt {

  const RTO_DEF: int := 200
  const RTO_MAX: int := 60000

  /** _rx_srtt, _rx_rttval and _rx_rto. */
  datatype Rtt = Rtt(srtt: int, rttval: int, rto: int)

  const InitialRtt := Rtt(0, 0, RTO_DEF)

  function Abs(x: int): nat { if x < 0 then -x else x }
  function Max(x: int, y: int): int { if x >= y then x else y }
  function Min(x: int, y: int): int { if x <= y then x else y }

  /** _ibound_ */
  function Bound(lower: int, middle: int, upper: int): int { Min(Max(lower, middle), upper) }

  // Samples are not negative past the first test, so the truncating divisions round down.
  function UpdateRtt(s: Rtt, rtt: int, interval: nat, minrto: int): Rtt {
    if rtt < 0 then s else
      var srtt, rttval := Smoothed(s, rtt), Variation(s, rtt);
      Rtt(srtt, rttval, Bound(minrto, srtt + Max(interval, 4 * rttval), RTO_MAX))
  }

  function Smoothed(s: Rtt, rtt: int): int {
    if s.srtt == 0 then rtt else Max(1, (7 * s.srtt + rtt) / 8)
  }

  function Variation(s: Rtt, rtt: int): int {
    if s.srtt == 0 then rtt / 2 else (3 * s.rttval + Abs(rtt - s.srtt)) / 4
  }

  /** The filter over a run of samples. */
  function UpdateAll(s: Rtt, samples: seq<int>, interval: nat, minrto: int): Rtt {
    if samples == [] then s
    else UpdateRtt(UpdateAll(s, samples[..|samples| - 1], interval, minrto), samples[|samples| - 1], interval, minrto)
  }

  // ---- The reference: SRTT and RTTVAR over the reals, alpha = 1/8 and beta = 1/4 ----

  datatype Exact = Exact(srtt: real, rttvar: real)

  function AbsR(x: real): real { if x < 0.0 then -x else x }

  function First(rtt: int): Exact { Exact(rtt as real, rtt as real / 2.0) }

  function Next(e: Exact, rtt: int): Exact {
    Exact((7.0 * e.srtt + rtt as real) / 8.0, (3.0 * e.rttvar + AbsR(rtt as real - e.srtt)) / 4.0)
  }

  /** The exact estimate: it starts at the first positive sample; negative samples are ignored. */
  function ExactAll(samples: seq<int>): Exact
    requires exists i :: 0 <= i < |samples| && samples[i] > 0
  {
    var rest, last := samples[..|samples| - 1], samples[|samples| - 1];
    if exists i :: 0 <= i < |rest| && rest[i] > 0 then
      if last < 0 then ExactAll(rest) else Next(ExactAll(rest), last)
    else
      First(last)
  }

  ghost predicate Tracks(s: Rtt, e: Exact) {
    && s.srtt >= 1 && s.rttval >= 0
    && -8.0 <= s.srtt as real - e.srtt <= 8.0
    && -11.0 <= s.rttval as real - e.rttvar <= 11.0
  }

  /** Rounding down loses less than the divisor's last unit. */
  lemma RoundedDown(n: int, d: int)
    requires d == 4 || d == 8
    ensures n as real / d as real - 1.0 + 1.0 / d as real <= (n / d) as real <= n as real / d as real
  {
    assert n == d * (n / d) + n % d;
  }

  lemma StepTracks(s: Rtt, e: Exact, rtt: int, interval: nat, minrto: int)
    requires Tracks(s, e) && rtt >= 0
    ensures Tracks(UpdateRtt(s, rtt, interval, minrto), Next(e, rtt))
  {
    RoundedDown(7 * s.srtt + rtt, 8);
    RoundedDown(3 * s.rttval + Abs(rtt - s.srtt), 4);
    var diff := Abs(rtt - s.srtt) as real - AbsR(rtt as real - e.srtt);
    assert -8.0 <= diff <= 8.0;
  }

  lemma {:induction false} Unstarted(samples: seq<int>, interval: nat, minrto: int)
    requires forall i :: 0 <= i < |samples| ==> samples[i] <= 0
    ensures UpdateAll(InitialRtt, samples, interval, minrto).srtt == 0
  {
    if samples != [] {
      Unstarted(samples[..|samples| - 1], interval, minrto);
    }
  }

  /** From the first positive sample on, for every sample sequence, the integer filter stays
      within 8 ms of the exact SRTT and within 11 ms of the exact RTTVAR. */
  lemma {:induction false} FilterTracksExact(samples: seq<int>, interval: nat, minrto: int)
    requires exists i :: 0 <= i < |samples| && samples[i] > 0
    ensures Tracks(UpdateAll(InitialRtt, samples, interval, minrto), ExactAll(samples))
  {
    var rest, last := samples[..|samples| - 1], samples[|samples| - 1];
    if exists i :: 0 <= i < |rest| && rest[i] > 0 {
      FilterTracksExact(rest, interval, minrto);
      if last >= 0 {
        StepTracks(UpdateAll(InitialRtt, rest, interval, minrto), ExactAll(rest), last, interval, minrto);
      }
    } else {
      Unstarted(rest, interval, minrto);
      assert last > 0;
    }
  }

  /** The timer that the filter has set is within 52 ms of the bounded RTO of the exact estimate. */
  lemma {:induction false} TimerTracksExact(samples: seq<int>, interval: nat, minrto: int)
    requires exists i :: 0 <= i < |samples| && samples[i] > 0
    ensures Near(UpdateAll(InitialRtt, samples, interval, minrto).rto, ExactAll(samples), interval, minrto)
  {
    hide Near, Tracks;
    var rest, last := samples[..|samples| - 1], samples[|samples| - 1];
    if last < 0 {
      var i :| 0 <= i < |samples| && samples[i] > 0;
      assert rest[i] > 0;
      TimerTracksExact(rest, interval, minrto);
    } else {
      FilterTracksExact(samples, interval, minrto);
      hide ExactAll, UpdateRtt;
      TimerFollows(UpdateAll(InitialRtt, rest, interval, minrto), ExactAll(samples), last, interval, minrto);
    }
  }

  /** A timer within 52 ms of the bounded RTO of an exact estimate. */
  ghost predicate Near(rto: int, e: Exact, interval: nat, minrto: int) {
    -52.0 <= rto as real - BoundR(minrto as real, e.srtt + MaxR(interval as real, 4.0 * e.rttvar), RTO_MAX as real) <= 52.0
  }

  /** The timer that a sample sets follows from the estimates it leaves. */
  lemma TimerFollows(s: Rtt, e: Exact, rtt: int, interval: nat, minrto: int)
    requires rtt >= 0 && Tracks(UpdateRtt(s, rtt, interval, minrto), e)
    ensures Near(UpdateRtt(s, rtt, interval, minrto).rto, e, interval, minrto)
  {
    hide Smoothed, Variation;
  }

  function MaxR(x: real, y: real): real { if x >= y then x else y }
  function MinR(x: real, y: real): real { if x <= y then x else y }
  function BoundR(lower: real, middle: real, upper: real): real { MinR(MaxR(lower, middle), upper) }

  /** In every run the timer stays in [minrto, RTO_MAX] once it has been set, and starts at RTO_DEF. */
  lemma {:induction false} TimerBounds(samples: seq<int>, interval: nat, minrto: int)
    requires minrto <= RTO_MAX
    ensures var rto := UpdateAll(InitialRtt, samples, interval, minrto).rto;
            minrto <= rto <= RTO_MAX || (rto == RTO_DEF && forall i :: 0 <= i < |samples| ==> samples[i] < 0)
  {
    if samples != [] {
      TimerBounds(samples[..|samples| - 1], interval, minrto);
    }
  }

  ghost predicate Within(s: Rtt, bound: int) { 0 <= s.srtt <= bound && 0 <= s.rttval <= bound }

  lemma StepWithin(s: Rtt, rtt: int, interval: nat, minrto: int, bound: int)
    requires Within(s, bound) && rtt <= bound && 1 <= bound
    ensures Within(UpdateRtt(s, rtt, interval, minrto), bound)
  {
    if rtt >= 0 {
      assert Abs(rtt - s.srtt) <= bound;
      assert 7 * s.srtt + rtt <= 8 * bound && 3 * s.rttval + Abs(rtt - s.srtt) <= 4 * bound;
    }
  }

  /** The sums of the filter, after a run of samples and with one more, fit 32 bits. */
  ghost predicate Fits32(samples: seq<int>, interval: nat, minrto: int, rtt: int) {
    var s := UpdateAll(InitialRtt, samples, interval, minrto);
    && 7 * s.srtt + rtt < 0x8000_0000 && 3 * s.rttval + Abs(rtt - s.srtt) < 0x8000_0000
    && s.srtt + 4 * s.rttval < 0x8000_0000
  }

  ghost predicate AtMost(samples: seq<int>, bound: int) { forall i :: 0 <= i < |samples| ==> samples[i] <= bound }

  /** With samples below 2^28 ms no intermediate value of the filter leaves int32. */
  lemma {:induction false} NoOverflow(samples: seq<int>, interval: nat, minrto: int, bound: int, rtt: int)
    requires AtMost(samples, bound) && 0 <= rtt <= bound && 1 <= bound < 0x1000_0000
    ensures Within(UpdateAll(InitialRtt, samples, interval, minrto), bound) && Fits32(samples, interval, minrto, rtt)
  {
    if samples != [] {
      var rest := samples[..|samples| - 1];
      NoOverflow(rest, interval, minrto, bound, 0);
      StepWithin(UpdateAll(InitialRtt, rest, interval, minrto), samples[|samples| - 1], interval, minrto, bound);
    }
  }

  /** A bound on the samples keeps all sums of all runs within int32 if and only if it is below 2^28 ms. */
  lemma NoOverflowIff(interval: nat, minrto: int, bound: int)
    requires 1 <= bound
    ensures (forall samples, rtt :: AtMost(samples, bound) && 0 <= rtt <= bound ==> Fits32(samples, interval, minrto, rtt))
            <==> bound < 0x1000_0000
  {
    hide AtMost, Fits32;
    if bound < 0x1000_0000 {
      forall samples, rtt | AtMost(samples, bound) && 0 <= rtt <= bound ensures Fits32(samples, interval, minrto, rtt) {
        NoOverflow(samples, interval, minrto, bound, rtt);
      }
    } else {
      LargeSampleOverflows(interval, minrto, bound);
    }
  }

  /** The second of two samples of 2^28 ms makes the first sum overflow. */
  lemma LargeSampleOverflows(interval: nat, minrto: int, bound: int)
    requires 0x1000_0000 <= bound
    ensures AtMost([bound], bound) && !Fits32([bound], interval, minrto, bound)
  {
    assert [bound][..0] == [];
    assert UpdateAll(InitialRtt, [bound], interval, minrto) == UpdateRtt(InitialRtt, bound, interval, minrto);
  }
}
