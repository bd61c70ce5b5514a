/** The congestion window: increaseCwnd and decreaseCwnd in 32-bit arithmetic. */
module KcpCongestion {
  import opened Arithmetic
  import opened LittleEndian

  const THRESH_MIN: nat := 2

  /** _cwnd (segments), _incr (bytes) and _ssthresh (segments). */
  datatype Cwnd = Cwnd(cwnd: nat, incr: nat, ssthresh: nat)

  const InitialCwnd := Cwnd(1, 0, 2)

  function Wrap(x: nat): nat { x % U32 }

  function Min(x: nat, y: nat): nat { if x <= y then x else y }
  function Max(x: nat, y: nat): nat { if x >= y then x else y }

  /** A new cumulative acknowledgement arrived. */
  function Increase(c: Cwnd, rmtWnd: nat, mss: nat): Cwnd
    requires mss > 0
  {
    if c.cwnd >= rmtWnd then c else
      var grown := if c.cwnd < c.ssthresh
                   then c.(cwnd := Wrap(c.cwnd + 1), incr := Wrap(c.incr + mss))
                   else Avoid(c, mss);
      if grown.cwnd > rmtWnd then grown.(cwnd := rmtWnd, incr := Wrap(rmtWnd * mss)) else grown
  }

  // Congestion avoidance: the window grows once _incr covers another segment.

  function AvoidIncrement(base: nat, mss: nat): nat
    requires base > 0
  {
    Wrap(mss * mss) / base + mss / 16
  }

  function NextSegment(cwnd: nat, mss: nat): nat { Wrap(Wrap(cwnd + 1) * mss) }

  function SegmentsCovered(incr: nat, mss: nat): nat
    requires mss > 0
  {
    Wrap(incr + mss - 1) / mss
  }

  function Avoid(c: Cwnd, mss: nat): Cwnd
    requires mss > 0
  {
    var base := Max(c.incr, mss);
    var incr := Wrap(base + AvoidIncrement(base, mss));
    if NextSegment(c.cwnd, mss) <= incr then c.(cwnd := SegmentsCovered(incr, mss), incr := incr) else c.(incr := incr)
  }

  /** resent: fast retransmission is off when _fastresend is 0. */
  function Resent(fastresend: nat): nat { if fastresend > 0 then fastresend else U32 - 1 }

  /** The window sortSendQueue and decreaseCwnd compute from the three limits. */
  function SendLimit(c: Cwnd, sndWnd: nat, rmtWnd: nat, nocwnd: bool): nat {
    if nocwnd then Min(sndWnd, rmtWnd) else Min(c.cwnd, Min(sndWnd, rmtWnd))
  }

  /** After a flush: `change` tells of a fast retransmission, `lost` of a timeout. */
  function Decrease(c: Cwnd, change: bool, lost: bool, limit: nat, inflight: nat, fastresend: nat, mss: nat): Cwnd {
    var c1 := if !change then c else
      var ssthresh := Max(inflight / 2, THRESH_MIN);
      var cwnd := Wrap(ssthresh + Resent(fastresend));
      Cwnd(cwnd, Wrap(cwnd * mss), ssthresh);
    var c2 := if !lost then c1 else Cwnd(1, mss, Max(limit / 2, THRESH_MIN));
    if c2.cwnd < 1 then c2.(cwnd := 1, incr := mss) else c2
  }

  // ---- Properties over all runs ----

  /** Window sizes for which the 32-bit products cannot wrap: `cap` bounds every window reached. */
  predicate WellSized(mss: nat, sndWnd: nat, fastresend: nat) {
    && 0 < mss && mss * mss < U32
    && (Cap(sndWnd, fastresend) + 4) * mss < U32
  }

  function Cap(sndWnd: nat, fastresend: nat): nat { Max(U16, sndWnd / 2 + THRESH_MIN + fastresend) }

  ghost predicate Sound(c: Cwnd, mss: nat, cap: nat) {
    1 <= c.cwnd <= cap && 2 <= c.ssthresh && c.incr < (c.cwnd + 1) * mss
  }

  /** The quotient of the avoidance step is at most a segment, and half of one from two segments on. */
  lemma AvoidQuotient(mss: nat, base: nat)
    requires 0 < mss <= base
    ensures mss * mss / base <= mss
    ensures 2 * mss <= base ==> 2 * (mss * mss / base) <= mss
  {
    MulMonotone(mss, base, mss);
    QuotientAtMost(mss * mss, base, mss);
    if 2 * mss <= base {
      HalfQuotient(mss, base, mss / 2);
    }
  }

  lemma HalfQuotient(mss: nat, base: nat, half: nat)
    requires 0 < 2 * mss <= base && mss < 2 * (half + 1)
    ensures mss * mss / base <= half
  {
    MulMonotone(2 * mss, base, half + 1);
    MulMonotone(mss + 1, 2 * (half + 1), mss);
    assert (mss + 1) * mss == mss * mss + mss;
    assert 2 * (half + 1) * mss == 2 * mss * (half + 1);
    assert base * (half + 1) == base * half + base;
    QuotientAtMost(mss * mss, base, half);
  }

  /** _incr after an avoidance step that does not wrap. */
  ghost function AvoidIncr(incr: nat, mss: nat): nat
    requires mss > 0
  {
    var base := Max(incr, mss);
    base + mss * mss / base + mss / 16
  }

  /** It covers at most two segments past the window. */
  lemma AvoidArithmetic(w: nat, incr: nat, mss: nat)
    requires w >= 2 && mss > 0 && incr < (w + 1) * mss
    ensures AvoidIncr(incr, mss) <= (w + 2) * mss
  {
    AvoidQuotient(mss, Max(incr, mss));
    MulMonotone(2, w, mss);
    assert (w + 1) * mss == w * mss + mss && (w + 2) * mss == w * mss + 2 * mss;
  }

  function Ceiling(n: nat, m: nat): nat
    requires m > 0
  {
    (n + m - 1) / m
  }

  lemma AvoidDoesNotWrap(c: Cwnd, mss: nat)
    requires mss > 0 && mss * mss < U32 && c.cwnd + 1 < U32 && (c.cwnd + 1) * mss < U32
    requires AvoidIncr(c.incr, mss) + mss < U32
    ensures var incr := AvoidIncr(c.incr, mss);
            Avoid(c, mss) == if (c.cwnd + 1) * mss <= incr then c.(cwnd := Ceiling(incr, mss), incr := incr)
                             else c.(incr := incr)
  {
    hide Wrap;
    var incr := AvoidIncr(c.incr, mss);
    WrapIsIdentity(mss * mss);
    WrapIsIdentity(c.cwnd + 1);
    WrapIsIdentity((c.cwnd + 1) * mss);
    WrapIsIdentity(incr);
    WrapIsIdentity(incr + mss - 1);
  }

  lemma CeilingDivision(n: nat, m: nat, k: nat)
    requires m > 0 && n <= k * m
    ensures Ceiling(n, m) <= k && n <= Ceiling(n, m) * m
  {
    QuotientAtMost(n + m - 1, m, k);
  }

  lemma CeilingAtLeast(n: nat, m: nat, k: nat)
    requires m > 0 && m * k + m <= n
    ensures k <= Ceiling(n, m)
  {
    QuotientAtLeast(n + m - 1, m, k);
  }

  lemma NextWindow(n: nat, mss: nat, w: nat)
    requires mss > 0 && (w + 1) * mss <= n <= (w + 2) * mss
    ensures var d := Ceiling(n, mss); w <= d <= w + 2 && n < (d + 1) * mss
  {
    hide Ceiling;
    CeilingDivision(n, mss, w + 2);
    assert (w + 1) * mss == w * mss + mss == mss * w + mss;
    CeilingAtLeast(n, mss, w);
    var d := Ceiling(n, mss);
    assert (d + 1) * mss == d * mss + mss;
  }

  lemma WrapIsIdentity(x: nat)
    requires x < U32
    ensures Wrap(x) == x
  {
  }

  lemma Fits(n: nat, mss: nat, cap: nat)
    requires n <= cap + 4 && 0 < mss && (cap + 4) * mss < U32
    ensures n <= n * mss < U32
  {
    MulMonotone(n, cap + 4, mss);
    MulMonotone(1, mss, n);
  }

  /** One avoidance step: no wrap, at most two more segments, and _incr stays below the next one. */
  lemma AvoidStep(c: Cwnd, mss: nat, cap: nat)
    requires Sound(c, mss, cap) && c.ssthresh <= c.cwnd
    requires 0 < mss && mss * mss < U32 && (cap + 4) * mss < U32
    ensures var d := Avoid(c, mss);
            c.cwnd <= d.cwnd <= c.cwnd + 2 && d.ssthresh == c.ssthresh && d.incr < (d.cwnd + 1) * mss
  {
    hide Avoid, AvoidIncr;
    var w := c.cwnd;
    var incr := AvoidIncr(c.incr, mss);
    AvoidArithmetic(w, c.incr, mss);
    Fits(w + 1, mss, cap);
    Fits(w + 4, mss, cap);
    assert (w + 4) * mss == (w + 2) * mss + 2 * mss;
    AvoidDoesNotWrap(c, mss);
    if (w + 1) * mss <= incr {
      NextWindow(incr, mss, w);
    }
  }

  /** One increaseCwnd call adds at most two segments and never passes the peer's window. */
  lemma IncreaseStep(c: Cwnd, rmtWnd: nat, mss: nat, cap: nat)
    requires Sound(c, mss, cap) && rmtWnd <= cap
    requires 0 < mss && mss * mss < U32 && (cap + 4) * mss < U32
    ensures var d := Increase(c, rmtWnd, mss);
            Sound(d, mss, cap) && c.cwnd <= d.cwnd <= c.cwnd + 2 && d.ssthresh == c.ssthresh
            && (d.cwnd <= rmtWnd || d == c)
  {
    hide Wrap, Avoid;
    if c.cwnd < rmtWnd {
      Fits(c.cwnd + 2, mss, cap);
      Fits(rmtWnd, mss, cap);
      assert (c.cwnd + 2) * mss == (c.cwnd + 1) * mss + mss;
      assert (rmtWnd + 1) * mss == rmtWnd * mss + mss;
      WrapIsIdentity(c.cwnd + 1);
      WrapIsIdentity(rmtWnd * mss);
      if c.cwnd >= c.ssthresh {
        AvoidStep(c, mss, cap);
      } else {
        WrapIsIdentity(c.incr + mss);
      }
    }
  }

  // ---- how the window grows ----

  /** Below the threshold each acknowledgement adds one segment. */
  lemma SlowStartAddsOne(c: Cwnd, rmtWnd: nat, mss: nat, cap: nat)
    requires Sound(c, mss, cap) && rmtWnd <= cap && 0 < mss && (cap + 4) * mss < U32
    requires c.cwnd < rmtWnd && c.cwnd < c.ssthresh
    ensures Increase(c, rmtWnd, mss) == Cwnd(c.cwnd + 1, c.incr + mss, c.ssthresh)
  {
    hide Wrap, Avoid;
    Fits(c.cwnd + 2, mss, cap);
    assert (c.cwnd + 2) * mss == (c.cwnd + 1) * mss + mss;
    WrapIsIdentity(c.cwnd + 1);
    WrapIsIdentity(c.incr + mss);
  }

  /** n is the smallest number of segments that hold these bytes. */
  predicate Covers(n: nat, bytes: nat, mss: nat) { bytes <= n * mss && (n > 0 ==> (n - 1) * mss < bytes) }

  /** x is the square of a segment over the bytes of the window, rounded down. */
  predicate SquareOver(x: int, base: nat, mss: nat) { x * base <= mss * mss < (x + 1) * base }

  ghost predicate Avoids(c: Cwnd, d: Cwnd, mss: nat) {
    var base := Max(c.incr, mss);
    && d.ssthresh == c.ssthresh && SquareOver(d.incr - base - mss / 16, base, mss)
    && (if d.incr < (c.cwnd + 1) * mss then d.cwnd == c.cwnd else Covers(d.cwnd, d.incr, mss))
  }

  lemma QuotientIsSquareOver(base: nat, mss: nat)
    requires base > 0
    ensures SquareOver(mss * mss / base, base, mss)
  {
    var q := mss * mss / base;
    assert mss * mss == q * base + mss * mss % base;
    assert (q + 1) * base == q * base + base;
  }

  lemma CeilingCovers(n: nat, mss: nat)
    requires mss > 0
    ensures Covers(Ceiling(n, mss), n, mss)
  {
    var q := Ceiling(n, mss);
    assert n + mss - 1 == q * mss + (n + mss - 1) % mss;
    if q > 0 {
      assert (q - 1) * mss == q * mss - mss;
    }
  }

  /** At or above the threshold each acknowledgement adds the square of a segment over the window and a
      sixteenth of a segment, in bytes, and the window follows; the peer's window limits both. */
  lemma AvoidanceFollowsBytes(c: Cwnd, rmtWnd: nat, mss: nat, cap: nat)
    requires Sound(c, mss, cap) && rmtWnd <= cap && c.ssthresh <= c.cwnd < rmtWnd
    requires 0 < mss && mss * mss < U32 && (cap + 4) * mss < U32
    ensures Avoids(c, Avoid(c, mss), mss)
    ensures Increase(c, rmtWnd, mss) ==
            if Avoid(c, mss).cwnd > rmtWnd then Cwnd(rmtWnd, rmtWnd * mss, c.ssthresh) else Avoid(c, mss)
  {
    hide Wrap, AvoidIncr, Avoid, Covers, SquareOver;
    var w := c.cwnd;
    AvoidArithmetic(w, c.incr, mss);
    Fits(w + 1, mss, cap);
    Fits(w + 4, mss, cap);
    assert (w + 4) * mss == (w + 2) * mss + 2 * mss;
    AvoidDoesNotWrap(c, mss);
    AvoidIncrIs(c.incr, mss);
    CeilingCovers(AvoidIncr(c.incr, mss), mss);
    Fits(rmtWnd, mss, cap);
    WrapIsIdentity(rmtWnd * mss);
  }

  lemma AvoidIncrIs(incr: nat, mss: nat)
    requires mss > 0
    ensures var base := Max(incr, mss); SquareOver(AvoidIncr(incr, mss) - base - mss / 16, base, mss)
    ensures AvoidIncr(incr, mss) >= incr + mss / 16
  {
    QuotientIsSquareOver(Max(incr, mss), mss);
    hide SquareOver;
  }

  /** The window after n acknowledgements. */
  function Acked(c: Cwnd, rmtWnd: nat, mss: nat, n: nat): Cwnd
    requires mss > 0
  {
    if n == 0 then c else Increase(Acked(c, rmtWnd, mss, n - 1), rmtWnd, mss)
  }

  /** One acknowledgement gives another segment, or a sixteenth of one in bytes. */
  lemma GainsBytes(c: Cwnd, rmtWnd: nat, mss: nat, cap: nat)
    requires Sound(c, mss, cap) && rmtWnd <= cap && c.cwnd < rmtWnd
    requires 0 < mss && mss * mss < U32 && (cap + 4) * mss < U32
    ensures var d := Increase(c, rmtWnd, mss); d.cwnd > c.cwnd || (d.cwnd == c.cwnd && d.incr >= c.incr + mss / 16)
  {
    hide Increase, Avoid;
    IncreaseStep(c, rmtWnd, mss, cap);
    if c.cwnd < c.ssthresh {
      SlowStartAddsOne(c, rmtWnd, mss, cap);
    } else {
      AvoidanceFollowsBytes(c, rmtWnd, mss, cap);
      SquareGains(Max(c.incr, mss), mss, Avoid(c, mss).incr);
    }
  }

  lemma SquareGains(base: nat, mss: nat, incr: int)
    requires 0 < mss <= base && SquareOver(incr - base - mss / 16, base, mss)
    ensures incr >= base + mss / 16
  {
    PositiveFactor(incr - base - mss / 16 + 1, base);
  }

  lemma PositiveFactor(a: int, b: nat)
    requires a * b > 0
    ensures a > 0
  {
  }

  /** While the window of the peer leaves room, the congestion window does not stop growing: enough
      acknowledgements to fill another segment sixteenth by sixteenth always add one. */
  lemma {:induction false} WindowGrows(c: Cwnd, rmtWnd: nat, mss: nat, cap: nat, n: nat)
    requires Sound(c, mss, cap) && rmtWnd <= cap && c.cwnd < rmtWnd
    requires 0 < mss && mss * mss < U32 && (cap + 4) * mss < U32
    ensures var d := Acked(c, rmtWnd, mss, n);
            && Sound(d, mss, cap) && d.cwnd >= c.cwnd
            && (d.cwnd == c.cwnd ==> d.incr >= c.incr + n * (mss / 16))
            && (n * (mss / 16) >= (c.cwnd + 1) * mss ==> d.cwnd > c.cwnd)
  {
    hide Increase;
    if n > 0 {
      WindowGrows(c, rmtWnd, mss, cap, n - 1);
      var d := Acked(c, rmtWnd, mss, n - 1);
      IncreaseStep(d, rmtWnd, mss, cap);
      if d.cwnd == c.cwnd {
        GainsBytes(d, rmtWnd, mss, cap);
        assert n * (mss / 16) == (n - 1) * (mss / 16) + mss / 16;
      }
    }
  }

  /** With fast retransmission off the addition wraps to ssthresh - 1. */
  lemma ReducedWindow(ssthresh: nat, fastresend: nat, mss: nat, sndWnd: nat)
    requires WellSized(mss, sndWnd, fastresend) && THRESH_MIN <= ssthresh <= Max(sndWnd / 2, THRESH_MIN)
    ensures var cwnd := Wrap(ssthresh + Resent(fastresend));
            1 <= cwnd <= Cap(sndWnd, fastresend) && Wrap(cwnd * mss) < (cwnd + 1) * mss
  {
    hide Wrap, Resent;
    var cap := Cap(sndWnd, fastresend);
    Fits(cap, mss, cap);
    ReducedSum(ssthresh, fastresend, mss, sndWnd);
    BytesOfWindow(Wrap(ssthresh + Resent(fastresend)), mss, cap);
  }

  lemma BytesOfWindow(cwnd: nat, mss: nat, cap: nat)
    requires cwnd <= cap && 0 < mss && (cap + 4) * mss < U32
    ensures Wrap(cwnd * mss) < (cwnd + 1) * mss
  {
    hide Wrap;
    Fits(cwnd, mss, cap);
    WrapIsIdentity(cwnd * mss);
    assert (cwnd + 1) * mss == cwnd * mss + mss;
  }

  lemma ReducedSum(ssthresh: nat, fastresend: nat, mss: nat, sndWnd: nat)
    requires WellSized(mss, sndWnd, fastresend) && THRESH_MIN <= ssthresh <= Max(sndWnd / 2, THRESH_MIN)
    requires Cap(sndWnd, fastresend) < U32
    ensures Wrap(ssthresh + Resent(fastresend)) == (if fastresend > 0 then ssthresh + fastresend else ssthresh - 1)
  {
  }

  /** decreaseCwnd keeps the same bounds. */
  lemma DecreaseStep(c: Cwnd, change: bool, lost: bool, limit: nat, inflight: nat, fastresend: nat, mss: nat, sndWnd: nat)
    requires WellSized(mss, sndWnd, fastresend) && Sound(c, mss, Cap(sndWnd, fastresend)) && inflight <= sndWnd
    ensures Sound(Decrease(c, change, lost, limit, inflight, fastresend, mss), mss, Cap(sndWnd, fastresend))
  {
    hide Wrap;
    if change && !lost {
      ReducedWindow(Max(inflight / 2, THRESH_MIN), fastresend, mss, sndWnd);
    }
  }

  /** A timeout starts over with one segment, a fast retransmission alone goes on with half of what is in
      flight, and without either nothing changes. */
  lemma DecreaseIs(c: Cwnd, change: bool, lost: bool, limit: nat, inflight: nat, fastresend: nat, mss: nat)
    requires 1 <= c.cwnd && fastresend + inflight + 2 < U32
    ensures var d := Decrease(c, change, lost, limit, inflight, fastresend, mss);
            && (lost ==> d == Cwnd(1, mss, Max(limit / 2, 2)))
            && (change && !lost ==>
                  && d.ssthresh == Max(inflight / 2, 2)
                  && d.cwnd == (if fastresend > 0 then d.ssthresh + fastresend else d.ssthresh - 1)
                  && d.incr == d.cwnd * mss % U32)
            && (!change && !lost ==> d == c)
  {
    if change && !lost {
      HalfInFlight(inflight, fastresend);
    }
    hide Resent;
  }

  lemma HalfInFlight(inflight: nat, fastresend: nat)
    requires fastresend + inflight + 2 < U32
    ensures var half := Max(inflight / 2, THRESH_MIN);
            Wrap(half + Resent(fastresend)) == if fastresend > 0 then half + fastresend else half - 1
  {
  }

  datatype Event =
    | Acked(rmtWnd: nat)
    | Flushed(change: bool, lost: bool, limit: nat, inflight: nat)

  predicate Allowed(e: Event, sndWnd: nat) {
    match e
    case Acked(rmtWnd) => rmtWnd < U16
    case Flushed(_, _, _, inflight) => inflight <= sndWnd
  }

  function Run(es: seq<Event>, fastresend: nat, mss: nat): Cwnd
    requires mss > 0
  {
    if es == [] then InitialCwnd else
      var c := Run(es[..|es| - 1], fastresend, mss);
      match es[|es| - 1]
      case Acked(rmtWnd) => Increase(c, rmtWnd, mss)
      case Flushed(change, lost, limit, inflight) => Decrease(c, change, lost, limit, inflight, fastresend, mss)
  }

  /** Every run of acknowledgements and flushes keeps the window at one segment or more, the
      threshold at two or more, and _incr below one segment past the window. */
  lemma {:induction false} RunIsSound(es: seq<Event>, fastresend: nat, mss: nat, sndWnd: nat)
    requires WellSized(mss, sndWnd, fastresend)
    requires forall e | e in es :: Allowed(e, sndWnd)
    ensures Sound(Run(es, fastresend, mss), mss, Cap(sndWnd, fastresend))
  {
    if es != [] {
      var rest, e := es[..|es| - 1], es[|es| - 1];
      assert e in es;
      RunIsSound(rest, fastresend, mss, sndWnd);
      var c := Run(rest, fastresend, mss);
      match e
      case Acked(rmtWnd) => IncreaseStep(c, rmtWnd, mss, Cap(sndWnd, fastresend));
      case Flushed(change, lost, limit, inflight) => DecreaseStep(c, change, lost, limit, inflight, fastresend, mss, sndWnd);
    }
  }
}
