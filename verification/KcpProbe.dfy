/** The questions a sender asks while the window of its peer is closed. */
module KcpProbe {
  import opened LittleEndian
  import opened KcpState
  import opened KcpTurn

  /** A timer turn as the probe timer sees it. */
  function AfterTurn(c: Ctl, now: nat): Ctl { ProbeTimer(c, now).(askSend := false) }

  /** The window is closed, and the timer runs since `last`. */
  ghost predicate Waiting(c: Ctl, last: nat) {
    c.rmtWnd == 0 && !c.askSend && PROBE_INIT <= c.probeWait <= PROBE_LIMIT && c.tsProbe == (last + c.probeWait) % U32
  }

  function HalfMore(wait: nat): nat { if wait + wait / 2 > PROBE_LIMIT then PROBE_LIMIT else wait + wait / 2 }

  /** An open window is not asked about, and the timer is off. */
  lemma OpenWindowIsNotAsked(c: Ctl, now: nat)
    requires c.rmtWnd > 0 && !c.askSend
    ensures !AsksNow(c, now) && AfterTurn(c, now).probeWait == 0
  {
  }

  /** A window that was closed starts the timer. */
  lemma ClosedWindowStartsTimer(c: Ctl, now: nat)
    requires c.rmtWnd == 0 && !c.askSend && c.probeWait == 0
    ensures !AsksNow(c, now) && AfterTurn(c, now).probeWait == PROBE_INIT && Waiting(AfterTurn(c, now), now)
  {
  }

  lemma WrappedDifference(now: nat, due: nat)
    requires now < due + 0x8000_0000 && due <= now + 0x8000_0000
    ensures (now - due % U32) % U32 < 0x8000_0000 <==> due <= now
  {
    var d := now - due;
    assert (now - due % U32) % U32 == d % U32 by { SameModulo(now, due); }
    if due <= now {
      assert d % U32 == d;
    } else {
      assert d % U32 == d + U32;
    }
  }

  lemma SameModulo(now: nat, due: nat)
    ensures (now - due % U32) % U32 == (now - due) % U32
  {
    var q := due / U32;
    assert due == q * U32 + due % U32;
    var x := now - due;
    assert now - due % U32 == x + q * U32;
    AddMultiple(x, q);
  }

  lemma {:induction false} AddMultiple(x: int, q: nat)
    ensures (x + q * U32) % U32 == x % U32
  {
    if q > 0 {
      AddMultiple(x, q - 1);
      assert x + q * U32 == (x + (q - 1) * U32) + U32;
    }
  }

  /** A question goes out at the first turn when the wait is over, and the next wait is half as long again,
      up to two minutes. */
  lemma AsksWhenDue(c: Ctl, last: nat, now: nat)
    requires Waiting(c, last) && last <= now < last + 0x8000_0000
    ensures AsksNow(c, now) <==> last + c.probeWait <= now
    ensures if AsksNow(c, now) then AfterTurn(c, now).probeWait == HalfMore(c.probeWait) && Waiting(AfterTurn(c, now), now)
            else AfterTurn(c, now) == c
  {
    WrappedDifference(now, last + c.probeWait);
  }

  /** The times at which turns at these times ask, while the window stays closed. */
  function Asked(c: Ctl, times: seq<nat>): seq<nat>
    decreases times
  {
    if times == [] then [] else
      (if AsksNow(c, times[0]) then [times[0]] else []) + Asked(AfterTurn(c, times[0]), times[1..])
  }

  ghost predicate Follows(last: nat, times: seq<nat>)
    decreases times
  {
    times == [] || (last <= times[0] < last + 0x4000_0000 && Follows(times[0], times[1..]))
  }

  /** At least this far apart, the first from `last` on. */
  ghost predicate Spaced(last: nat, wait: nat, asked: seq<nat>)
    decreases asked
  {
    asked == [] || (last + wait <= asked[0] && Spaced(asked[0], HalfMore(wait), asked[1..]))
  }

  /** However often the timer turns: each wait is half as long again as the one before, and after two
      minutes at the latest a question is asked. */
  lemma {:induction false} QuestionsAreSpaced(c: Ctl, last: nat, t: nat, times: seq<nat>)
    requires Waiting(c, last) && last <= t < last + PROBE_LIMIT && Follows(t, times)
    ensures Spaced(last, c.probeWait, Asked(c, times))
    ensures times != [] && last + PROBE_LIMIT <= times[|times| - 1] ==> Asked(c, times) != []
    decreases times
  {
    hide AsksNow, AfterTurn, HalfMore, Waiting;
    if times != [] {
      var now := times[0];
      WaitingBounds(c, last);
      AsksWhenDue(c, last, now);
      var c' := AfterTurn(c, now);
      var rest := Asked(c', times[1..]);
      if AsksNow(c, now) {
        QuestionsAreSpaced(c', now, now, times[1..]);
        assert ([now] + rest)[1..] == rest;
      } else {
        QuestionsAreSpaced(c', last, now, times[1..]);
        assert [] + rest == rest;
      }
    }
  }

  lemma WaitingBounds(c: Ctl, last: nat)
    requires Waiting(c, last)
    ensures c.probeWait <= PROBE_LIMIT
  {
  }
}
