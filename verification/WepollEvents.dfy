/** The event masks of wepoll: epoll events, AFD poll events, and the conversions between them. */
module WepollEvents {

  const EPOLLIN: bv32 := 0x1
  const EPOLLPRI: bv32 := 0x2
  const EPOLLOUT: bv32 := 0x4
  const EPOLLERR: bv32 := 0x8
  const EPOLLHUP: bv32 := 0x10
  const EPOLLRDNORM: bv32 := 0x40
  const EPOLLRDBAND: bv32 := 0x80
  const EPOLLWRNORM: bv32 := 0x100
  const EPOLLWRBAND: bv32 := 0x200
  const EPOLLMSG: bv32 := 0x400
  const EPOLLRDHUP: bv32 := 0x2000
  const EPOLLONESHOT: bv32 := 0x8000_0000

  const AFD_RECEIVE: bv32 := 0x1
  const AFD_RECEIVE_EXPEDITED: bv32 := 0x2
  const AFD_SEND: bv32 := 0x4
  const AFD_DISCONNECT: bv32 := 0x8
  const AFD_ABORT: bv32 := 0x10
  const AFD_LOCAL_CLOSE: bv32 := 0x20
  const AFD_ACCEPT: bv32 := 0x80
  const AFD_CONNECT_FAIL: bv32 := 0x100

  const KNOWN: bv32 := EPOLLIN | EPOLLPRI | EPOLLOUT | EPOLLERR | EPOLLHUP | EPOLLRDNORM | EPOLLRDBAND | EPOLLWRNORM
                       | EPOLLWRBAND | EPOLLMSG | EPOLLRDHUP

  /** The known events of `wanted` that `mask` lacks. */
  function Missing(wanted: bv32, mask: bv32): bv32 { wanted & KNOWN & !mask }

  function When(test: bool, bits: bv32): bv32 { if test then bits else 0 }

  function ToAfd(e: bv32): bv32 {
    AFD_LOCAL_CLOSE
    | When(e & (EPOLLIN | EPOLLRDNORM) != 0, AFD_RECEIVE | AFD_ACCEPT)
    | When(e & (EPOLLPRI | EPOLLRDBAND) != 0, AFD_RECEIVE_EXPEDITED)
    | When(e & (EPOLLOUT | EPOLLWRNORM | EPOLLWRBAND) != 0, AFD_SEND)
    | When(e & (EPOLLIN | EPOLLRDNORM | EPOLLRDHUP) != 0, AFD_DISCONNECT)
    | When(e & EPOLLHUP != 0, AFD_ABORT)
    | When(e & EPOLLERR != 0, AFD_CONNECT_FAIL)
  }

  function ToEpoll(a: bv32): bv32 {
    When(a & (AFD_RECEIVE | AFD_ACCEPT) != 0, EPOLLIN | EPOLLRDNORM)
    | When(a & AFD_RECEIVE_EXPEDITED != 0, EPOLLPRI | EPOLLRDBAND)
    | When(a & AFD_SEND != 0, EPOLLOUT | EPOLLWRNORM | EPOLLWRBAND)
    | When(a & AFD_DISCONNECT != 0, EPOLLIN | EPOLLRDNORM | EPOLLRDHUP)
    | When(a & AFD_ABORT != 0, EPOLLHUP)
    | When(a & AFD_CONNECT_FAIL != 0, EPOLLIN | EPOLLOUT | EPOLLERR | EPOLLRDNORM | EPOLLWRNORM | EPOLLRDHUP)
  }

  /** A pending poll whose mask lacks no wanted event monitors every AFD event the wanted ones need. */
  lemma CoveredPollMonitors(wanted: bv32, pending: bv32)
    requires Missing(wanted, pending) == 0
    ensures ToAfd(wanted) & !ToAfd(pending) == 0
  {
    assert wanted & KNOWN & pending == wanted & KNOWN;
  }

  /** The completion of a poll can report every known event that the poll monitors for, except
      EPOLLMSG. */
  predicate Reportable(wanted: bv32, afd: bv32) { Missing(wanted, ToEpoll(afd)) & !EPOLLMSG == 0 }

  lemma CoveredPollReports(wanted: bv32, pending: bv32)
    requires Missing(wanted, pending) == 0
    ensures Reportable(wanted, ToAfd(pending))
  {
    assert wanted & KNOWN & pending == wanted & KNOWN;
  }

  /** No completion ever reports EPOLLMSG. */
  lemma MessageIsNeverReported(afd: bv32)
    ensures ToEpoll(afd) & EPOLLMSG == 0
  {
  }

  predicate Bit(mask: bv32, bits: bv32) { mask & bits != 0 }

  /** From which AFD events each epoll event comes, and that nothing else comes from any. */
  lemma EventsComeFrom(afd: bv32)
    ensures var e := ToEpoll(afd);
            && (Bit(e, EPOLLIN) <==> Bit(afd, AFD_RECEIVE | AFD_ACCEPT | AFD_DISCONNECT | AFD_CONNECT_FAIL))
            && (Bit(e, EPOLLRDNORM) <==> Bit(afd, AFD_RECEIVE | AFD_ACCEPT | AFD_DISCONNECT | AFD_CONNECT_FAIL))
            && (Bit(e, EPOLLPRI) <==> Bit(afd, AFD_RECEIVE_EXPEDITED))
            && (Bit(e, EPOLLRDBAND) <==> Bit(afd, AFD_RECEIVE_EXPEDITED))
            && (Bit(e, EPOLLOUT) <==> Bit(afd, AFD_SEND | AFD_CONNECT_FAIL))
            && (Bit(e, EPOLLWRNORM) <==> Bit(afd, AFD_SEND | AFD_CONNECT_FAIL))
            && (Bit(e, EPOLLWRBAND) <==> Bit(afd, AFD_SEND))
            && (Bit(e, EPOLLRDHUP) <==> Bit(afd, AFD_DISCONNECT | AFD_CONNECT_FAIL))
            && (Bit(e, EPOLLHUP) <==> Bit(afd, AFD_ABORT))
            && (Bit(e, EPOLLERR) <==> Bit(afd, AFD_CONNECT_FAIL))
            && e & !KNOWN == 0
  {
    var receive, expedited, send := Bit(afd, AFD_RECEIVE | AFD_ACCEPT), Bit(afd, AFD_RECEIVE_EXPEDITED), Bit(afd, AFD_SEND);
    var disconnect, abort, failed := Bit(afd, AFD_DISCONNECT), Bit(afd, AFD_ABORT), Bit(afd, AFD_CONNECT_FAIL);
    SixSources(receive, expedited, send, disconnect, abort, failed);
    EitherBit(afd, AFD_RECEIVE | AFD_ACCEPT, AFD_DISCONNECT);
    EitherBit(afd, AFD_RECEIVE | AFD_ACCEPT | AFD_DISCONNECT, AFD_CONNECT_FAIL);
    EitherBit(afd, AFD_SEND, AFD_CONNECT_FAIL);
    EitherBit(afd, AFD_DISCONNECT, AFD_CONNECT_FAIL);
    assert ToEpoll(afd) == Collected(receive, expedited, send, disconnect, abort, failed);
    hide Collected, ToEpoll, When;
  }

  lemma EitherBit(mask: bv32, x: bv32, y: bv32)
    ensures Bit(mask, x | y) <==> Bit(mask, x) || Bit(mask, y)
  {
    assert mask & (x | y) == (mask & x) | (mask & y);
    assert forall u: bv32, v: bv32 :: Or(u, v) == 0 <==> u == 0 && v == 0;
    assert (mask & x) | (mask & y) == Or(mask & x, mask & y);
  }

  function Or(u: bv32, v: bv32): bv32 { u | v }

  function Collected(receive: bool, expedited: bool, send: bool, disconnect: bool, abort: bool, failed: bool): bv32 {
    When(receive, EPOLLIN | EPOLLRDNORM)
    | When(expedited, EPOLLPRI | EPOLLRDBAND)
    | When(send, EPOLLOUT | EPOLLWRNORM | EPOLLWRBAND)
    | When(disconnect, EPOLLIN | EPOLLRDNORM | EPOLLRDHUP)
    | When(abort, EPOLLHUP)
    | When(failed, EPOLLIN | EPOLLOUT | EPOLLERR | EPOLLRDNORM | EPOLLWRNORM | EPOLLRDHUP)
  }

  lemma SixSources(receive: bool, expedited: bool, send: bool, disconnect: bool, abort: bool, failed: bool)
    ensures var e := Collected(receive, expedited, send, disconnect, abort, failed);
            && (Bit(e, EPOLLIN) <==> receive || disconnect || failed) && (Bit(e, EPOLLRDNORM) <==> receive || disconnect || failed)
            && (Bit(e, EPOLLPRI) <==> expedited) && (Bit(e, EPOLLRDBAND) <==> expedited)
            && (Bit(e, EPOLLOUT) <==> send || failed) && (Bit(e, EPOLLWRNORM) <==> send || failed) && (Bit(e, EPOLLWRBAND) <==> send)
            && (Bit(e, EPOLLRDHUP) <==> disconnect || failed) && (Bit(e, EPOLLHUP) <==> abort) && (Bit(e, EPOLLERR) <==> failed)
            && e & !KNOWN == 0
  {
  }

  /** Nothing is monitored but the closing of the socket and what can yield a wanted event. */
  lemma MonitorsOnlyUseful(wanted: bv32, bit: bv32)
    requires bit == AFD_RECEIVE || bit == AFD_RECEIVE_EXPEDITED || bit == AFD_SEND || bit == AFD_DISCONNECT || bit == AFD_ABORT
             || bit == AFD_LOCAL_CLOSE || bit == AFD_ACCEPT || bit == AFD_CONNECT_FAIL
    ensures Bit(ToAfd(wanted), AFD_LOCAL_CLOSE) && ToAfd(wanted) & !0x1bf == 0
    ensures Bit(ToAfd(wanted), bit) && bit != AFD_LOCAL_CLOSE ==> Bit(wanted, ToEpoll(bit))
  {
  }
}
