/** No run gets stuck: from every reachable state, at any time, some schedule of timer turns and
    deliveries brings every accepted message to the other side. Its clock stands still but for the
    moments at which a segment falls due. */
module KcpProgress {
  import opened LittleEndian
  import opened KcpState
  import opened KcpStream
  import opened KcpSegments
  import opened KcpLink
  import opened KcpWire
  import opened KcpProtocol
  import opened KcpFlush
  import opened KcpRuns

  // ---- A timer turn transmits what is due ----

  /** Probes at this time whose unset fields happen to be 0. */
  function NoStray(now: nat): Probes { Probes(now, Unset(0, 0, 0, 0), Unset(0, 0, 0, 0)) }

  /** What is numbered sn is new or its timer has run out. */
  ghost predicate Due(x: Endpoint, sn: nat, now: nat) {
    forall seg | seg in Numbered(x).snd.buf && seg.sn == sn :: seg.xmit == 0 || seg.resendts <= now
  }

  lemma {:induction false} PushPacketsHave(e: Endpoint, buf: seq<Seg>, now: nat, i: nat)
    requires i < |buf| && TurnOf(buf[i], e.cfg, now) != Quiet
    ensures PushPacket(e, Transmit(buf[i], e.cfg, e.ctl.rtt.rto, now)) in PushPackets(e, buf, now)
  {
    if i > 0 {
      PushPacketsHave(e, buf[1..], now, i - 1);
    }
  }

  lemma {:induction false} HasAt(buf: seq<Seg>, sn: nat) returns (i: nat)
    requires Has(Keys(buf), sn)
    ensures i < |buf| && buf[i].sn == sn
  {
    if buf[0].sn == sn {
      i := 0;
    } else {
      i := HasAt(buf[1..], sn);
      i := i + 1;
    }
  }

  lemma SomeDatagramHas(ds: seq<seq<byte>>, p: Packet) returns (i: nat)
    requires p in ParseDatagrams(ds)
    ensures i < |ds| && p in ParseAll(ds[i])
  {
    if p in ParseAll(ds[|ds| - 1]) {
      i := |ds| - 1;
    } else {
      i := SomeDatagramHas(ds[..|ds| - 1], p);
    }
  }

  /** Every packet of a timer turn is in some datagram that the endpoint has written. */
  lemma UpdateWrites(x: Endpoint, y: Endpoint, now: nat, p: Packet) returns (i: nat)
    requires Paired(x, y) && now < U32
    requires p in UpdatePackets(x, now, NoStray(now))
    ensures var x' := Update(x, now, NoStray(now)); i < |x'.written| && p in ParseAll(x'.written[i])
  {
    hide SndOk, Linked, Sent, Received, SortSendQueue, UpdatePackets, Update, GoodPacket, SendPackets, ParseAll;
    UpdateFromNumbered(x, now, NoStray(now));
    AcksKnown(x, y);
    UpdatePacketsGood(x, y, now, NoStray(now));
    var ps := UpdatePackets(x, now, NoStray(now));
    assert KcpWire.Sendable(ps, x.cfg.mtu) by {
      forall q | q in ps ensures InRange(q) && PacketSize(q) <= x.cfg.mtu { GoodIsInRange(q, Numbered(x)); }
    }
    assert Packed(Pool([], x.written), x.cfg.mtu, [], ParseDatagrams(x.written));
    var end := PackedParse(Pool([], x.written), x.cfg.mtu, ps);
    i := SomeDatagramHas(end.written, p);
  }

  /** The time t, or a later moment at which a segment of x that was sent before falls due. */
  ghost predicate ComesTo(x: Endpoint, t: nat, now: nat) {
    t <= now < U32 && (now == t || exists seg :: seg in x.snd.buf && seg.resendts == now)
  }

  lemma {:induction false} LastDue(buf: seq<Seg>, sn: nat, t: nat) returns (now: nat)
    requires TimersFit(buf) && t < U32
    ensures t <= now < U32 && forall seg | seg in buf && seg.sn == sn :: seg.xmit == 0 || seg.resendts <= now
    ensures now == t || exists seg :: seg in buf && seg.xmit != 0 && seg.resendts == now
  {
    now := t;
    if buf != [] {
      now := LastDue(buf[1..], sn, t);
      if buf[0].sn == sn && buf[0].xmit != 0 && now < buf[0].resendts {
        now := buf[0].resendts;
        assert buf[0] in buf;
      } else if now != t {
        var seg :| seg in buf[1..] && seg.xmit != 0 && seg.resendts == now;
        assert seg in buf;
      }
    }
  }

  lemma {:induction false} NewOnesAreUnsent(s: Snd, cwnd: nat, seg: Seg)
    requires seg in SortSendQueue(s, cwnd).buf && seg.xmit != 0
    ensures seg in s.buf
    decreases |s.queue|
  {
    if s.queue != [] && s.nxt < WindowEnd(s.una, cwnd) {
      NewOnesAreUnsent(NumberOne(s), cwnd, seg);
    }
  }

  /** What is numbered sn is due now, or there is a moment at which it falls due. */
  lemma FallsDue(x: Endpoint, sn: nat, t: nat) returns (now: nat)
    requires Local(x) && t < U32
    ensures Due(x, sn, now) && ComesTo(x, t, now)
  {
    hide SndOk, SortSendQueue, TimersFit;
    SortTimers(x.snd, SendWindow(x));
    now := LastDue(Numbered(x).snd.buf, sn, t);
    if now != t {
      var seg :| seg in Numbered(x).snd.buf && seg.xmit != 0 && seg.resendts == now;
      NewOnesAreUnsent(x.snd, SendWindow(x), seg);
    }
  }

  /** The segment numbered sn goes out whenever it is in the buffer and due. */
  lemma SegmentGoesOut(x: Endpoint, sn: nat, now: nat) returns (p: Packet)
    requires Has(Keys(Numbered(x).snd.buf), sn) && Due(x, sn, now)
    ensures p in UpdatePackets(x, now, NoStray(now)) && p.cmd == CMD_PUSH && p.sn == sn
  {
    hide SortSendQueue, Keys;
    var buf := Numbered(x).snd.buf;
    var i := HasAt(buf, sn);
    PushPacketsHave(x, buf, now, i);
    p := PushPacket(x, Transmit(buf[i], x.cfg, x.ctl.rtt.rto, now));
  }

  // ---- What reading one packet of a datagram achieves ----

  /** A data packet in the window is received and will be acknowledged; an una that covers
      everything leaves nothing in flight. */
  ghost predicate Noted(x: Endpoint, p: Packet, wnd: nat) {
    && (p.cmd == CMD_PUSH && p.sn < wnd ==> Received(x.rcv, p.sn) && x.rcv.acks != [])
    && (p.una == x.snd.nxt ==> x.snd.una == x.snd.nxt)
  }

  lemma {:induction false} PacketsFrame(e: Endpoint, scan: Scan, ps: seq<Packet>, now: nat)
    ensures var e' := HandlePackets(e, scan, ps, now).0;
            e.rcv.acks <= e'.rcv.acks && e'.snd.nxt == e.snd.nxt && e'.rcv.nxt == e.rcv.nxt && e'.cfg == e.cfg
    decreases ps
  {
    if ps != [] {
      var (e', scan') := HandlePacket(e, scan, ps[0], now);
      PacketsFrame(e', scan', ps[1..], now);
    }
  }

  lemma PushIsNoted(x: Endpoint, y: Endpoint, scan: Scan, p: Packet, now: nat)
    requires ValidConfig(y.cfg) && GoodPacket(p, y) && SameConv(x, y) && p.cmd == CMD_PUSH
    requires Arriving(y.snd, x.rcv, Mss(y.cfg), x.cfg.rcvWnd)
    requires p.sn < WindowEnd(x.rcv.nxt, x.cfg.rcvWnd)
    ensures var x' := HandlePacket(x, scan, p, now).0; Received(x'.rcv, p.sn) && x'.rcv.acks != []
  {
    HandlePushOk(y.snd, x.rcv, p, Mss(y.cfg), x.cfg.rcvWnd);
    hide Received, Sent, Arriving, DropByUna;
  }

  lemma UnaIsNoted(x: Endpoint, y: Endpoint, scan: Scan, p: Packet, now: nat)
    requires Local(x) && ValidConfig(y.cfg) && GoodPacket(p, y) && SameConv(x, y) && CMD_PUSH <= p.cmd <= CMD_ACK && p.una == x.snd.nxt
    ensures HandlePacket(x, scan, p, now).0.snd.una == x.snd.nxt
  {
    DropAll(x.snd, x.cfg);
    var s := DropByUna(x.snd, p.una);
    assert DropByAck(s, p.sn).una == s.nxt;
    hide DropByUna, DropByAck, HandlePush, SndOk, Sent, Received;
  }

  lemma ReadingOnward(x0: Endpoint, x: Endpoint, y: Endpoint, scan: Scan)
    requires Reading(x0, x, y, scan)
    ensures Reading(x, x, y, scan)
  {
    GrowsReflexive(x);
  }

  lemma NotedStays(x: Endpoint, x': Endpoint, p: Packet, wnd: nat)
    requires ValidConfig(x.cfg) && Noted(x, p, wnd) && Grows(x, x') && x.rcv.acks <= x'.rcv.acks && x'.snd.nxt == x.snd.nxt
    requires x'.snd.una <= x'.snd.nxt
    ensures Noted(x', p, wnd)
  {
    hide Received, Sent;
  }

  lemma {:induction false} PacketsAreNoted(x0: Endpoint, x: Endpoint, y: Endpoint, scan: Scan, ps: seq<Packet>, now: nat, p: Packet)
    requires Reading(x0, x, y, scan) && (forall q | q in ps :: GoodPacket(q, y)) && p in ps && CMD_PUSH <= p.cmd <= CMD_ACK
    ensures Noted(HandlePackets(x, scan, ps, now).0, p, WindowEnd(x.rcv.nxt, x.cfg.rcvWnd))
    decreases ps
  {
    hide GoodPacket, HandlePacket, SndOk, Linked, Arriving, Received, Sent, TimersFit;
    HandlePacketOk(x0, x, y, scan, ps[0], now);
    var (x1, scan1) := HandlePacket(x, scan, ps[0], now);
    var x2 := HandlePackets(x1, scan1, ps[1..], now).0;
    PacketsFrame(x, scan, [ps[0]], now);
    assert HandlePackets(x, scan, [ps[0]], now) == (x1, scan1) by {
      assert [ps[0]][1..] == [];
      assert HandlePackets(x1, scan1, [], now) == (x1, scan1);
    }
    if ps[0] == p {
      if p.cmd == CMD_PUSH && p.sn < WindowEnd(x.rcv.nxt, x.cfg.rcvWnd) {
        PushIsNoted(x, y, scan, p, now);
      }
      if p.una == x.snd.nxt {
        UnaIsNoted(x, y, scan, p, now);
      }
      assert Noted(x1, p, WindowEnd(x.rcv.nxt, x.cfg.rcvWnd));
      ReadingOnward(x0, x1, y, scan1);
      HandlePacketsOk(x1, x1, y, scan1, ps[1..], now);
      PacketsFrame(x1, scan1, ps[1..], now);
      UnaBound(x2);
      NotedStays(x1, x2, p, WindowEnd(x.rcv.nxt, x.cfg.rcvWnd));
    } else {
      PacketsAreNoted(x0, x1, y, scan1, ps[1..], now, p);
    }
  }

  lemma UnaBound(x: Endpoint)
    requires Local(x)
    ensures x.snd.una <= x.snd.nxt
  {
  }

  /** Reading a datagram notes every packet in it. */
  lemma InputNotes(x: Endpoint, y: Endpoint, d: seq<byte>, now: nat, p: Packet)
    requires Paired(x, y) && d in y.written && p in ParseAll(d) && CMD_PUSH <= p.cmd <= CMD_ACK
    ensures Noted(Input(x, d, now), p, WindowEnd(x.rcv.nxt, x.cfg.rcvWnd)) && Input(x, d, now).snd.nxt == x.snd.nxt
    ensures Input(x, d, now).snd.accepted == x.snd.accepted && Input(x, d, now).snd.queue == x.snd.queue
  {
    var ps := ParseAll(d);
    assert Reading(x, x, y, NoScan) by { GrowsReflexive(x); }
    HandlePacketsCfg(x, NoScan, ps, now);
    hide GoodPacket, Local, Linked, Arriving, Received, Sent, HandlePackets, FinishInput, Grows, Noted;
    HandlePacketsOk(x, x, y, NoScan, ps, now);
    PacketsFrame(x, NoScan, ps, now);
    PacketsAreNoted(x, x, y, NoScan, ps, now, p);
    ConvBeforeData(x, NoScan, ps, now);
    QueueKept(x, NoScan, ps, now);
    var (x1, scan) := HandlePackets(x, NoScan, ps, now);
    ReadingOnward(x, x1, y, scan);
    FinishInputOk(x1, x1, y, scan, x.snd.una);
    var x2 := FinishInput(x1, scan, x.snd.una);
    FinishFrame(x1, scan, x.snd.una);
    UnaBound(x2);
    NotedStays(x1, x2, p, WindowEnd(x.rcv.nxt, x.cfg.rcvWnd));
  }

  lemma {:induction false} QueueKept(e: Endpoint, scan: Scan, ps: seq<Packet>, now: nat)
    ensures var e' := HandlePackets(e, scan, ps, now).0; e'.snd.queue == e.snd.queue && e'.snd.accepted == e.snd.accepted
    decreases ps
  {
    if ps != [] {
      var (e', scan') := HandlePacket(e, scan, ps[0], now);
      QueueKept(e', scan', ps[1..], now);
    }
  }

  lemma FinishFrame(e: Endpoint, scan: Scan, prevUna: nat)
    requires Local(e)
    ensures var e' := FinishInput(e, scan, prevUna);
            e'.rcv.acks == e.rcv.acks && e'.snd.nxt == e.snd.nxt && e'.snd.queue == e.snd.queue && e'.snd.accepted == e.snd.accepted
  {
    UpdateFastAckFrame(e.snd, scan.maxAck, scan.latestTs, e.cfg.conserve);
    OnDataFrame(e.rcv);
    hide UpdateFastAck, DrainQueue, SortRecvBuf, SndOk;
  }

  /** Acknowledging everything empties the send buffer. */
  lemma DropAll(s: Snd, cfg: Config)
    requires ValidConfig(cfg) && SndOk(s, cfg)
    ensures var s' := DropByUna(s, s.nxt); s'.una == s.nxt && s'.buf == []
  {
    DropBelowKeeps(s.buf, s.nxt, s.una, s.nxt, Sent(s, Mss(cfg)));
    if s.una < s.nxt {
      var rest := DropBelow(s.buf, s.nxt);
      assert rest == [];
    } else {
      OrderedLength(Keys(s.buf), s.una, s.nxt, Sent(s, Mss(cfg)));
      KeysLength(s.buf);
    }
  }

  // ---- Schedules ----

  /** When an event takes place, with t the time before it. */
  function TimeOf(ev: Event, t: nat): nat { if ev.Submit? then t else ev.now }

  function Clock(t: nat, evs: seq<Event>): nat {
    if evs == [] then t else TimeOf(evs[|evs| - 1], Clock(t, evs[..|evs| - 1]))
  }

  /** Nothing takes time but waiting for the next segment to fall due, whose side then has its turn. */
  ghost predicate Timely(sys: Sys, t: nat, ev: Event) {
    match ev
    case Submit(_, _) => true
    case Tick(side, now, u) => u.clock == now && ComesTo(sys.At(side), t, now)
    case Arrive(_, _, now) => now == t
  }

  ghost predicate TimelyRun(sys: Sys, t: nat, evs: seq<Event>)
    requires Configured(sys)
  {
    evs == [] ||
    (&& TimelyRun(sys, t, evs[..|evs| - 1])
     && Timely(Run(sys, evs[..|evs| - 1]), Clock(t, evs[..|evs| - 1]), evs[|evs| - 1]))
  }

  /** A schedule that starts at time t leads to `end` at time t'. */
  ghost predicate CanReach(sys: Sys, t: nat, end: Sys, t': nat) {
    Configured(sys) && exists evs :: ValidRun(sys, evs) && Run(sys, evs) == end && TimelyRun(sys, t, evs) && Clock(t, evs) == t'
  }

  lemma {:induction false} RunConcat(sys: Sys, a: seq<Event>, b: seq<Event>)
    requires Configured(sys) && ValidRun(sys, a) && ValidRun(Run(sys, a), b)
    ensures Run(sys, a + b) == Run(Run(sys, a), b) && ValidRun(sys, a + b)
    decreases |b|
  {
    hide Apply, Enabled;
    if b == [] {
      assert a + b == a;
    } else {
      var c := b[..|b| - 1];
      RunConcat(sys, a, c);
      assert (a + b)[..|a + b| - 1] == a + c;
    }
  }

  lemma {:induction false} TimelyConcat(sys: Sys, t: nat, a: seq<Event>, b: seq<Event>)
    requires Configured(sys) && ValidRun(sys, a) && ValidRun(Run(sys, a), b)
    requires TimelyRun(sys, t, a) && TimelyRun(Run(sys, a), Clock(t, a), b)
    ensures TimelyRun(sys, t, a + b) && Clock(t, a + b) == Clock(Clock(t, a), b)
    decreases |b|
  {
    hide Apply, Enabled, Timely;
    if b == [] {
      assert a + b == a;
    } else {
      var c := b[..|b| - 1];
      TimelyConcat(sys, t, a, c);
      RunConcat(sys, a, c);
      assert (a + b)[..|a + b| - 1] == a + c;
    }
  }

  lemma ReachTransitive(x: Sys, t: nat, y: Sys, t': nat, z: Sys, t'': nat)
    requires CanReach(x, t, y, t') && CanReach(y, t', z, t'')
    ensures CanReach(x, t, z, t'')
  {
    hide Run, ValidRun, TimelyRun, Clock;
    var a :| ValidRun(x, a) && Run(x, a) == y && TimelyRun(x, t, a) && Clock(t, a) == t';
    var b :| ValidRun(y, b) && Run(y, b) == z && TimelyRun(y, t', b) && Clock(t', b) == t'';
    RunConcat(x, a, b);
    TimelyConcat(x, t, a, b);
  }

  lemma ReachSelf(sys: Sys, t: nat)
    requires Configured(sys)
    ensures CanReach(sys, t, sys, t)
  {
    assert ValidRun(sys, []) && Run(sys, []) == sys && TimelyRun(sys, t, []) && Clock(t, []) == t;
  }

  lemma ReachByOne(sys: Sys, t: nat, ev: Event)
    requires Inv(sys) && Enabled(sys, ev) && Timely(sys, t, ev)
    ensures CanReach(sys, t, Apply(sys, ev), TimeOf(ev, t)) && Inv(Apply(sys, ev))
  {
    StepKeepsInv(sys, ev);
    InvConfigured(sys);
    hide Inv, Apply, Enabled, Grows, TimeOf, Timely;
    SingleRun(sys, ev);
    SingleTimely(sys, t, ev);
  }

  lemma SingleTimely(sys: Sys, t: nat, ev: Event)
    requires Configured(sys) && Timely(sys, t, ev)
    ensures TimelyRun(sys, t, [ev]) && Clock(t, [ev]) == TimeOf(ev, t)
  {
    hide Timely, TimeOf, ValidConfig;
    assert [ev][..|[ev]| - 1] == [];
    assert TimelyRun(sys, t, []) && Clock(t, []) == t && Run(sys, []) == sys;
  }

  lemma SingleRun(sys: Sys, ev: Event)
    requires Configured(sys) && Enabled(sys, ev)
    ensures ValidRun(sys, [ev]) && Run(sys, [ev]) == Apply(sys, ev)
  {
    hide Apply, Enabled, ValidConfig;
    assert [ev][..|[ev]| - 1] == [];
    assert Run(sys, []) == sys && ValidRun(sys, []);
  }

  lemma InvConfigured(sys: Sys)
    requires Inv(sys)
    ensures Configured(sys)
  {
  }

  function Total(e: Endpoint): nat
    requires ValidConfig(e.cfg)
  {
    |Stream(e.snd.accepted, Mss(e.cfg))|
  }

  /** What x has accepted, with the windows on either side of it, stays below 2^32. */
  ghost predicate Fitting(x: Endpoint, y: Endpoint) {
    ValidConfig(x.cfg) && Total(x) + x.cfg.sndWnd < U32 && Total(x) + y.cfg.rcvWnd < U32
  }

  ghost predicate Small(sys: Sys) { Configured(sys) && Fitting(sys.a, sys.b) && Fitting(sys.b, sys.a) }

  /** What a step of the schedule from `sys` to `end` keeps for the messages `side` sends. */
  ghost predicate Onward(sys: Sys, t: nat, end: Sys, t': nat) {
    && CanReach(sys, t, end, t') && t <= t' < U32 && Inv(end) && Small(end)
    && end.a.cfg == sys.a.cfg && end.b.cfg == sys.b.cfg
    && end.a.snd.accepted == sys.a.snd.accepted && end.b.snd.accepted == sys.b.snd.accepted
  }

  lemma OnwardTransitive(x: Sys, t: nat, y: Sys, t': nat, z: Sys, t'': nat)
    requires Onward(x, t, y, t') && Onward(y, t', z, t'')
    ensures Onward(x, t, z, t'')
  {
    hide CanReach, Inv, Small;
    ReachTransitive(x, t, y, t', z, t'');
  }

  lemma NumberedWithinTotal(x: Endpoint, y: Endpoint, now: nat)
    requires Paired(x, y)
    ensures x.rcv.nxt <= y.snd.nxt
    ensures Update(x, now, NoStray(now)).snd.accepted == x.snd.accepted
    ensures Update(x, now, NoStray(now)).snd.nxt == Numbered(x).snd.nxt
  {
    NumberedGrows(x, y);
    UpdateFromNumbered(x, now, NoStray(now));
    hide Update, Keys, Sent, Received, Linked, SortSendQueue, Ordered, UpdatePackets, SendPackets;
    assert Numbered(x).snd.nxt <= Total(x);
  }

  lemma TotalIgnoresOthers(x: Endpoint, x': Endpoint)
    requires ValidConfig(x.cfg) && x'.cfg == x.cfg && x'.snd.accepted == x.snd.accepted
    ensures Total(x') == Total(x)
  {
  }

  lemma OnwardByOne(sys: Sys, t: nat, ev: Event, x': Endpoint)
    requires Inv(sys) && Small(sys) && Enabled(sys, ev) && Apply(sys, ev) == sys.Set(ev.side, x')
    requires Timely(sys, t, ev) && t <= TimeOf(ev, t) < U32
    requires x'.cfg == sys.At(ev.side).cfg && x'.snd.accepted == sys.At(ev.side).snd.accepted
    ensures Onward(sys, t, sys.Set(ev.side, x'), TimeOf(ev, t))
  {
    hide Paired, Apply, Enabled, Total, ValidConfig, CanReach, TimeOf, Timely;
    ReachByOne(sys, t, ev);
    SmallConfigured(sys);
    TotalIgnoresOthers(sys.At(ev.side), x');
  }

  lemma SmallConfigured(sys: Sys)
    requires Small(sys)
    ensures ValidConfig(sys.a.cfg) && ValidConfig(sys.b.cfg)
  {
  }

  /** A timer turn at `side`. */
  lemma TickStep(sys: Sys, side: Side, t: nat, now: nat) returns (end: Sys)
    requires Inv(sys) && Small(sys) && ComesTo(sys.At(side), t, now)
    ensures Onward(sys, t, end, now) && end.At(side) == Update(sys.At(side), now, NoStray(now)) && end.Peer(side) == sys.Peer(side)
    ensures end.At(side).snd.nxt == Numbered(sys.At(side)).snd.nxt && end.At(side).rcv == sys.At(side).rcv.(acks := [])
    ensures sys.At(side).snd.nxt <= end.At(side).snd.nxt
  {
    PairedSymmetric(sys.a, sys.b);
    var x, y := sys.At(side), sys.Peer(side);
    var ev := Tick(side, now, NoStray(now));
    TickEnabled(sys, side, t, now);
    hide Paired, Update, Total, Onward, Numbered, Apply, Enabled, ComesTo, Timely;
    NumberedWithinTotal(x, y, now);
    TickFacts(x, y, now);
    end := sys.Set(side, Update(x, now, NoStray(now)));
    OnwardByOne(sys, t, ev, Update(x, now, NoStray(now)));
  }

  lemma TickEnabled(sys: Sys, side: Side, t: nat, now: nat)
    requires Configured(sys) && ComesTo(sys.At(side), t, now)
    ensures var ev := Tick(side, now, NoStray(now));
            Timely(sys, t, ev) && t <= TimeOf(ev, t) == now < U32 && Enabled(sys, ev) && Apply(sys, ev) == sys.Set(side, Update(sys.At(side), now, NoStray(now)))
  {
    hide Update;
  }

  lemma TickFacts(x: Endpoint, y: Endpoint, now: nat)
    requires Paired(x, y)
    ensures var x' := Update(x, now, NoStray(now));
            x'.cfg == x.cfg && x'.rcv == x.rcv.(acks := []) && x.snd.nxt <= Numbered(x).snd.nxt
  {
    UpdateFromNumbered(x, now, NoStray(now));
    NumberedGrows(x, y);
    hide Update, Keys, Sent, Received, Linked, SortSendQueue, Ordered, UpdatePackets, SendPackets;
  }

  /** Delivery at `side` of the peer's datagram that holds p. */
  lemma ArriveStep(sys: Sys, side: Side, which: nat, now: nat, p: Packet) returns (end: Sys)
    requires Inv(sys) && Small(sys) && which < |sys.Peer(side).written| && p in ParseAll(sys.Peer(side).written[which])
    requires CMD_PUSH <= p.cmd <= CMD_ACK && now < U32
    ensures Onward(sys, now, end, now) && end.Peer(side) == sys.Peer(side) && ValidConfig(sys.At(side).cfg)
    ensures end.At(side) == Input(sys.At(side), sys.Peer(side).written[which], now)
    ensures Noted(end.At(side), p, WindowEnd(sys.At(side).rcv.nxt, sys.At(side).cfg.rcvWnd))
    ensures end.At(side).snd.nxt == sys.At(side).snd.nxt && sys.At(side).rcv.nxt <= end.At(side).rcv.nxt
  {
    hide *;
    PairedAt(sys, side);
    var x, y := sys.At(side), sys.Peer(side);
    var d := y.written[which];
    PairedConfigs(x, y);
    ArriveEnabled(sys, side, which, now);
    InputNotes(x, y, d, now, p);
    InputGrows(x, y, d, now);
    var x' := Input(x, d, now);
    end := sys.Set(side, x');
    SetSides(sys, side, x');
    OnwardByOne(sys, now, Arrive(side, which, now), x');
  }

  lemma ArriveEnabled(sys: Sys, side: Side, which: nat, now: nat)
    requires ValidConfig(sys.At(side).cfg) && ValidConfig(sys.Peer(side).cfg) && which < |sys.Peer(side).written| && now < U32
    ensures Configured(sys)
    ensures var ev := Arrive(side, which, now);
            && Enabled(sys, ev) && Timely(sys, now, ev) && TimeOf(ev, now) == now
            && Apply(sys, ev) == sys.Set(side, Input(sys.At(side), sys.Peer(side).written[which], now))
  {
    hide Input, ValidConfig;
  }

  lemma SetSides(sys: Sys, side: Side, x: Endpoint)
    ensures sys.Set(side, x).At(side) == x && sys.Set(side, x).Peer(side) == sys.Peer(side)
  {
  }

  lemma InputGrows(x: Endpoint, y: Endpoint, d: seq<byte>, now: nat)
    requires Paired(x, y) && d in y.written
    ensures Input(x, d, now).cfg == x.cfg && x.rcv.nxt <= Input(x, d, now).rcv.nxt
  {
    InputOk(x, y, d, now);
    hide Paired, Input, Received, Sent;
  }

  // ---- The schedule ----

  function Other(side: Side): Side { if side == A then B else A }

  lemma OtherSide(sys: Sys, side: Side)
    ensures sys.Peer(Other(side)) == sys.At(side) && sys.At(Other(side)) == sys.Peer(side)
  {
  }

  lemma PairedAt(sys: Sys, side: Side)
    requires Inv(sys)
    ensures Paired(sys.At(side), sys.Peer(side)) && Paired(sys.Peer(side), sys.At(side))
    ensures Local(sys.At(side)) && Local(sys.Peer(side)) && OneWay(sys.At(side), sys.Peer(side))
  {
    PairedSymmetric(sys.a, sys.b);
    hide Local, WrittenGood, OneWay;
  }

  lemma SmallAt(sys: Sys, side: Side)
    requires Small(sys)
    ensures Fitting(sys.At(side), sys.Peer(side)) && Fitting(sys.Peer(side), sys.At(side))
  {
    hide Total;
  }

  /** rcv_nxt is never received yet; below snd_nxt it is still in the send buffer. */
  lemma NextIsBuffered(x: Endpoint, y: Endpoint)
    requires Local(x) && OneWay(x, y)
    ensures !Received(y.rcv, y.rcv.nxt)
    ensures y.rcv.nxt < x.snd.nxt ==> Has(Keys(x.snd.buf), y.rcv.nxt)
  {
    HeadPast(x.snd, y.rcv, Mss(x.cfg), y.cfg.rcvWnd);
  }

  lemma NextAdvances(x: Endpoint, y: Endpoint, y': Endpoint)
    requires Local(x) && OneWay(x, y') && y.rcv.nxt <= y'.rcv.nxt && Received(y'.rcv, y.rcv.nxt)
    ensures y.rcv.nxt < y'.rcv.nxt
  {
    NextIsBuffered(x, y');
  }

  /** The receiver has handed over its only message so far and announces its window again, because
      the message filled it. */
  ghost predicate Asks(sys: Sys, end: Sys, side: Side)
    requires ValidConfig(sys.At(side).cfg)
  {
    var total := Total(sys.At(side));
    |sys.At(side).snd.accepted| == 1 && sys.Peer(side).cfg.rcvWnd <= total <= end.Peer(side).rcv.nxt ==> end.Peer(side).ctl.askTell
  }

  /** Reading the datagram that completes a message as large as the window. */
  lemma FilledWindowAsks(y: Endpoint, x: Endpoint, d: seq<byte>, now: nat)
    requires Paired(y, x) && d in x.written && |x.snd.accepted| == 1
    requires y.rcv.nxt < Total(x) <= Input(y, d, now).rcv.nxt && y.cfg.rcvWnd <= Total(x)
    ensures Input(y, d, now).ctl.askTell
  {
    var ps := ParseAll(d);
    assert Reading(y, y, x, NoScan) by { GrowsReflexive(y); }
    HandlePacketsCfg(y, NoScan, ps, now);
    hide GoodPacket, Local, Linked, Arriving, Received, Sent, HandlePackets, Grows, Total;
    HandlePacketsOk(y, y, x, NoScan, ps, now);
    PacketsFrame(y, NoScan, ps, now);
    var (y1, scan) := HandlePackets(y, NoScan, ps, now);
    FinishAsks(y1, x, scan, y.snd.una);
  }

  lemma FinishAsks(y: Endpoint, x: Endpoint, scan: Scan, prevUna: nat)
    requires ValidConfig(y.cfg) && Local(x) && Arriving(x.snd, y.rcv, Mss(x.cfg), y.cfg.rcvWnd) && |x.snd.accepted| == 1
    requires y.rcv.nxt < Total(x) <= FinishInput(y, scan, prevUna).rcv.nxt && y.cfg.rcvWnd <= Total(x)
    ensures FinishInput(y, scan, prevUna).ctl.askTell
  {
    hide SndOk, Arriving, Linked, SortRecvBuf, DrainQueue, UpdateFastAck, KcpCongestion.Increase, Total;
    SortedFills(y, x);
  }

  /** The received fragments fill the window before they are handed over, and not after. */
  lemma SortedFills(y: Endpoint, x: Endpoint)
    requires ValidConfig(y.cfg) && Local(x) && Arriving(x.snd, y.rcv, Mss(x.cfg), y.cfg.rcvWnd) && |x.snd.accepted| == 1
    ensures var sorted := SortRecvBuf(y.rcv);
            && DrainQueue(sorted).nxt == sorted.nxt && |DrainQueue(sorted).queue| < y.cfg.rcvWnd
            && (y.rcv.nxt < Total(x) <= sorted.nxt ==> Total(x) <= |sorted.queue|)
  {
    hide SndOk, Ordered, NeverForgets, AcksReceived, SortRecvBuf, DrainQueue, InOrder, Received, PeekSize, Stream, Sent;
    var sorted := SortRecvBuf(y.rcv);
    SortRecvBufOk(x.snd, y.rcv, x.cfg, y.rcv.nxt + y.cfg.rcvWnd);
    OnDataOk(x.snd, y.rcv, x.cfg, y.cfg.rcvWnd);
    DrainQueueFrame(sorted);
    OneMessage(x.snd.accepted, y.rcv, Mss(x.cfg));
    OneMessage(x.snd.accepted, sorted, Mss(x.cfg));
  }

  lemma OneMessage(accepted: seq<seq<byte>>, r: Rcv, mss: nat)
    requires mss > 0 && |accepted| == 1 && InOrder(accepted, r, mss)
    ensures r.nxt < |Stream(accepted, mss)| ==> r.delivered == []
    ensures r.delivered == [] ==> r.nxt == |r.queue|
  {
    assert accepted[..1] == accepted && accepted[..0] == [];
    hide Fragments, Matches;
  }

  /** Retransmit and deliver segment sn of `side`. */
  lemma PushThrough(sys: Sys, side: Side, sn: nat, t: nat, now: nat) returns (mid: Sys, end: Sys, i: nat)
    requires Inv(sys) && Small(sys) && Has(Keys(Numbered(sys.At(side)).snd.buf), sn)
    requires ComesTo(sys.At(side), t, now) && Due(sys.At(side), sn, now)
    requires sn < WindowEnd(sys.Peer(side).rcv.nxt, sys.Peer(side).cfg.rcvWnd)
    ensures Onward(sys, t, mid, now) && Onward(sys, t, end, now) && ValidConfig(sys.Peer(side).cfg)
    ensures i < |mid.At(side).written| && end.Peer(side) == Input(sys.Peer(side), mid.At(side).written[i], now)
    ensures mid.At(side).snd.nxt == Numbered(sys.At(side)).snd.nxt
    ensures end.At(side) == mid.At(side) && mid.Peer(side) == sys.Peer(side)
    ensures Received(end.Peer(side).rcv, sn) && end.Peer(side).rcv.acks != []
    ensures sys.Peer(side).rcv.nxt <= end.Peer(side).rcv.nxt
  {
    hide *;
    PairedAt(sys, side);
    SmallAt(sys, side);
    FittingTotal(sys.At(side), sys.Peer(side));
    var x, y := sys.At(side), sys.Peer(side);
    mid := TickStep(sys, side, t, now);
    var p;
    OnwardInv(sys, t, mid, now);
    p, i := SegmentWritten(x, y, sn, now);
    OtherSide(mid, side);
    end := ArriveStep(mid, Other(side), i, now, p);
    OtherSide(end, side);
    OnwardTransitive(sys, t, mid, now, end, now);
    PushNoted(end.Peer(side), p, WindowEnd(y.rcv.nxt, y.cfg.rcvWnd));
  }

  lemma FittingTotal(x: Endpoint, y: Endpoint)
    requires Fitting(x, y)
    ensures ValidConfig(x.cfg) && Total(x) < U32
  {
    hide Total;
  }

  lemma PushNoted(x: Endpoint, p: Packet, wnd: nat)
    requires Noted(x, p, wnd) && p.cmd == CMD_PUSH && p.sn < wnd
    ensures Received(x.rcv, p.sn) && x.rcv.acks != []
  {
  }

  lemma SegmentWritten(x: Endpoint, y: Endpoint, sn: nat, now: nat) returns (p: Packet, i: nat)
    requires Paired(x, y) && Has(Keys(Numbered(x).snd.buf), sn)
    requires now < U32 && Due(x, sn, now)
    ensures var x' := Update(x, now, NoStray(now));
            i < |x'.written| && p in ParseAll(x'.written[i]) && p.sn == sn
            && p.cmd == CMD_PUSH && CMD_PUSH <= p.cmd <= CMD_ACK
  {
    hide Due, Received, Sent, SndOk, Linked, Update, Total, SortSendQueue, ParseAll, UpdatePackets, Numbered, Has;
    p := SegmentGoesOut(x, sn, now);
    NumberedWithinTotal(x, y, now);
    i := UpdateWrites(x, y, now, p);
  }

  lemma OnwardInv(sys: Sys, t: nat, end: Sys, t': nat)
    requires Onward(sys, t, end, t')
    ensures Inv(end) && Small(end) && t <= t' < U32
  {
  }

  /** While something numbered has not been received, a round brings the next segment over, at once if
      its retransmission is due, and otherwise as soon as it falls due. */
  lemma AdvanceRound(sys: Sys, side: Side, t: nat, now: nat) returns (end: Sys)
    requires Inv(sys) && Small(sys) && sys.Peer(side).rcv.nxt < sys.At(side).snd.nxt
    requires ComesTo(sys.At(side), t, now) && Due(sys.At(side), sys.Peer(side).rcv.nxt, now)
    ensures Onward(sys, t, end, now) && sys.Peer(side).rcv.nxt < end.Peer(side).rcv.nxt
    ensures ValidConfig(sys.At(side).cfg) && Asks(sys, end, side)
  {
    hide *;
    PairedAt(sys, side);
    SmallAt(sys, side);
    var x, y := sys.At(side), sys.Peer(side);
    NumberedBuffers(x, y);
    NextInWindow(x, y);
    FittingTotal(x, y);
    var mid, i;
    mid, end, i := PushThrough(sys, side, y.rcv.nxt, t, now);
    OnwardInv(sys, t, mid, now);
    OnwardInv(sys, t, end, now);
    PairedAt(mid, side);
    PairedAt(end, side);
    NextAdvances(end.At(side), y, end.Peer(side));
    TotalKept(sys, t, mid, now, side);
    PushAsks(sys, t, mid, end, side, i, now);
  }

  lemma PushAsks(sys: Sys, t: nat, mid: Sys, end: Sys, side: Side, i: nat, now: nat)
    requires Paired(mid.Peer(side), mid.At(side)) && i < |mid.At(side).written| && ValidConfig(sys.At(side).cfg)
    requires Onward(sys, t, mid, now) && mid.Peer(side) == sys.Peer(side) && end.Peer(side) == Input(mid.Peer(side), mid.At(side).written[i], now)
    requires sys.Peer(side).rcv.nxt < Total(sys.At(side)) == Total(mid.At(side))
    ensures Asks(sys, end, side)
  {
    hide Paired, Input, Total, CanReach, Inv, Small;
    var x := mid.At(side);
    if |sys.At(side).snd.accepted| == 1 && sys.Peer(side).cfg.rcvWnd <= Total(x) <= end.Peer(side).rcv.nxt {
      FilledWindowAsks(sys.Peer(side), x, x.written[i], now);
    }
  }

  /** The next segment lies in a window that does not wrap, and has been numbered at most as far as accepted. */
  lemma NextInWindow(x: Endpoint, y: Endpoint)
    requires Local(x) && Local(y) && OneWay(x, y) && Fitting(x, y)
    ensures y.rcv.nxt < WindowEnd(y.rcv.nxt, y.cfg.rcvWnd) && y.rcv.nxt <= x.snd.nxt <= Total(x)
  {
    hide Ordered, NeverForgets, AcksReceived, InOrder, Sent;
  }

  lemma NumberedBuffers(x: Endpoint, y: Endpoint)
    requires Local(x) && Local(y) && OneWay(x, y) && y.rcv.nxt < x.snd.nxt
    ensures Has(Keys(Numbered(x).snd.buf), y.rcv.nxt)
  {
    NumberedGrows(x, y);
    NextIsBuffered(x, y);
    hide SortSendQueue, Received, Ordered, Sent, Stream;
    assert NeverForgets(Numbered(x).snd, y.rcv);
  }

  /** With nothing in flight a timer turn numbers at least one waiting fragment. */
  lemma EmptyWindowNumbers(x: Endpoint, y: Endpoint)
    requires Local(x) && Local(y) && OneWay(x, y) && Fitting(x, y) && x.snd.una == x.snd.nxt < Total(x)
    ensures x.snd.nxt < Numbered(x).snd.nxt
  {
    SendWindowFits(x);
    SortSendQueueOk(x.snd, y.rcv, SendWindow(x), x.cfg, y.cfg.rcvWnd);
    hide Ordered, SortSendQueue, Linked, Sent, SendWindow, Keys;
    var s := Numbered(x).snd;
    if s.queue == [] {
      assert |Stream(s.accepted, Mss(x.cfg))[s.nxt..]| == 0;
    }
  }

  /** Nothing was numbered, so something is in flight: its head is in the buffer. */
  lemma HeadInFlight(x: Endpoint, y: Endpoint)
    requires Local(x) && Local(y) && OneWay(x, y) && Fitting(x, y)
    requires x.snd.nxt < Total(x) && Numbered(x).snd.nxt == x.snd.nxt
    ensures x.snd.una < x.snd.nxt && Has(Keys(Numbered(x).snd.buf), x.snd.una) && x.snd.una <= y.rcv.nxt
  {
    NumberedGrows(x, y);
    if x.snd.una == x.snd.nxt {
      EmptyWindowNumbers(x, y);
    }
    UnackedBehind(x.snd, y.rcv, x.cfg, y.cfg.rcvWnd);
    SortSendQueueOk(x.snd, y.rcv, SendWindow(x), x.cfg, y.cfg.rcvWnd);
    var s := Numbered(x).snd;
    assert s.una == x.snd.una && s.buf != [];
    hide SortSendQueue, Linked, Ordered, Sent;
  }

  /** Once everything numbered has arrived, a round of acknowledgement numbers something new. */
  lemma NumberRound(sys: Sys, side: Side, t: nat) returns (end: Sys, t': nat)
    requires Inv(sys) && Small(sys) && t < U32
    requires sys.Peer(side).rcv.nxt == sys.At(side).snd.nxt < Total(sys.At(side))
    ensures Onward(sys, t, end, t') && sys.Peer(side).rcv.nxt <= end.Peer(side).rcv.nxt < end.At(side).snd.nxt
  {
    hide *;
    PairedAt(sys, side);
    SmallAt(sys, side);
    var x, y := sys.At(side), sys.Peer(side);
    AtOnce(x, t);
    t' := t;
    end := TickStep(sys, side, t, t);
    if end.At(side).snd.nxt == x.snd.nxt {
      HeadInFlight(x, y);
      NextInWindow(x, y);
      t' := FallsDue(x, x.snd.una, t);
      var mid, sys1, i;
      mid, sys1, i := PushThrough(sys, side, x.snd.una, t, t');
      OnwardInv(sys, t, sys1, t');
      PairedAt(sys1, side);
      ReceiverBehind(sys1.At(side), sys1.Peer(side));
      var sys2 := AckRound(sys1, side, t');
      OnwardTransitive(sys, t, sys1, t', sys2, t');
      OnwardInv(sys, t, sys2, t');
      TotalKept(sys, t, sys2, t', side);
      end := TickEmpty(sys2, side, t');
      OnwardTransitive(sys, t, sys2, t', end, t');
    }
  }

  lemma AtOnce(x: Endpoint, t: nat)
    requires t < U32
    ensures ComesTo(x, t, t)
  {
  }

  lemma TotalKept(sys: Sys, t: nat, end: Sys, t': nat, side: Side)
    requires Small(sys) && Onward(sys, t, end, t')
    ensures Total(end.At(side)) == Total(sys.At(side)) && end.At(side).cfg == sys.At(side).cfg
  {
    TotalIgnoresOthers(sys.At(side), end.At(side));
  }

  lemma TickEmpty(sys: Sys, side: Side, t: nat) returns (end: Sys)
    requires Inv(sys) && Small(sys) && t < U32 && sys.At(side).snd.una == sys.At(side).snd.nxt
    ensures Onward(sys, t, end, t) && end.Peer(side) == sys.Peer(side) && sys.At(side).snd.nxt <= end.At(side).snd.nxt
    ensures sys.At(side).snd.nxt < Total(sys.At(side)) ==> sys.At(side).snd.nxt < end.At(side).snd.nxt
  {
    PairedAt(sys, side);
    SmallAt(sys, side);
    hide *;
    AtOnce(sys.At(side), t);
    end := TickStep(sys, side, t, t);
    if sys.At(side).snd.nxt < Total(sys.At(side)) {
      EmptyWindowNumbers(sys.At(side), sys.Peer(side));
    }
  }

  /** The peer has an acknowledgement to send and has received everything: after it sends and
      `side` reads, nothing is in flight. */
  lemma AckRound(sys: Sys, side: Side, t: nat) returns (end: Sys)
    requires Inv(sys) && Small(sys) && t < U32
    requires sys.Peer(side).rcv.acks != [] && sys.Peer(side).rcv.nxt == sys.At(side).snd.nxt
    ensures Onward(sys, t, end, t)
    ensures end.At(side).snd.una == end.At(side).snd.nxt == sys.At(side).snd.nxt && end.Peer(side).rcv.nxt == sys.Peer(side).rcv.nxt
  {
    hide *;
    PairedAt(sys, side);
    SmallAt(sys, side);
    var x, y := sys.At(side), sys.Peer(side);
    FittingTotal(y, x);
    OtherSide(sys, side);
    AtOnce(y, t);
    var mid := TickStep(sys, Other(side), t, t);
    var p, i := AckWritten(y, x, t);
    OtherSide(mid, side);
    OnwardInv(sys, t, mid, t);
    end := ArriveStep(mid, side, i, t, p);
    OnwardTransitive(sys, t, mid, t, end, t);
    UnaNoted(end.At(side), p, WindowEnd(x.rcv.nxt, x.cfg.rcvWnd));
  }

  lemma UnaNoted(x: Endpoint, p: Packet, wnd: nat)
    requires Noted(x, p, wnd) && p.una == x.snd.nxt
    ensures x.snd.una == x.snd.nxt
  {
  }

  lemma AckWritten(y: Endpoint, x: Endpoint, now: nat) returns (p: Packet, i: nat)
    requires Paired(y, x) && y.rcv.acks != [] && now < U32
    ensures var y' := Update(y, now, NoStray(now));
            i < |y'.written| && p in ParseAll(y'.written[i]) && p.una == y.rcv.nxt
            && CMD_PUSH <= p.cmd <= CMD_ACK
  {
    hide Received, Sent, SndOk, Linked, Update, Total, SortSendQueue, ParseAll, UpdatePackets, Numbered;
    p := AckPacket(y, y.rcv.acks[0]);
    FirstAckOut(y, now);
    NumberedWithinTotal(y, x, now);
    i := UpdateWrites(y, x, now, p);
  }

  lemma FirstAckOut(y: Endpoint, now: nat)
    requires y.rcv.acks != []
    ensures AckPacket(y, y.rcv.acks[0]) in UpdatePackets(y, now, NoStray(now))
  {
    assert AckPacket(y, y.rcv.acks[0]) == AckPackets(y, y.rcv.acks)[0];
    hide PushPackets, SortSendQueue, ProbePackets;
  }

  /** From every state a run reaches, at any time, some schedule delivers every accepted message. */
  lemma {:induction false} EverythingCanBeDelivered(sys: Sys, side: Side, t: nat) returns (end: Sys, t': nat)
    requires Inv(sys) && Small(sys) && t < U32
    ensures CanReach(sys, t, end, t') && t <= t' < U32 && end.At(side).snd.accepted == sys.At(side).snd.accepted
    ensures |end.Peer(side).rcv.delivered| == |end.At(side).snd.accepted|
  {
    hide *;
    end, t' := EverythingArrives(sys, side, t);
    OnwardReaches(sys, t, end, t', side);
    PairedAt(end, side);
    AllDelivered(end.At(side), end.Peer(side));
  }

  lemma OnwardReaches(sys: Sys, t: nat, end: Sys, t': nat, side: Side)
    requires Onward(sys, t, end, t')
    ensures CanReach(sys, t, end, t') && t <= t' < U32 && Inv(end) && end.At(side).snd.accepted == sys.At(side).snd.accepted
  {
    hide CanReach, Inv, Small;
  }

  lemma {:induction false} EverythingArrives(sys: Sys, side: Side, t: nat) returns (end: Sys, t': nat)
    requires Inv(sys) && Small(sys) && t < U32
    ensures ValidConfig(sys.At(side).cfg) && Onward(sys, t, end, t')
    ensures end.At(side).cfg == sys.At(side).cfg && end.Peer(side).rcv.nxt >= Total(end.At(side)) == Total(sys.At(side))
    ensures if sys.Peer(side).rcv.nxt < Total(sys.At(side)) then Asks(sys, end, side) else end == sys
    decreases if Small(sys) then Total(sys.At(side)) - sys.Peer(side).rcv.nxt else 0
  {
    hide Inv, Onward, Total, Asks, Small;
    SmallAt(sys, side);
    FittingTotal(sys.At(side), sys.Peer(side));
    if sys.Peer(side).rcv.nxt >= Total(sys.At(side)) {
      OnwardSelf(sys, t);
      end, t' := sys, t;
    } else {
      var next, now := AnyRound(sys, side, t);
      OnwardInv(sys, t, next, now);
      TotalKept(sys, t, next, now, side);
      end, t' := EverythingArrives(next, side, now);
      AsksOn(sys, t, next, now, end, side);
      OnwardTransitive(sys, t, next, now, end, t');
      TotalKept(sys, t, end, t', side);
    }
  }

  lemma AsksOn(sys: Sys, t: nat, next: Sys, now: nat, end: Sys, side: Side)
    requires ValidConfig(sys.At(side).cfg) && Onward(sys, t, next, now) && next.At(side).cfg == sys.At(side).cfg
    requires Total(next.At(side)) == Total(sys.At(side)) && Asks(sys, next, side)
    requires next.Peer(side).rcv.nxt < Total(next.At(side)) ==> Asks(next, end, side)
    requires next.Peer(side).rcv.nxt >= Total(next.At(side)) ==> end == next
    ensures Asks(sys, end, side)
  {
    hide CanReach, Inv, Small, Total;
  }

  lemma OnwardSelf(sys: Sys, t: nat)
    requires Inv(sys) && Small(sys) && t < U32
    ensures Onward(sys, t, sys, t)
  {
    ReachSelf(sys, t);
  }

  lemma AnyRound(sys: Sys, side: Side, t: nat) returns (end: Sys, t': nat)
    requires Inv(sys) && Small(sys) && t < U32
    requires ValidConfig(sys.At(side).cfg) && sys.Peer(side).rcv.nxt < Total(sys.At(side))
    ensures Onward(sys, t, end, t') && sys.Peer(side).rcv.nxt < end.Peer(side).rcv.nxt && Asks(sys, end, side)
  {
    hide *;
    PairedAt(sys, side);
    ReceiverBehind(sys.At(side), sys.Peer(side));
    if sys.Peer(side).rcv.nxt < sys.At(side).snd.nxt {
      t' := FallsDue(sys.At(side), sys.Peer(side).rcv.nxt, t);
      end := AdvanceRound(sys, side, t, t');
    } else {
      var mid, now := NumberRound(sys, side, t);
      OnwardInv(sys, t, mid, now);
      PairedAt(mid, side);
      t' := FallsDue(mid.At(side), mid.Peer(side).rcv.nxt, now);
      end := AdvanceRound(mid, side, now, t');
      TotalKept(sys, t, mid, now, side);
      AsksLater(sys, t, mid, now, end, side);
      OnwardTransitive(sys, t, mid, now, end, t');
    }
  }

  lemma AsksLater(sys: Sys, t: nat, mid: Sys, now: nat, end: Sys, side: Side)
    requires ValidConfig(sys.At(side).cfg) && ValidConfig(mid.At(side).cfg) && Onward(sys, t, mid, now)
    requires Total(mid.At(side)) == Total(sys.At(side)) && Asks(mid, end, side)
    ensures Asks(sys, end, side)
  {
    hide CanReach, Inv, Small, Total;
  }

  lemma AllDelivered(x: Endpoint, y: Endpoint)
    requires Local(x) && OneWay(x, y) && y.rcv.nxt >= Total(x)
    ensures |y.rcv.delivered| == |x.snd.accepted|
  {
    hide Ordered, NeverForgets, AcksReceived, InOrder, PeekSize, Stream, KcpStream.Sendable, Keys;
    AllHandedOver(x.snd.accepted, y.rcv, Mss(x.cfg));
  }

  /** A receiver that has the whole stream, and no complete message waiting, has handed over everything. */
  lemma AllHandedOver(accepted: seq<seq<byte>>, r: Rcv, mss: nat)
    requires mss > 0 && KcpStream.Sendable(accepted, mss) && InOrder(accepted, r, mss)
    requires PeekSize(r.queue) == 0 && r.nxt >= |Stream(accepted, mss)|
    ensures |r.delivered| == |accepted|
  {
    hide Stream, Fragments, Matches, LastFragment, SizeUpTo, FragCount;
    var k := |r.delivered|;
    assert accepted[..k] + accepted[k..] == accepted;
    StreamAppend(accepted[..k], accepted[k..], mss);
    assert r.queue == Stream(accepted[k..], mss);
    if k < |accepted| {
      assert accepted[k] in accepted;
      MessageWaits(accepted[k..], mss);
      assert false;
    }
  }

  /** The stream of some messages starts with a complete one. */
  lemma MessageWaits(msgs: seq<seq<byte>>, mss: nat)
    requires mss > 0 && msgs != [] && 0 < |msgs[0]|
    ensures PeekSize(Stream(msgs, mss)) > 0
  {
    hide Fragments, LastFragment, SizeUpTo;
    FrontMessage(msgs[0], mss, Stream(msgs[1..], mss));
  }

  // ---- The first message ----

  /** The endpoints after a first message was accepted. */
  function First(cfgA: Config, cfgB: Config, conv: nat, any: nat, msg: seq<byte>): Sys
    requires ValidConfig(cfgA)
  {
    Sys(Initial(cfgA, true, conv).(snd := Snd([msg], Fragments(msg, Mss(cfgA)), [], 0, 0)), Initial(cfgB, false, any))
  }

  lemma SubmitFirst(cfgA: Config, cfgB: Config, conv: nat, any: nat, msg: seq<byte>)
    requires ValidConfig(cfgA) && ValidConfig(cfgB) && conv < U32 && any < U32 && 0 < |msg| < Mss(cfgA) * WND_RCV
    ensures var start := Sys(Initial(cfgA, true, conv), Initial(cfgB, false, any));
            var ev, first := Submit(A, msg), First(cfgA, cfgB, conv, any, msg);
            && Inv(start) && Start(start) && Configured(start)
            && ValidRun(start, [ev]) && Run(start, [ev]) == first && Inv(first)
  {
    hide Fragments, Paired;
    var start := Sys(Initial(cfgA, true, conv), Initial(cfgB, false, any));
    StartPaired(cfgA, cfgB, true, false, conv, any);
    SingleRun(start, Submit(A, msg));
    ReachByOne(start, 0, Submit(A, msg));
    var fs := Fragments(msg, Mss(cfgA));
    assert [] + fs == fs;
  }

  lemma InitialConfig(cfgA: Config, cfgB: Config, conv: nat, any: nat)
    ensures Initial(cfgA, true, conv).cfg == cfgA && Initial(cfgB, false, any).cfg == cfgB
  {
  }

  lemma FirstIsSmall(cfgA: Config, cfgB: Config, conv: nat, any: nat, msg: seq<byte>)
    requires ValidConfig(cfgA) && ValidConfig(cfgB) && cfgA.sndWnd + WND_RCV < U32 && 0 < |msg| < Mss(cfgA) * WND_RCV
    ensures var sys := First(cfgA, cfgB, conv, any, msg);
            && Small(sys) && Total(sys.a) == |Stream([msg], Mss(cfgA))| && sys.a.snd.accepted == [msg]
            && sys.a.cfg == cfgA && sys.b.cfg == cfgB && sys.b.rcv.nxt == 0
  {
    FragmentsFit(msg, Mss(cfgA));
    assert [msg][1..] == [] && Stream([], Mss(cfgA)) == [];
    hide Fragments;
  }

  lemma WayTo(sys: Sys, end: Sys, t': nat) returns (evs: seq<Event>)
    requires Onward(sys, 0, end, t')
    ensures Configured(sys) && ValidRun(sys, evs) && Run(sys, evs) == end
  {
    hide Run, ValidRun, Inv, Small;
    evs :| ValidRun(sys, evs) && Run(sys, evs) == end;
  }

  /** A message of several fragments arrives as a buffer of its size with its last fragment in front. */
  lemma SplitMessageIsSpoiled(cfgA: Config, cfgB: Config, conv: nat, any: nat, msg: seq<byte>) returns (start: Sys, evs: seq<Event>)
    requires ValidConfig(cfgA) && ValidConfig(cfgB) && cfgA.sndWnd + WND_RCV < U32 && conv < U32 && any < U32
    requires Mss(cfgA) < |msg| < Mss(cfgA) * WND_RCV
    ensures Start(start) && Configured(start) && ValidRun(start, evs)
    ensures var end := Run(start, evs);
            && end.a.snd.accepted == [msg] && |end.b.rcv.delivered| == 1
            && var d := end.b.rcv.delivered[0];
            d.size == |msg| && 0 < |d.head| <= |msg| - Mss(cfgA) && d.head == msg[|msg| - |d.head|..]
  {
    hide *;
    start := Sys(Initial(cfgA, true, conv), Initial(cfgB, false, any));
    SubmitFirst(cfgA, cfgB, conv, any, msg);
    FirstIsSmall(cfgA, cfgB, conv, any, msg);
    var sys := First(cfgA, cfgB, conv, any, msg);
    var end, t' := EverythingArrives(sys, A, 0);
    OnwardReaches(sys, 0, end, t', A);
    PairedAt(end, A);
    SidesOf(sys);
    SidesOf(end);
    AllDelivered(end.a, end.b);
    var more := WayTo(sys, end, t');
    RunConcat(start, [Submit(A, msg)], more);
    evs := [Submit(A, msg)] + more;
    LastFragmentArrives(end.a, end.b, msg);
  }

  lemma SidesOf(sys: Sys)
    ensures sys.At(A) == sys.a && sys.Peer(A) == sys.b
  {
  }

  lemma LastFragmentArrives(x: Endpoint, y: Endpoint, msg: seq<byte>)
    requires Local(x) && OneWay(x, y) && x.snd.accepted == [msg] && |y.rcv.delivered| == 1 && Mss(x.cfg) < |msg|
    ensures var d := y.rcv.delivered[0];
            d.size == |msg| && 0 < |d.head| <= |msg| - Mss(x.cfg) && d.head == msg[|msg| - |d.head|..]
  {
    hide Ordered, NeverForgets, Fragments, Stream, KcpStream.Sendable;
    assert Matches(y.rcv.delivered[0], x.snd.accepted[0], Mss(x.cfg));
    LastOfSplit(msg, Mss(x.cfg));
  }

  lemma {:induction false} LastOfSplit(msg: seq<byte>, mss: nat)
    requires 0 < mss < |msg|
    ensures var fs := Fragments(msg, mss);
            && fs != [] && var last := fs[|fs| - 1].data;
            0 < |last| <= |msg| - mss && last == msg[|msg| - |last|..]
    decreases |msg|
  {
    hide FragCount;
    var fs, rest := Fragments(msg, mss), msg[mss..];
    var tail := Fragments(rest, mss);
    if |rest| > mss {
      LastOfSplit(rest, mss);
    }
    assert tail != [] && fs[|fs| - 1] == tail[|tail| - 1];
    var n := |tail[|tail| - 1].data|;
    assert rest[|rest| - n..] == msg[|msg| - n..];
  }

  /** mss zero bytes and a one: two fragments. */
  function TwoFragments(mss: nat): seq<byte> { seq(mss, _ => 0) + [1] }

  /** A message of two fragments that is delivered, but never as it was sent. */
  lemma TwoFragmentsArriveWrong(cfgA: Config, cfgB: Config, conv: nat, any: nat) returns (start: Sys, evs: seq<Event>)
    requires ValidConfig(cfgA) && ValidConfig(cfgB) && cfgA.sndWnd + WND_RCV < U32 && conv < U32 && any < U32
    ensures Start(start) && Configured(start) && ValidRun(start, evs)
    ensures var end := Run(start, evs);
            && |end.a.snd.accepted| == 1 == |end.b.rcv.delivered|
            && forall buffer: seq<byte> | |buffer| == end.b.rcv.delivered[0].size && end.b.rcv.delivered[0].head <= buffer ::
                 buffer != end.a.snd.accepted[0]
  {
    hide Run, ValidRun, Start, TwoFragments, ValidConfig;
    var msg := TwoFragments(Mss(cfgA));
    ShapeOfTwo(cfgA);
    start, evs := SplitMessageIsSpoiled(cfgA, cfgB, conv, any, msg);
    WrongFront(Run(start, evs).b.rcv.delivered[0], Mss(cfgA));
  }

  lemma WrongFront(d: Delivered, mss: nat)
    requires 0 < mss && var msg := TwoFragments(mss); d.size == |msg| && 0 < |d.head| <= |msg| - mss && d.head == msg[|msg| - |d.head|..]
    ensures forall buffer: seq<byte> | |buffer| == d.size && d.head <= buffer :: buffer != TwoFragments(mss)
  {
    assert TwoFragments(mss)[0] == 0;
    assert d.head[0] == 1;
  }

  lemma ShapeOfTwo(cfg: Config)
    requires ValidConfig(cfg)
    ensures var msg := TwoFragments(Mss(cfg)); Mss(cfg) < |msg| < Mss(cfg) * WND_RCV
  {
  }
}
