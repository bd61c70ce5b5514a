/** A window probe carries an una that was never set. Here is a run, and a way to lose data from
    very many states, in which that una makes the peer forget a segment nobody received. */
module KcpStray {
  import opened Arithmetic
  import opened LittleEndian
  import opened KcpState
  import opened KcpStream
  import opened KcpSegments
  import opened KcpLink
  import opened KcpWire
  import opened KcpProtocol
  import opened KcpFlush
  import opened KcpRuns
  import opened KcpProgress

  // ---- the probe goes out ----

  /** The same probes with an una that acknowledges nothing. */
  function Tamed(u: Probes): Probes { Probes(u.clock, u.ask.(una := 0), u.tell.(una := 0)) }

  ghost predicate Storable(u: Probes) { u.clock < U32 && InWidth(u.ask) && InWidth(u.tell) }

  lemma StrayPackets(y: Endpoint, now: nat, u: Probes, p: Packet)
    requires p in UpdatePackets(y, now, u)
    ensures p in UpdatePackets(y, now, Tamed(u)) || p == ProbePacket(y, CMD_WASK, u.ask) || p == ProbePacket(y, CMD_WINS, u.tell)
  {
    hide AckPackets, PushPackets, ProbeTimer, SortSendQueue;
  }

  lemma StrayFits(y: Endpoint, x: Endpoint, now: nat, u: Probes)
    requires Paired(y, x) && now < U32 && Storable(u)
    ensures KcpWire.Sendable(UpdatePackets(y, now, u), y.cfg.mtu)
  {
    hide SndOk, Linked, Sent, Received, SortSendQueue, UpdatePackets, GoodPacket, InRange;
    AcksKnown(y, x);
    UpdatePacketsGood(y, x, now, Tamed(u));
    forall p | p in UpdatePackets(y, now, u) ensures InRange(p) && PacketSize(p) <= y.cfg.mtu {
      StrayPackets(y, now, u, p);
      if p in UpdatePackets(y, now, Tamed(u)) {
        GoodIsInRange(p, Numbered(y));
      } else {
        ProbeFits(y, u.ask, CMD_WASK);
        ProbeFits(y, u.tell, CMD_WINS);
      }
    }
  }

  lemma ProbeFits(y: Endpoint, u: Unset, cmd: nat)
    requires ValidConfig(y.cfg) && y.conv < U32 && InWidth(u) && cmd < U8
    ensures InRange(ProbePacket(y, cmd, u)) && PacketSize(ProbePacket(y, cmd, u)) <= y.cfg.mtu
  {
  }

  /** An endpoint that is about to announce its window writes the announcement. */
  lemma StrayWritten(y: Endpoint, x: Endpoint, now: nat, u: Probes) returns (i: nat)
    requires Paired(y, x) && now < U32 && Storable(u) && y.ctl.askTell
    ensures i < |Update(y, now, u).written| && ProbePacket(y, CMD_WINS, u.tell) in ParseAll(Update(y, now, u).written[i])
  {
    hide Local, WrittenGood, OneWay, SortSendQueue, UpdatePackets, Update, SendPackets, ParseAll, Packed;
    WrittenPacked(y, x);
    UpdateFromNumbered(y, now, u);
    StrayFits(y, x, now, u);
    TellIsSent(y, now, u);
    var end := PackedParse(Pool([], y.written), y.cfg.mtu, UpdatePackets(y, now, u));
    i := SomeDatagramHas(end.written, ProbePacket(y, CMD_WINS, u.tell));
  }

  lemma WrittenPacked(y: Endpoint, x: Endpoint)
    requires Paired(y, x)
    ensures Packed(Pool([], y.written), y.cfg.mtu, [], ParseDatagrams(y.written)) && ValidConfig(y.cfg)
  {
  }

  lemma TellIsSent(y: Endpoint, now: nat, u: Probes)
    requires y.ctl.askTell
    ensures ProbePacket(y, CMD_WINS, u.tell) in UpdatePackets(y, now, u)
  {
    hide AckPackets, PushPackets, SortSendQueue, Signed32;
  }

  // ---- and is read ----

  /** What a sender keeps whatever it reads. */
  ghost predicate Under(s: Snd) {
    && s.una <= s.nxt && (s.una == s.nxt ==> s.buf == [])
    && forall seg | seg in s.buf :: seg.sn < s.nxt
  }

  ghost predicate Emptied(s: Snd) { s.buf == [] && s.una == s.nxt }

  ghost predicate SameSender(e: Endpoint, e': Endpoint) {
    && e'.cfg == e.cfg && e'.convInit && e'.conv == e.conv
    && e'.snd.accepted == e.snd.accepted && e'.snd.queue == e.snd.queue && e'.snd.nxt == e.snd.nxt
  }

  lemma {:induction false} DropBelowIsPart(buf: seq<Seg>, una: nat)
    ensures forall seg | seg in DropBelow(buf, una) :: seg in buf
    ensures (forall seg | seg in buf :: seg.sn < una) ==> DropBelow(buf, una) == []
  {
    if buf != [] {
      assert buf[0] in buf;
      DropBelowIsPart(buf[1..], una);
    }
  }

  lemma {:induction false} EraseSnIsPart(buf: seq<Seg>, sn: nat)
    ensures forall seg | seg in EraseSn(buf, sn) :: seg in buf
  {
    if buf != [] {
      EraseSnIsPart(buf[1..], sn);
    }
  }

  lemma DropKeepsUnder(s: Snd, una: nat)
    requires Under(s)
    ensures Under(DropByUna(s, una)) && DropByUna(s, una).nxt == s.nxt && (s.nxt <= una ==> Emptied(DropByUna(s, una)))
  {
    DropBelowIsPart(s.buf, una);
    var rest := DropBelow(s.buf, una);
    assert rest != [] ==> rest[0] in rest;
  }

  lemma AckKeepsUnder(s: Snd, sn: nat)
    requires Under(s)
    ensures Under(DropByAck(s, sn)) && DropByAck(s, sn).nxt == s.nxt && (Emptied(s) ==> Emptied(DropByAck(s, sn)))
  {
    EraseSnIsPart(s.buf, sn);
    var rest := EraseSn(s.buf, sn);
    assert rest != [] ==> rest[0] in rest;
  }

  /** One packet: a probe with a stray una empties the buffer, and nothing fills it again. */
  lemma ReadOne(e: Endpoint, scan: Scan, p: Packet, now: nat)
    requires e.convInit && Under(e.snd)
    ensures var e' := HandlePacket(e, scan, p, now).0;
            && SameSender(e, e') && Under(e'.snd) && (Emptied(e.snd) ==> Emptied(e'.snd))
            && (p.conv == e.conv && p.cmd == CMD_WINS && e.snd.nxt <= p.una ==> Emptied(e'.snd))
  {
    DropKeepsUnder(e.snd, p.una);
    AckKeepsUnder(DropByUna(e.snd, p.una), p.sn);
    hide HandlePush, KcpRtt.UpdateRtt, Signed32, NoteAck, DropBelow, EraseSn, Under;
  }

  lemma {:induction false} ReadAll(e: Endpoint, scan: Scan, ps: seq<Packet>, now: nat)
    requires e.convInit && Under(e.snd)
    ensures var e' := HandlePackets(e, scan, ps, now).0;
            SameSender(e, e') && Under(e'.snd) && (Emptied(e.snd) ==> Emptied(e'.snd))
    decreases ps
  {
    hide HandlePacket, Under, Emptied;
    if ps != [] {
      ReadOne(e, scan, ps[0], now);
      var (e', scan') := HandlePacket(e, scan, ps[0], now);
      ReadAll(e', scan', ps[1..], now);
    }
  }

  lemma {:induction false} ReadProbe(e: Endpoint, scan: Scan, ps: seq<Packet>, now: nat, p: Packet)
    requires e.convInit && Under(e.snd) && p in ps && p.conv == e.conv && p.cmd == CMD_WINS && e.snd.nxt <= p.una
    ensures var e' := HandlePackets(e, scan, ps, now).0; SameSender(e, e') && Emptied(e'.snd)
    decreases ps
  {
    hide HandlePacket, Under, Emptied;
    ReadOne(e, scan, ps[0], now);
    var (e', scan') := HandlePacket(e, scan, ps[0], now);
    if ps[0] == p {
      ReadAll(e', scan', ps[1..], now);
    } else {
      ReadProbe(e', scan', ps[1..], now, p);
    }
  }

  /** After a datagram with such a probe nothing is in flight. */
  lemma InputEmpties(e: Endpoint, d: seq<byte>, now: nat, p: Packet)
    requires ValidConfig(e.cfg) && e.convInit && Under(e.snd)
    requires p in ParseAll(d) && p.conv == e.conv && p.cmd == CMD_WINS && e.snd.nxt <= p.una
    ensures SameSender(e, Input(e, d, now)) && Emptied(Input(e, d, now).snd)
  {
    ReadProbe(e, NoScan, ParseAll(d), now, p);
    HandlePacketsCfg(e, NoScan, ParseAll(d), now);
    hide HandlePackets, ParseAll, SortRecvBuf, DrainQueue;
  }

  // ---- a new segment is forgotten ----

  /** The only segment in flight is the one numbered last. */
  ghost predicate Single(s: Snd) { |s.buf| == 1 && s.buf[0].sn + 1 == s.nxt && s.una + 1 == s.nxt }

  /** A message of one byte, numbered while nothing else is in flight. */
  lemma NumberLast(x: Endpoint, now: nat)
    requires ValidConfig(x.cfg) && x.convInit && Emptied(x.snd) && x.snd.queue == [] && x.snd.nxt + x.cfg.sndWnd < U32
    ensures var x1 := Send(x, [0]);
            var x2 := Update(x1, now, NoStray(now));
            && x1.cfg == x.cfg && x2.cfg == x.cfg && x2.convInit && x2.conv == x.conv
            && Single(x2.snd) && Under(x2.snd) && x2.snd.nxt == x.snd.nxt + 1
  {
    hide Send, Update, SendWindow, SortSendQueue, Keys, Mss;
    var x1 := Send(x, [0]);
    ByteIsTaken(x);
    SendWindowFits(x1);
    UpdateFromNumbered(x1, now, NoStray(now));
    NumbersOne(x1.snd, SendWindow(x1));
    var buf, kept := Numbered(x1).snd.buf, Update(x1, now, NoStray(now)).snd.buf;
    KeysAt(buf, 0);
    KeysLength(buf);
    KeysLength(kept);
    KeysAt(kept, 0);
  }

  lemma ByteIsTaken(x: Endpoint)
    requires ValidConfig(x.cfg) && x.convInit && x.snd.queue == []
    ensures Send(x, [0]) == x.(snd := x.snd.(accepted := x.snd.accepted + [[0]], queue := [Frag(0, [0])]))
  {
    assert Fragments([0], Mss(x.cfg)) == [Frag(0, [0])];
    assert [] + [Frag(0, [0])] == [Frag(0, [0])];
    hide Fragments;
  }

  lemma NumbersOne(s: Snd, wnd: nat)
    requires |s.queue| == 1 && s.buf == [] && s.una == s.nxt && 1 <= wnd && s.nxt + wnd < U32
    ensures var n := SortSendQueue(s, wnd); |n.buf| == 1 && n.buf[0].sn == s.nxt && n.nxt == s.nxt + 1 && n.una == s.una
  {
    var next := NumberOne(s);
    assert SortSendQueue(next, wnd) == next;
  }

  lemma RunOn(sys: Sys, evs: seq<Event>, ev: Event)
    requires Configured(sys)
    ensures Configured(Run(sys, evs)) && Run(sys, evs + [ev]) == Apply(Run(sys, evs), ev)
    ensures ValidRun(sys, evs) && Enabled(Run(sys, evs), ev) ==> ValidRun(sys, evs + [ev])
  {
    assert (evs + [ev])[..|evs + [ev]| - 1] == evs;
    hide Apply, Enabled;
  }

  /** The probe of B goes out. */
  function Announce(now: nat, u: Probes): seq<Event> { [Tick(B, now, u)] }

  /** It arrives, a new message is numbered, and it arrives again. */
  function Forget(now: nat, which: nat): seq<Event> {
    [Arrive(A, which, now)] + [Submit(A, [0])] + [Tick(A, now, NoStray(now))] + [Arrive(A, which, now)]
  }

  /** After the probe with its unset fields went out, only enabled events, and a segment is forgotten. */
  ghost predicate Loses(sys: Sys, now: nat, u: Probes, which: nat)
    requires Configured(sys)
  {
    var mid := Run(sys, Announce(now, u));
    && Configured(mid) && ValidRun(mid, Forget(now, which))
    && var end := Run(sys, Announce(now, u) + Forget(now, which));
    !NeverForgets(end.a.snd, end.b.rcv)
  }

  lemma AnnounceRuns(sys: Sys, now: nat, u: Probes)
    requires Configured(sys)
    ensures Run(sys, Announce(now, u)) == Sys(sys.a, Update(sys.b, now, u)) && Configured(Run(sys, Announce(now, u)))
  {
    RunOn(sys, [], Tick(B, now, u));
    assert [] + [Tick(B, now, u)] == Announce(now, u);
    hide Update, ValidConfig;
  }

  lemma ForgetRuns(sys: Sys, now: nat, which: nat, x1: Endpoint, x2: Endpoint, x3: Endpoint)
    requires Configured(sys) && which < |sys.b.written| && now < U32
    requires x1 == Input(sys.a, sys.b.written[which], now) && ValidConfig(x1.cfg) && x2 == Send(x1, [0])
    requires ValidConfig(x2.cfg) && x3 == Update(x2, now, NoStray(now)) && ValidConfig(x3.cfg)
    ensures ValidRun(sys, Forget(now, which)) && Run(sys, Forget(now, which)) == Sys(Input(x3, sys.b.written[which], now), sys.b)
  {
    hide Update, Input, Send, ValidConfig, Run, ValidRun;
    var evs: seq<Event> := [];
    NoEvents(sys);
    RunOn(sys, evs, Arrive(A, which, now));
    evs := evs + [Arrive(A, which, now)];
    RunOn(sys, evs, Submit(A, [0]));
    evs := evs + [Submit(A, [0])];
    RunOn(sys, evs, Tick(A, now, NoStray(now)));
    evs := evs + [Tick(A, now, NoStray(now))];
    RunOn(sys, evs, Arrive(A, which, now));
    assert [] + [Arrive(A, which, now)] == [Arrive(A, which, now)];
    assert evs + [Arrive(A, which, now)] == Forget(now, which);
  }

  lemma NoEvents(sys: Sys)
    requires Configured(sys)
    ensures ValidRun(sys, []) && Run(sys, []) == sys
  {
  }

  lemma LossRuns(sys: Sys, now: nat, u: Probes, which: nat, y: Endpoint, x1: Endpoint, x2: Endpoint, x3: Endpoint)
    requires Configured(sys) && y == Update(sys.b, now, u) && which < |y.written| && now < U32
    requires x1 == Input(sys.a, y.written[which], now) && ValidConfig(x1.cfg) && x2 == Send(x1, [0])
    requires ValidConfig(x2.cfg) && x3 == Update(x2, now, NoStray(now)) && ValidConfig(x3.cfg)
    requires !NeverForgets(Input(x3, y.written[which], now).snd, y.rcv)
    ensures Loses(sys, now, u, which)
  {
    hide Update, Input, Send, ValidConfig, NeverForgets, Run, ValidRun, Announce, Forget;
    AnnounceRuns(sys, now, u);
    ForgetRuns(Run(sys, Announce(now, u)), now, which, x1, x2, x3);
    RunOnward(sys, Announce(now, u), Forget(now, which));
  }

  /** Whenever everything numbered has arrived and the receiver is about to announce its window, a
      stray una past what was numbered makes the sender forget the next segment. */
  lemma StrayProbeForgets(sys: Sys, now: nat, u: Probes) returns (which: nat)
    requires Inv(sys) && sys.b.ctl.askTell && sys.b.rcv.nxt == sys.a.snd.nxt && sys.a.snd.queue == []
    requires sys.a.convInit && sys.a.snd.nxt + sys.a.cfg.sndWnd < U32
    requires now < U32 && Storable(u) && sys.a.snd.nxt < u.tell.una
    ensures Configured(sys) && Loses(sys, now, u, which)
  {
    hide *;
    InvConfigured(sys);
    PairedAt(sys, A);
    ConfiguredAt(sys);
    AboutToTell(sys);
    var x, y := sys.a, sys.b;
    which := StrayWritten(y, x, now, u);
    var y1, p := Update(y, now, u), ProbePacket(y, CMD_WINS, u.tell);
    ProbeSays(y, u.tell);
    SenderIsUnder(x);
    var d := y1.written[which];
    InputEmpties(x, d, now, p);
    var x1 := Input(x, d, now);
    SameSenderFacts(x, x1);
    NumberLast(x1, now);
    var x2 := Send(x1, [0]);
    var x3 := Update(x2, now, NoStray(now));
    InputEmpties(x3, d, now, p);
    SameSenderFacts(x3, Input(x3, d, now));
    NextIsBuffered(x, y);
    UpdateKeepsReceived(y, now, u);
    Forgotten(Input(x3, d, now).snd, y1.rcv, y.rcv.nxt);
    LossRuns(sys, now, u, which, y1, x1, x2, x3);
  }

  lemma ConfiguredAt(sys: Sys)
    requires Configured(sys)
    ensures ValidConfig(sys.a.cfg) && ValidConfig(sys.b.cfg) && sys.At(A) == sys.a && sys.Peer(A) == sys.b
  {
    hide ValidConfig;
  }

  /** An endpoint that announces its window knows the conversation. */
  lemma AboutToTell(sys: Sys)
    requires Inv(sys) && sys.b.ctl.askTell && sys.a.convInit
    ensures Paired(sys.b, sys.a) && sys.b.conv == sys.a.conv
  {
    PairedSymmetric(sys.a, sys.b);
    hide SndOk, Linked, WrittenGood;
  }

  lemma ProbeSays(y: Endpoint, u: Unset)
    ensures var p := ProbePacket(y, CMD_WINS, u); p.conv == y.conv && p.cmd == CMD_WINS && p.una == u.una
  {
  }

  lemma SenderIsUnder(x: Endpoint)
    requires Local(x)
    ensures Under(x.snd)
  {
    var stream := Sent(x.snd, Mss(x.cfg));
    forall seg | seg in x.snd.buf ensures seg.sn < x.snd.nxt {
      OrderedAt(x.snd.buf, x.snd.una, x.snd.nxt, stream, seg);
    }
    OrderedLength(Keys(x.snd.buf), x.snd.una, x.snd.nxt, stream);
    KeysLength(x.snd.buf);
  }

  lemma SameSenderFacts(e: Endpoint, e': Endpoint)
    requires SameSender(e, e')
    ensures e'.cfg == e.cfg && e'.convInit && e'.conv == e.conv && e'.snd.queue == e.snd.queue && e'.snd.nxt == e.snd.nxt
  {
  }

  lemma UpdateKeepsReceived(y: Endpoint, now: nat, u: Probes)
    requires ValidConfig(y.cfg) && !Received(y.rcv, y.rcv.nxt)
    ensures !Received(Update(y, now, u).rcv, y.rcv.nxt)
  {
    UpdateFromNumbered(y, now, u);
    hide Update;
  }

  lemma Forgotten(s: Snd, r: Rcv, sn: nat)
    requires Emptied(s) && sn < s.nxt && !Received(r, sn)
    ensures !NeverForgets(s, r)
  {
    hide Received;
    assert !Has(Keys(s.buf), sn);
  }

  // ---- a run that gets there ----

  /** The largest message that send accepts fills the smallest receive window. */
  function Largest(mss: nat): seq<byte>
    requires mss > 0
  {
    seq(mss * WND_RCV - 1, _ => 0)
  }

  lemma LargestFills(mss: nat)
    requires mss >= 2
    ensures 0 < |Largest(mss)| < mss * WND_RCV && |Stream([Largest(mss)], mss)| == WND_RCV
  {
    FragmentsLength(Largest(mss), mss);
    assert [Largest(mss)][1..] == [] && Stream([], mss) == [];
    DivisionIsUnique(mss * WND_RCV - 1 + mss - 1, mss, WND_RCV, mss - 2);
    hide Fragments;
  }

  /** When the largest message has arrived, it was all there is and the receiver announces its window. */
  lemma FullyArrived(sys: Sys, end: Sys, t': nat)
    requires ValidConfig(sys.a.cfg) && Onward(sys, 0, end, t') && Asks(sys, end, A) && |sys.a.snd.accepted| == 1
    requires sys.b.cfg.rcvWnd == WND_RCV == Total(sys.a) == Total(end.a) <= end.b.rcv.nxt
    ensures end.b.ctl.askTell && end.a.convInit && end.b.rcv.nxt == end.a.snd.nxt == WND_RCV && end.a.snd.queue == []
  {
    OnwardInv(sys, 0, end, t');
    PairedAt(end, A);
    ReceiverBehind(end.a, end.b);
    hide CanReach, Inv, Small, OneWay, WrittenGood, Ordered, Keys, Stream, KcpStream.Sendable, Sent;
  }

  /** The largest message fills the window, so its arrival makes the receiver announce its window. */
  lemma WindowFills(cfgA: Config, cfgB: Config, conv: nat, any: nat) returns (start: Sys, before: seq<Event>)
    requires ValidConfig(cfgA) && ValidConfig(cfgB) && cfgB.rcvWnd == WND_RCV && cfgA.sndWnd + WND_RCV < U32
    requires conv < U32 && any < U32
    ensures start == Sys(Initial(cfgA, true, conv), Initial(cfgB, false, any)) && Configured(start) && ValidRun(start, before)
    ensures var sys := Run(start, before);
            && Inv(sys) && sys.a.cfg == cfgA && sys.a.convInit && sys.b.ctl.askTell
            && sys.b.rcv.nxt == sys.a.snd.nxt == WND_RCV && sys.a.snd.queue == []
  {
    hide Largest, First, Initial, Fragments, Run, ValidRun, Apply, Enabled, Inv, Onward, Small, Asks, Total;
    start := Sys(Initial(cfgA, true, conv), Initial(cfgB, false, any));
    InitialConfig(cfgA, cfgB, conv, any);
    var msg := Largest(Mss(cfgA));
    LargestFills(Mss(cfgA));
    SubmitFirst(cfgA, cfgB, conv, any, msg);
    FirstIsSmall(cfgA, cfgB, conv, any, msg);
    var sys := First(cfgA, cfgB, conv, any, msg);
    var end, t' := EverythingArrives(sys, A, 0);
    OnwardInv(sys, 0, end, t');
    TotalKept(sys, 0, end, t', A);
    var evs := WayTo(sys, end, t');
    RunConcat(start, [Submit(A, msg)], evs);
    before := [Submit(A, msg)] + evs;
    FullyArrived(sys, end, t');
  }

  /** A run from the start in which everything is as it should be, but for one announced window whose
      una was never set: a segment is forgotten. */
  lemma StrayUnaLosesData(cfgA: Config, cfgB: Config, conv: nat, any: nat, now: nat, u: Probes)
    returns (start: Sys, before: seq<Event>, which: nat)
    requires ValidConfig(cfgA) && ValidConfig(cfgB) && cfgB.rcvWnd == WND_RCV && cfgA.sndWnd + WND_RCV < U32
    requires conv < U32 && any < U32 && now < U32 && Storable(u) && WND_RCV < u.tell.una
    ensures Start(start) && Configured(start) && ValidRun(start, before) && Loses(Run(start, before), now, u, which)
  {
    hide Initial, Run, ValidRun, Inv, Storable, Loses, ValidConfig;
    start, before := WindowFills(cfgA, cfgB, conv, any);
    InitialConfig(cfgA, cfgB, conv, any);
    which := StrayProbeForgets(Run(start, before), now, u);
  }

  lemma {:induction false} RunOnward(sys: Sys, a: seq<Event>, b: seq<Event>)
    requires Configured(sys)
    ensures Configured(Run(sys, a)) && Run(sys, a + b) == Run(Run(sys, a), b)
    decreases |b|
  {
    hide Apply;
    if b == [] {
      assert a + b == a;
    } else {
      var c := b[..|b| - 1];
      RunOnward(sys, a, c);
      assert (a + b)[..|a + b| - 1] == a + c;
    }
  }
}
