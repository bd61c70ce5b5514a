/** All runs of two endpoints over the network, and what holds in every state they reach. */
module KcpRuns {
  import opened LittleEndian
  import opened KcpState
  import opened KcpStream
  import opened KcpSegments
  import opened KcpLink
  import opened KcpWire
  import opened KcpProtocol
  import opened KcpFlush

  datatype Side = A | B

  /** The network is what each side has written: it never forgets a datagram, so it may deliver
      one again, out of order, late, or not at all. */
  datatype Sys = Sys(a: Endpoint, b: Endpoint) {
    function At(side: Side): Endpoint { if side == A then a else b }
    function Peer(side: Side): Endpoint { if side == A then b else a }
    function Set(side: Side, e: Endpoint): Sys { if side == A then Sys(e, b) else Sys(a, e) }
  }

  datatype Event =
    | Submit(side: Side, msg: seq<byte>)                         // the application calls send
    | Tick(side: Side, now: nat, u: Probes)                       // the timer, or the flush of a send, calls update
    | Arrive(side: Side, which: nat, now: nat)                   // datagram `which` of the peer reaches input

  ghost predicate Enabled(sys: Sys, ev: Event) {
    match ev
    case Submit(_, _) => true
    case Tick(side, now, u) => now < U32 && HarmlessProbes(u, sys.At(side))
    case Arrive(side, which, now) => which < |sys.Peer(side).written| && now < U32
  }

  function Apply(sys: Sys, ev: Event): Sys
    requires ValidConfig(sys.a.cfg) && ValidConfig(sys.b.cfg)
  {
    match ev
    case Submit(side, msg) => sys.Set(side, Send(sys.At(side), msg))
    case Tick(side, now, u) => sys.Set(side, Update(sys.At(side), now, u))
    case Arrive(side, which, now) =>
      if which < |sys.Peer(side).written| then sys.Set(side, Input(sys.At(side), sys.Peer(side).written[which], now)) else sys
  }

  ghost predicate Configured(sys: Sys) { ValidConfig(sys.a.cfg) && ValidConfig(sys.b.cfg) }

  ghost predicate Inv(sys: Sys) { Paired(sys.a, sys.b) }

  /** The client knows its conversation id, the server learns it from the first packet. */
  ghost predicate Start(sys: Sys) {
    && ValidConfig(sys.a.cfg) && ValidConfig(sys.b.cfg)
    && exists conv: nat, any: nat :: conv < U32 && any < U32 && sys == Sys(Initial(sys.a.cfg, true, conv), Initial(sys.b.cfg, false, any))
  }

  lemma ApplyCfg(sys: Sys, ev: Event)
    requires ValidConfig(sys.a.cfg) && ValidConfig(sys.b.cfg)
    ensures Apply(sys, ev).a.cfg == sys.a.cfg && Apply(sys, ev).b.cfg == sys.b.cfg
  {
    hide HandlePackets, SendSendQueue, SendPackets;
    if ev.Arrive? && ev.which < |sys.Peer(ev.side).written| {
      HandlePacketsCfg(sys.At(ev.side), NoScan, ParseAll(sys.Peer(ev.side).written[ev.which]), ev.now);
    }
    if ev.Tick? {
      UpdateFromNumbered(sys.At(ev.side), ev.now, ev.u);
    }
  }

  /** A run is a sequence of enabled events. */
  function Run(sys: Sys, evs: seq<Event>): (end: Sys)
    requires ValidConfig(sys.a.cfg) && ValidConfig(sys.b.cfg)
    ensures end.a.cfg == sys.a.cfg && end.b.cfg == sys.b.cfg
  {
    if evs == [] then sys else
      var before := Run(sys, evs[..|evs| - 1]);
      ApplyCfg(before, evs[|evs| - 1]);
      Apply(before, evs[|evs| - 1])
  }

  ghost predicate ValidRun(sys: Sys, evs: seq<Event>)
    requires ValidConfig(sys.a.cfg) && ValidConfig(sys.b.cfg)
  {
    evs == [] ||
    (&& ValidRun(sys, evs[..|evs| - 1])
     && Enabled(Run(sys, evs[..|evs| - 1]), evs[|evs| - 1]))
  }

  lemma {:induction false} StartPaired(cfgA: Config, cfgB: Config, initA: bool, initB: bool, convA: nat, convB: nat)
    requires ValidConfig(cfgA) && ValidConfig(cfgB) && convA < U32 && convB < U32 && !(initA && initB)
    ensures Paired(Initial(cfgA, initA, convA), Initial(cfgB, initB, convB))
  {
  }

  lemma PairedSymmetric(x: Endpoint, y: Endpoint)
    requires Paired(x, y)
    ensures Paired(y, x)
  {
  }

  /** The receiver is never ahead of the sender. */
  lemma ReceiverBehind(x: Endpoint, y: Endpoint)
    requires Paired(x, y)
    ensures x.rcv.nxt <= y.snd.nxt < U32 && y.rcv.nxt <= x.snd.nxt < U32
  {
  }

  lemma StepAt(x: Endpoint, y: Endpoint, sys: Sys, ev: Event)
    requires Paired(x, y) && x == sys.At(ev.side) && y == sys.Peer(ev.side)
    requires Enabled(sys, ev)
    ensures var x' := Apply(sys, ev).At(ev.side); Paired(x', y) && Grows(x, x') && Apply(sys, ev).Peer(ev.side) == y
  {
    hide Paired, Grows, Update, Input, Send, HarmlessProbes;
    ReceiverBehind(x, y);
    match ev
    case Submit(_, msg) => SubmitOk(x, y, msg);
    case Tick(_, now, u) => UpdateOk(x, y, now, u);
    case Arrive(_, which, now) => InputOk(x, y, y.written[which], now);
  }

  lemma PairedConfigs(x: Endpoint, y: Endpoint)
    requires Paired(x, y)
    ensures ValidConfig(x.cfg) && ValidConfig(y.cfg)
  {
  }

  /** Every event keeps the invariant, and what grows at either side only grows. */
  lemma StepKeepsInv(sys: Sys, ev: Event)
    requires Inv(sys) && Enabled(sys, ev)
    ensures Inv(Apply(sys, ev)) && Grows(sys.a, Apply(sys, ev).a) && Grows(sys.b, Apply(sys, ev).b)
  {
    PairedConfigs(sys.a, sys.b);
    hide Paired, Grows, Apply, Enabled, ValidConfig;
    var end := Apply(sys, ev);
    PairedSymmetric(sys.a, sys.b);
    GrowsReflexive(sys.a);
    GrowsReflexive(sys.b);
    if ev.side == A {
      StepAt(sys.a, sys.b, sys, ev);
    } else {
      StepAt(sys.b, sys.a, sys, ev);
      PairedSymmetric(end.b, end.a);
    }
  }

  lemma {:induction false} RunKeepsInv(sys: Sys, evs: seq<Event>)
    requires ValidConfig(sys.a.cfg) && ValidConfig(sys.b.cfg) && Inv(sys) && ValidRun(sys, evs)
    ensures Inv(Run(sys, evs)) && Grows(sys.a, Run(sys, evs).a) && Grows(sys.b, Run(sys, evs).b)
    decreases |evs|
  {
    hide Paired, Grows, Apply, Enabled, ValidConfig;
    if evs == [] {
      GrowsReflexive(sys.a);
      GrowsReflexive(sys.b);
    } else {
      var before := Run(sys, evs[..|evs| - 1]);
      RunKeepsInv(sys, evs[..|evs| - 1]);
      StepKeepsInv(before, evs[|evs| - 1]);
      GrowsTransitive(sys.a, before.a, Run(sys, evs).a);
      GrowsTransitive(sys.b, before.b, Run(sys, evs).b);
    }
  }

  ghost predicate Reachable(sys: Sys) {
    exists start, evs :: Start(start) && ValidRun(start, evs) && sys == Run(start, evs)
  }

  lemma ReachableInv(sys: Sys)
    requires Reachable(sys)
    ensures Inv(sys)
  {
    var start, evs :| Start(start) && ValidRun(start, evs) && sys == Run(start, evs);
    assert Inv(start) by {
      var conv: nat, any: nat :| conv < U32 && any < U32 && start == Sys(Initial(start.a.cfg, true, conv), Initial(start.b.cfg, false, any));
      StartPaired(start.a.cfg, start.b.cfg, true, false, conv, any);
    }
    hide Inv, Start, Run, ValidRun;
    RunKeepsInv(start, evs);
  }

  // ---- What holds in every reachable state ----

  /** No segment is forgotten: a numbered segment is in the send buffer or has been received. */
  lemma NeverForgetsASegment(sys: Sys, side: Side, sn: nat)
    requires Reachable(sys) && sn < sys.At(side).snd.nxt
    ensures Has(Keys(sys.At(side).snd.buf), sn) || Received(sys.Peer(side).rcv, sn)
  {
    ReachableInv(sys);
    PairedSymmetric(sys.a, sys.b);
    hide Reachable, Has, Received;
    assert NeverForgets(sys.At(side).snd, sys.Peer(side).rcv);
  }

  /** Each message is delivered once and in order: the buffers given to onRead are, in number,
      order and size, a prefix of the messages accepted by send; a message of one fragment
      arrives byte for byte. */
  lemma DeliversInOrder(sys: Sys, side: Side, i: nat)
    requires Reachable(sys) && i < |sys.Peer(side).rcv.delivered|
    ensures i < |sys.At(side).snd.accepted|
    ensures var d, msg := sys.Peer(side).rcv.delivered[i], sys.At(side).snd.accepted[i];
            d.size == |msg| && (|msg| <= Mss(sys.At(side).cfg) ==> d.head == msg)
  {
    ReachableInv(sys);
    PairedSymmetric(sys.a, sys.b);
    hide Reachable, WrittenGood, SndOk;
    var x, y := sys.At(side), sys.Peer(side);
    DeliveredMessage(x.snd, y.rcv, Mss(x.cfg), y.cfg.rcvWnd, i);
  }

  lemma DeliveredMessage(s: Snd, r: Rcv, mss: nat, rcvWnd: nat, i: nat)
    requires mss > 0 && Linked(s, r, mss, rcvWnd) && i < |r.delivered|
    ensures i < |s.accepted| && r.delivered[i].size == |s.accepted[i]|
    ensures |s.accepted[i]| <= mss ==> r.delivered[i].head == s.accepted[i]
  {
    hide Ordered, NeverForgets, Stream;
    assert Matches(r.delivered[i], s.accepted[i], mss);
  }

  /** The window invariants. */
  lemma WindowsHold(sys: Sys, side: Side)
    requires Reachable(sys)
    ensures SendWindowHolds(sys.At(side), sys.Peer(side)) && ReceiveWindowHolds(sys.Peer(side), sys.At(side))
  {
    ReachableInv(sys);
    PairedSymmetric(sys.a, sys.b);
    hide Reachable, WrittenGood, Linked, SndOk;
    var x, y := sys.At(side), sys.Peer(side);
    hide SendWindowHolds, ReceiveWindowHolds;
    SenderWindow(x, y);
    ReceiverWindow(y, x);
  }

  /** The send buffer is strictly increasing in [snd_una, snd_nxt), snd_una is its head or snd_nxt,
      no more than snd_wnd segments are in flight, and the peer is within them. */
  ghost predicate SendWindowHolds(x: Endpoint, y: Endpoint)
    requires ValidConfig(x.cfg)
  {
    var s := x.snd;
    && s.una == FirstUnacked(s.buf, s.nxt)
    && Ordered(Keys(s.buf), s.una, s.nxt, Sent(s, Mss(x.cfg)))
    && |s.buf| <= s.nxt - s.una <= x.cfg.sndWnd
    && s.una <= y.rcv.nxt <= s.nxt
  }

  /** The receive buffer is strictly increasing in (rcv_nxt, rcv_nxt + rcv_wnd), its segments are
      what the peer numbered, less than a message waits, and the advertised window stays open. */
  ghost predicate ReceiveWindowHolds(y: Endpoint, x: Endpoint)
    requires ValidConfig(x.cfg)
  {
    && Ordered(y.rcv.buf, y.rcv.nxt + 1, y.rcv.nxt + y.cfg.rcvWnd, Sent(x.snd, Mss(x.cfg)))
    && |y.rcv.queue| < WND_RCV
    && 1 <= AdvertisedWnd(y) <= y.cfg.rcvWnd
  }

  lemma SenderWindow(x: Endpoint, y: Endpoint)
    requires Local(x) && OneWay(x, y)
    ensures SendWindowHolds(x, y)
  {
    OrderedLength(Keys(x.snd.buf), x.snd.una, x.snd.nxt, Sent(x.snd, Mss(x.cfg)));
    KeysLength(x.snd.buf);
    UnackedBehind(x.snd, y.rcv, x.cfg, y.cfg.rcvWnd);
  }

  lemma ReceiverWindow(y: Endpoint, x: Endpoint)
    requires Local(x) && Local(y) && OneWay(x, y)
    ensures ReceiveWindowHolds(y, x)
  {
    hide Ordered, Received, InOrder, AdvertisedWnd, NeverForgets, AcksReceived, SndOk, Sent;
    HeadPast(x.snd, y.rcv, Mss(x.cfg), y.cfg.rcvWnd);
    OpenWindow(y);
  }

  lemma OpenWindow(e: Endpoint)
    requires ValidConfig(e.cfg) && |e.rcv.queue| < WND_RCV
    ensures 1 <= AdvertisedWnd(e) <= e.cfg.rcvWnd
  {
  }

  lemma HeadPast(s: Snd, r: Rcv, mss: nat, rcvWnd: nat)
    requires mss > 0 && Linked(s, r, mss, rcvWnd)
    ensures Ordered(r.buf, r.nxt + 1, r.nxt + rcvWnd, Sent(s, mss)) && !Received(r, r.nxt)
  {
    hide InOrder, NeverForgets, AcksReceived, Sent, PeekSize;
    if Has(r.buf, r.nxt) {
      OrderedAbove(r.buf, r.nxt + 1, r.nxt + rcvWnd, Sent(s, mss), r.nxt);
    }
  }

  lemma {:induction false} KeysLength(buf: seq<Seg>)
    ensures |Keys(buf)| == |buf|
  {
    if buf != [] {
      KeysLength(buf[1..]);
    }
  }

  /** snd_una never passes the peer's rcv_nxt. */
  lemma UnackedBehind(s: Snd, r: Rcv, cfg: Config, rcvWnd: nat)
    requires ValidConfig(cfg) && SndOk(s, cfg) && Linked(s, r, Mss(cfg), rcvWnd)
    ensures s.una <= r.nxt
  {
    HeadPast(s, r, Mss(cfg), rcvWnd);
    if r.nxt < s.una {
      assert Has(Keys(s.buf), r.nxt);
      OrderedAbove(Keys(s.buf), s.una, s.nxt, Sent(s, Mss(cfg)), r.nxt);
    }
  }

  /** Over a run, snd_una, rcv_nxt and the deliveries only advance. */
  lemma NothingIsUndone(sys: Sys, evs: seq<Event>, side: Side)
    requires Reachable(sys) && ValidConfig(sys.a.cfg) && ValidConfig(sys.b.cfg) && ValidRun(sys, evs)
    ensures var e, e' := sys.At(side), Run(sys, evs).At(side);
            e.snd.una <= e'.snd.una && e.rcv.nxt <= e'.rcv.nxt && e.rcv.delivered <= e'.rcv.delivered
  {
    ReachableInv(sys);
    RunKeepsInv(sys, evs);
  }

  /** Whatever datagram arrives, the pop loop of onData never meets an empty queue. */
  lemma PopLoopIsSafe(sys: Sys, side: Side, which: nat, now: nat)
    requires Reachable(sys) && which < |sys.Peer(side).written|
    ensures InputIsSafe(sys.At(side), sys.Peer(side).written[which], now)
  {
    ReachableInv(sys);
    PairedSymmetric(sys.a, sys.b);
    InputOk(sys.At(side), sys.Peer(side), sys.Peer(side).written[which], now);
  }

  /** No timer turn in any reachable state overruns the pool. */
  lemma PoolIsSafe(sys: Sys, side: Side, now: nat, u: Probes)
    requires Reachable(sys) && Enabled(sys, Tick(side, now, u))
    ensures UpdateIsSafe(sys.At(side), now, u)
  {
    ReachableInv(sys);
    PairedSymmetric(sys.a, sys.b);
    hide Reachable, HarmlessProbes;
    PacketsFitPool(sys.At(side), sys.Peer(side), now, u);
  }

  /** An endpoint with a larger mtu, and a first message that fills more than the pool in one fragment. */
  lemma LargeMtuOverruns(cfg: Config, conv: nat, msg: seq<byte>, now: nat, u: Probes)
    requires UsableConfig(cfg) && POOL < HEADER_SIZE + |msg| <= cfg.mtu
    ensures !UpdateIsSafe(Send(Initial(cfg, true, conv), msg), now, u)
  {
    hide Transmit, Encode, KcpWire.SendPacket;
    FirstPacket(cfg, conv, msg, now, u);
    var e := Send(Initial(cfg, true, conv), msg);
    var p := UpdatePackets(e, now, u)[0];
    assert !FitsPool(Pool([], []), cfg.mtu, p) by { LonePacket(cfg.mtu, p); }
  }

  lemma LonePacket(mtu: nat, p: Packet)
    requires PacketSize(p) <= mtu
    ensures |KcpWire.SendPacket(Pool([], []), mtu, p).buf| == PacketSize(p)
  {
    hide Encode;
  }

  /** The first timer turn after a first message of one fragment sends that fragment alone. */
  lemma FirstPacket(cfg: Config, conv: nat, msg: seq<byte>, now: nat, u: Probes)
    requires UsableConfig(cfg) && 0 < |msg| <= Mss(cfg)
    ensures var e := Send(Initial(cfg, true, conv), msg);
            e.written == [] && |UpdatePackets(e, now, u)| == 1 && UpdatePackets(e, now, u)[0].payload == msg
  {
    hide Transmit;
    var e, frag := Send(Initial(cfg, true, conv), msg), Frag(0, msg);
    assert Fragments(msg, Mss(cfg)) == [frag] && [] + [frag] == [frag];
    FirstIsNumbered(e.snd, SendWindow(e));
    var seg := Seg(0, frag, 0, 0, 0, 0, 0);
    assert PushPackets(e, [seg], now) == [PushPacket(e, Transmit(seg, cfg, e.ctl.rtt.rto, now))] + PushPackets(e, [], now);
    SameFragment(seg, cfg, e.ctl.rtt.rto, now);
  }

  lemma FirstIsNumbered(s: Snd, wnd: nat)
    requires |s.queue| == 1 && s.buf == [] && s.una == s.nxt == 0 && 1 <= wnd < U32
    ensures SortSendQueue(s, wnd).buf == [Seg(0, s.queue[0], 0, 0, 0, 0, 0)]
  {
    var next := NumberOne(s);
    assert SortSendQueue(next, wnd) == next;
  }

  lemma SameFragment(seg: Seg, cfg: Config, rto: int, now: nat)
    ensures Transmit(seg, cfg, rto, now).frag == seg.frag
  {
  }

  lemma GoodIsInRange(p: Packet, e: Endpoint)
    requires ValidConfig(e.cfg) && GoodPacket(p, e)
    ensures InRange(p)
  {
  }

  lemma PacketsFitPool(x: Endpoint, y: Endpoint, now: nat, u: Probes)
    requires Paired(x, y) && now < U32 && HarmlessProbes(u, x)
    ensures UpdateIsSafe(x, now, u)
  {
    hide SndOk, Linked, Sent, Received, SortSendQueue, UpdatePackets, SendPacket, HarmlessProbes;
    var ps := UpdatePackets(x, now, u);
    AcksKnown(x, y);
    ReceiverBehind(x, y);
    UpdatePacketsGood(x, y, now, u);
    forall p | p in ps ensures InRange(p) && PacketSize(p) <= x.cfg.mtu {
      GoodIsInRange(p, Numbered(x));
    }
    PoolSuffices(Pool([], x.written), x.cfg.mtu, ps);
  }

  /** Processing a packet whose una field is u keeps every undelivered segment if and only if u
      is no larger than the peer's rcv_nxt, or nothing is outstanding. The una of a window
      probe is never set, so this is what a probe must happen to satisfy. */
  lemma UnaIsSafeIff(sys: Sys, side: Side, u: nat)
    requires Reachable(sys)
    ensures NeverForgets(DropByUna(sys.At(side).snd, u), sys.Peer(side).rcv)
            <==> u <= sys.Peer(side).rcv.nxt || sys.Peer(side).rcv.nxt == sys.At(side).snd.nxt
  {
    ReachableInv(sys);
    PairedSymmetric(sys.a, sys.b);
    hide Reachable;
    var x, y := sys.At(side), sys.Peer(side);
    UnaSafe(x.snd, y.rcv, u, x.cfg, y.cfg.rcvWnd);
  }

  lemma UnaSafe(s: Snd, r: Rcv, u: nat, cfg: Config, rcvWnd: nat)
    requires ValidConfig(cfg) && SndOk(s, cfg) && Linked(s, r, Mss(cfg), rcvWnd)
    ensures NeverForgets(DropByUna(s, u), r) <==> u <= r.nxt || r.nxt == s.nxt
  {
    var s' := DropByUna(s, u);
    if u <= r.nxt {
      DropByUnaOk(s, r, u, cfg, rcvWnd);
    } else if r.nxt < s.nxt {
      HeadPast(s, r, Mss(cfg), rcvWnd);
      UnackedBehind(s, r, cfg, rcvWnd);
      DropBelowKeeps(s.buf, u, s.una, s.nxt, Sent(s, Mss(cfg)));
      assert !Has(Keys(s'.buf), r.nxt) && !Received(r, r.nxt);
    }
  }
}
