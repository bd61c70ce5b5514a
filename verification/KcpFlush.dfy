/** What one timer turn writes, and that every packet of it tells the truth. */
module KcpFlush {
  import opened LittleEndian
  import opened KcpCongestion
  import opened KcpState
  import opened KcpStream
  import opened KcpSegments
  import opened KcpLink
  import opened KcpWire
  import opened KcpProtocol

  /** The hypothesis on window probes: what their unset fields hold must not acknowledge
      anything beyond the sender's own rcv_nxt. */
  ghost predicate HarmlessProbe(u: Unset, e: Endpoint) { InWidth(u) && u.una <= e.rcv.nxt }

  predicate InWidth(u: Unset) { u.wnd < U16 && u.ts < U32 && u.sn < U32 && u.una < U32 }

  ghost predicate HarmlessProbes(u: Probes, e: Endpoint) {
    u.clock < U32 && HarmlessProbe(u.ask, e) && HarmlessProbe(u.tell, e)
  }

  lemma {:induction false} StreamFits(msgs: seq<seq<byte>>, mss: nat, i: nat)
    requires mss > 0 && KcpStream.Sendable(msgs, mss) && i < |Stream(msgs, mss)|
    ensures Stream(msgs, mss)[i].frg < WND_RCV && |Stream(msgs, mss)[i].data| <= mss
  {
    var fs := Fragments(msgs[0], mss);
    if i < |fs| {
      FragmentsFit(msgs[0], mss);
    } else {
      StreamFits(msgs[1..], mss, i - |fs|);
    }
  }

  lemma {:induction false} AckPacketsGood(e: Endpoint, acks: seq<Ack>, p: Packet)
    requires ValidConfig(e.cfg) && p in AckPackets(e, acks)
    ensures exists a :: a in acks && p == AckPacket(e, a)
  {
    if p == AckPacket(e, acks[0]) {
      assert acks[0] in acks;
    } else {
      AckPacketsGood(e, acks[1..], p);
    }
  }

  lemma {:induction false} PushPacketsFrom(e: Endpoint, buf: seq<Seg>, now: nat, p: Packet)
    requires p in PushPackets(e, buf, now)
    ensures exists seg :: seg in buf && TurnOf(seg, e.cfg, now) != Quiet && p == PushPacket(e, Transmit(seg, e.cfg, e.ctl.rtt.rto, now))
  {
    if TurnOf(buf[0], e.cfg, now) != Quiet && p == PushPacket(e, Transmit(buf[0], e.cfg, e.ctl.rtt.rto, now)) {
      assert buf[0] in buf;
    } else {
      PushPacketsFrom(e, buf[1..], now, p);
    }
  }

  lemma {:induction false} OrderedAt(buf: seq<Seg>, lo: nat, hi: nat, stream: seq<Frag>, seg: Seg)
    requires Ordered(Keys(buf), lo, hi, stream) && seg in buf
    ensures seg.sn < hi && seg.sn < |stream| && seg.frag == stream[seg.sn]
  {
    if seg != buf[0] {
      OrderedAt(buf[1..], buf[0].sn + 1, hi, stream, seg);
    }
  }

  /** The endpoint once sortSendQueue has numbered what fits the window. */
  function Numbered(e: Endpoint): Endpoint { e.(snd := SortSendQueue(e.snd, SendWindow(e))) }

  lemma PushPacketGood(e: Endpoint, now: nat, p: Packet)
    requires ValidConfig(e.cfg) && e.convInit && e.conv < U32 && now < U32
    requires SndOk(Numbered(e).snd, e.cfg) && e.rcv.nxt < U32
    requires p in PushPackets(e, Numbered(e).snd.buf, now)
    ensures GoodPacket(p, Numbered(e)) && PacketSize(p) <= e.cfg.mtu
  {
    hide SortSendQueue, Ordered, Stream, KcpStream.Sendable;
    var s, mss := Numbered(e).snd, Mss(e.cfg);
    PushPacketsFrom(e, s.buf, now, p);
    var seg :| seg in s.buf && TurnOf(seg, e.cfg, now) != Quiet && p == PushPacket(e, Transmit(seg, e.cfg, e.ctl.rtt.rto, now));
    OrderedAt(s.buf, s.una, s.nxt, Sent(s, mss), seg);
    StreamFits(s.accepted, mss, seg.sn);
  }

  lemma ControlPacketGood(e: Endpoint, now: nat, u: Probes, p: Packet)
    requires Local(e) && e.convInit && e.rcv.nxt < U32 && AcksReceived(e.rcv)
    requires HarmlessProbes(u, e)
    requires p in AckPackets(e, e.rcv.acks) + ProbePackets(e, ProbeTimer(e.ctl, u.clock), u)
    ensures GoodPacket(p, e) && PacketSize(p) <= e.cfg.mtu
  {
    hide SndOk, Received, Sent;
    if p in AckPackets(e, e.rcv.acks) {
      AckPacketsGood(e, e.rcv.acks, p);
      var a :| a in e.rcv.acks && p == AckPacket(e, a);
    }
  }

  /** Without a conversation id nothing is written but an empty datagram. */
  lemma SilentUpdate(e: Endpoint, now: nat, u: Probes)
    requires Local(e) && !e.convInit
    ensures UpdatePackets(e, now, u) == [] && SortSendQueue(e.snd, SendWindow(e)) == e.snd
    ensures e.snd.queue == [] && e.snd.buf == []
  {
    assert Stream(e.snd.accepted, Mss(e.cfg)) == [];
    assert e.snd.queue == [];
    assert e.snd.buf == [];
  }

  lemma SendWindowFits(e: Endpoint)
    requires ValidConfig(e.cfg)
    ensures 1 <= SendWindow(e) <= e.cfg.sndWnd
  {
  }

  lemma NumberedGrows(e: Endpoint, y: Endpoint)
    requires Local(e) && Local(y) && OneWay(e, y)
    ensures var n := Numbered(e); SndOk(n.snd, e.cfg) && OneWay(n, y) && Grows(e, n)
    ensures Numbered(e).snd.accepted == e.snd.accepted
  {
    hide SndOk, Linked, Sent, Received;
    SendWindowFits(e);
    SortSendQueueOk(e.snd, y.rcv, SendWindow(e), e.cfg, y.cfg.rcvWnd);
  }

  /** How a timeout grows a segment's own timeout: it at least doubles if and only if the mode is not
      the normal one, or the current estimate is at least twice the segment's timeout. */
  lemma TimeoutDoublesIff(seg: Seg, cfg: Config, rto: nat, now: nat)
    requires TurnOf(seg, cfg, now) == Timeout && 0 < seg.rto
    requires 2 * seg.rto < U32 && seg.rto + rto < U32
    ensures Transmit(seg, cfg, rto, now).rto >= 2 * seg.rto <==> cfg.mode != Normal || rto >= 2 * seg.rto
    ensures cfg.mode == Normal ==> Transmit(seg, cfg, rto, now).rto == seg.rto + rto / 2
  {
    hide TurnOf;
    Unwrapped(rto);
    Unwrapped(seg.rto + rto / 2);
    Unwrapped(seg.rto + KcpCongestion.Max(seg.rto, rto));
    var longer := if cfg.mode != Normal then seg.rto + KcpCongestion.Max(seg.rto, rto % U32) else seg.rto + rto / 2;
    assert Transmit(seg, cfg, rto, now).rto == longer % U32;
  }

  /** A timeout of 200 ms in the normal mode, with an estimate of 200 ms, grows to 300 ms, not 400. */
  lemma NormalModeAddsHalf(seg: Seg, cfg: Config, now: nat)
    requires TurnOf(seg, cfg, now) == Timeout && seg.rto == 200 && cfg.mode == Normal
    ensures Transmit(seg, cfg, 200, now).rto == 300
  {
    TimeoutDoublesIff(seg, cfg, 200, now);
  }

  lemma Unwrapped(x: nat)
    requires x < U32
    ensures x % U32 == x
  {
  }

  lemma {:induction false} TransmitTimers(buf: seq<Seg>, cfg: Config, rto: int, now: nat)
    requires TimersFit(buf)
    ensures TimersFit(TransmitAll(buf, cfg, rto, now))
  {
    if buf != [] {
      TransmitTimers(buf[1..], cfg, rto, now);
    }
  }

  lemma {:induction false} AppendTimers(buf: seq<Seg>, seg: Seg)
    requires TimersFit(buf) && seg.resendts < U32
    ensures TimersFit(buf + [seg])
  {
    if buf == [] {
      assert (buf + [seg])[1..] == [];
    } else {
      assert (buf + [seg])[1..] == buf[1..] + [seg];
      AppendTimers(buf[1..], seg);
    }
  }

  lemma {:induction false} SortTimers(s: Snd, cwnd: nat)
    requires TimersFit(s.buf)
    ensures TimersFit(SortSendQueue(s, cwnd).buf)
    decreases |s.queue|
  {
    if s.queue != [] && s.nxt < WindowEnd(s.una, cwnd) {
      var seg := Seg(s.nxt, s.queue[0], 0, 0, 0, 0, 0);
      AppendTimers(s.buf, seg);
      SortTimers(s.(queue := s.queue[1..], buf := s.buf + [seg], nxt := s.nxt + 1), cwnd);
    }
  }

  lemma NumberedTimers(s: Snd, cwnd: nat, cfg: Config, rto: int, now: nat)
    ensures TimersFit(s.buf) ==> TimersFit(TransmitAll(SortSendQueue(s, cwnd).buf, cfg, rto, now))
  {
    if TimersFit(s.buf) {
      SortTimers(s, cwnd);
      TransmitTimers(SortSendQueue(s, cwnd).buf, cfg, rto, now);
    }
  }

  /** A timer turn changes the numbered endpoint in bookkeeping, acknowledgements and output only. */
  lemma UpdateFromNumbered(e: Endpoint, now: nat, u: Probes)
    requires ValidConfig(e.cfg)
    ensures var e', n := Update(e, now, u), Numbered(e);
            && e'.cfg == e.cfg && e'.convInit == e.convInit && e'.conv == e.conv
            && e'.snd == n.snd.(buf := e'.snd.buf) && Keys(e'.snd.buf) == Keys(n.snd.buf)
            && (TimersFit(e.snd.buf) ==> TimersFit(e'.snd.buf))
            && e'.rcv == e.rcv.(acks := [])
            && !e'.ctl.askSend && !e'.ctl.askTell && e'.ctl.rmtWnd == e.ctl.rmtWnd
            && e'.written == FlushPool(SendPackets(Pool([], e.written), e.cfg.mtu, UpdatePackets(e, now, u))).written
  {
    NumberedTimers(e.snd, SendWindow(e), e.cfg, e.ctl.rtt.rto, now);
    hide SortSendQueue, TransmitAll, Keys, AnyTurn, SendPackets, UpdatePackets, Decrease, SendLimit, TimersFit;
    var probed := e.(rcv := e.rcv.(acks := []), ctl := ProbeTimer(e.ctl, u.clock).(askSend := false, askTell := false));
    assert SendWindow(probed) == SendWindow(e);
    TransmitAllKeys(Numbered(e).snd.buf, e.cfg, e.ctl.rtt.rto, now);
  }

  ghost predicate GoodFor(ps: seq<Packet>, e: Endpoint)
    requires ValidConfig(e.cfg)
  {
    forall p | p in ps :: GoodPacket(p, e) && PacketSize(p) <= e.cfg.mtu
  }

  lemma UpdatePacketsGood(e: Endpoint, y: Endpoint, now: nat, u: Probes)
    requires Local(e) && Local(y) && OneWay(e, y) && AcksReceived(e.rcv)
    requires now < U32 && HarmlessProbes(u, e)
    requires e.rcv.nxt < U32
    ensures GoodFor(UpdatePackets(e, now, u), Numbered(e))
  {
    NumberedGrows(e, y);
    hide SndOk, Linked, Sent, Received, SortSendQueue, PushPackets, AckPackets, ProbePackets, GoodPacket, Grows, ProbeTimer;
    if e.convInit {
      forall p | p in UpdatePackets(e, now, u) ensures GoodPacket(p, Numbered(e)) && PacketSize(p) <= e.cfg.mtu {
        if p in PushPackets(e, Numbered(e).snd.buf, now) {
          PushPacketGood(e, now, p);
        } else {
          ControlPacketGood(e, now, u, p);
          StaysGood(p, e, Numbered(e));
        }
      }
    } else {
      SilentUpdate(e, now, u);
    }
  }

  lemma WrittenStaysGood(e: Endpoint, n: Endpoint, e': Endpoint, ps: seq<Packet>)
    requires Local(e) && WrittenGood(e) && Grows(e, e')
    requires ValidConfig(n.cfg) && n.cfg == e.cfg && GoodFor(ps, n) && Grows(n, e')
    requires e'.written == FlushPool(SendPackets(Pool([], e.written), e.cfg.mtu, ps)).written
    ensures WrittenGood(e') && FitsMtu(e'.written, e.cfg.mtu)
  {
    hide Received, Sent, SndOk, ParseAll, SendPackets;
    assert KcpWire.Sendable(ps, e.cfg.mtu);
    var pool := Pool([], e.written);
    forall d, p | d in e'.written && p in ParseAll(d) ensures GoodPacket(p, e') {
      PackedPackets(pool, e.cfg.mtu, ps, d, p);
      if d in e.written {
        StaysGood(p, e, e');
      } else {
        StaysGood(p, n, e');
      }
    }
    assert Packed(pool, e.cfg.mtu, [], ParseDatagrams(e.written));
    var end := PackedParse(pool, e.cfg.mtu, ps);
  }

  /** A timer turn keeps the invariant. */
  lemma UpdateOk(x: Endpoint, y: Endpoint, now: nat, u: Probes)
    requires Paired(x, y) && now < U32 && HarmlessProbes(u, x)
    ensures var x' := Update(x, now, u); Paired(x', y) && Grows(x, x')
  {
    hide SndOk, Arriving, Sent, Received, SortSendQueue, UpdatePackets, Update, GoodPacket, SendPackets, Keys, HarmlessProbes, ParseAll;
    var n, x' := Numbered(x), Update(x, now, u);
    UpdateFromNumbered(x, now, u);
    NumberedGrows(x, y);
    AcksKnown(x, y);
    UpdatePacketsGood(x, y, now, u);
    SameKeysOk(n.snd, x'.snd, y.rcv, x.cfg, y.cfg.rcvWnd);
    SentIgnoresBuffer(n.snd, x'.snd, Mss(x.cfg));
    AcksSentOk(y.snd, x.rcv, Mss(y.cfg), x.cfg.rcvWnd);
    assert forall sn :: Received(x.rcv, sn) ==> Received(x'.rcv, sn) by { ReceivedIgnoresAcks(x.rcv); }
    assert Grows(n, x') && Grows(x, x');
    WrittenStaysGood(x, n, x', UpdatePackets(x, now, u));
    if !x.convInit {
      SilentUpdate(x, now, u);
    }
  }

  lemma AcksKnown(x: Endpoint, y: Endpoint)
    requires Paired(x, y)
    ensures AcksReceived(x.rcv) && x.rcv.nxt < U32
  {
  }

  lemma ReceivedIgnoresAcks(r: Rcv)
    ensures forall sn :: Received(r, sn) <==> Received(r.(acks := []), sn)
  {
  }

  lemma SendShape(x: Endpoint, msg: seq<byte>)
    requires ValidConfig(x.cfg)
    ensures if SendOutcome(x, msg).Accepted?
            then x.convInit && 0 < |msg| < Mss(x.cfg) * WND_RCV
                 && Send(x, msg) == x.(snd := x.snd.(accepted := x.snd.accepted + [msg], queue := x.snd.queue + Fragments(msg, Mss(x.cfg))))
            else Send(x, msg) == x
  {
    hide Fragments;
  }

  /** send takes a message, once the conversation is known, exactly when it is not empty and fits the
      smallest receive window, less one byte. */
  lemma SendAcceptsIff(x: Endpoint, msg: seq<byte>)
    requires ValidConfig(x.cfg)
    ensures Send(x, msg) != x <==> x.convInit && 0 < |msg| < Mss(x.cfg) * WND_RCV
    ensures Send(x, msg) != x ==> Send(x, msg).snd.accepted == x.snd.accepted + [msg]
  {
    hide Fragments, Mss;
    SendShape(x, msg);
    assert |x.snd.accepted + [msg]| != |x.snd.accepted|;
  }

  /** Taking a message keeps the invariant. */
  lemma SubmitOk(x: Endpoint, y: Endpoint, msg: seq<byte>)
    requires Paired(x, y)
    ensures var x' := Send(x, msg); Paired(x', y) && Grows(x, x')
  {
    hide SndOk, Linked, Sent, Received, Fragments, ParseAll, GoodPacket, Send, SendOutcome;
    SendShape(x, msg);
    GrowsReflexive(x);
    if SendOutcome(x, msg).Accepted? {
      SendOk(x.snd, y.rcv, msg, x.cfg, y.cfg.rcvWnd);
      GoodAfterGrowth(x, Send(x, msg));
    }
  }
}
