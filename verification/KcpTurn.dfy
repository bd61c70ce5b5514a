/** What a timer turn sends and changes, told by the fields of the segments and the time. */
module KcpTurn {
  import opened Sequences
  import opened LittleEndian
  import opened KcpCongestion
  import opened KcpState
  import opened KcpSegments
  import opened KcpLink
  import opened KcpWire
  import opened KcpProtocol
  import opened KcpFlush

  // ---- which segments go out ----

  predicate Overdue(seg: Seg, now: nat) { seg.xmit > 0 && seg.resendts <= now }

  /** The peer acknowledged later segments often enough, and the segment was not sent too often. */
  predicate Skipped(seg: Seg, cfg: Config, now: nat) {
    && seg.xmit > 0 && now < seg.resendts
    && seg.fastack >= (if cfg.fastresend == 0 then 0xffff_ffff else cfg.fastresend)
    && (cfg.fastlimit > 0 ==> seg.xmit <= cfg.fastlimit)
  }

  predicate Goes(seg: Seg, cfg: Config, now: nat) { seg.xmit == 0 || Overdue(seg, now) || Skipped(seg, cfg, now) }

  /** How long a segment that goes out waits before it is overdue. */
  function Patience(seg: Seg, cfg: Config, rto: nat): nat {
    if seg.xmit > 0 then seg.rto else if cfg.mode == Normal then rto + rto / 8 else rto
  }

  /** Its own timeout from then on. */
  function NextRto(seg: Seg, cfg: Config, rto: nat, now: nat): nat {
    if seg.xmit == 0 then rto
    else if !Overdue(seg, now) then seg.rto
    else if cfg.mode == Normal then (seg.rto + rto / 2) % U32
    else if seg.rto >= rto then (2 * seg.rto) % U32 else (seg.rto + rto) % U32
  }

  /** A segment that went out at this time. */
  function Gone(seg: Seg, cfg: Config, rto: nat, now: nat): Seg {
    Seg(seg.sn, seg.frag, now, (now + Patience(seg, cfg, rto)) % U32, NextRto(seg, cfg, rto, now),
        if Skipped(seg, cfg, now) then 0 else seg.fastack, seg.xmit + 1)
  }

  lemma TurnIs(seg: Seg, cfg: Config, now: nat)
    ensures TurnOf(seg, cfg, now) != Quiet <==> Goes(seg, cfg, now)
    ensures TurnOf(seg, cfg, now) == FirstSend <==> seg.xmit == 0
    ensures TurnOf(seg, cfg, now) == Timeout <==> Overdue(seg, now)
    ensures TurnOf(seg, cfg, now) == FastResend <==> Skipped(seg, cfg, now)
  {
  }

  lemma TransmitIsGone(seg: Seg, cfg: Config, rto: nat, now: nat)
    requires rto < U32
    ensures Transmit(seg, cfg, rto, now) == if Goes(seg, cfg, now) then Gone(seg, cfg, rto, now) else seg
  {
    hide TurnOf, Skipped, Overdue, Goes;
    TurnIs(seg, cfg, now);
    Unwrapped(rto);
    if TurnOf(seg, cfg, now) == Timeout {
      LaterTimeout(seg, cfg, rto, now);
    }
  }

  lemma LaterTimeout(seg: Seg, cfg: Config, rto: nat, now: nat)
    requires rto < U32 && TurnOf(seg, cfg, now) == Timeout
    ensures Transmit(seg, cfg, rto, now) == Gone(seg, cfg, rto, now)
  {
    hide TurnOf, Skipped;
    TurnIs(seg, cfg, now);
    Unwrapped(rto);
    assert !Skipped(seg, cfg, now);
  }

  function Going(buf: seq<Seg>, cfg: Config, now: nat): seq<Seg> {
    if buf == [] then [] else (if Goes(buf[0], cfg, now) then [buf[0]] else []) + Going(buf[1..], cfg, now)
  }

  lemma {:induction false} TransmitAllAt(buf: seq<Seg>, cfg: Config, rto: nat, now: nat, i: nat)
    requires rto < U32 && i < |buf|
    ensures TransmitAll(buf, cfg, rto, now)[i] == if Goes(buf[i], cfg, now) then Gone(buf[i], cfg, rto, now) else buf[i]
  {
    hide Transmit, Goes, Gone;
    if i == 0 {
      TransmitIsGone(buf[0], cfg, rto, now);
    } else {
      TransmitAllAt(buf[1..], cfg, rto, now, i - 1);
    }
  }

  // ---- what is written ----

  /** The packets with this command, in order. */
  function Only(ps: seq<Packet>, cmd: nat): seq<Packet> {
    if ps == [] then [] else (if ps[0].cmd == cmd then [ps[0]] else []) + Only(ps[1..], cmd)
  }

  lemma {:induction false} OnlyConcat(a: seq<Packet>, b: seq<Packet>, cmd: nat)
    ensures Only(a + b, cmd) == Only(a, cmd) + Only(b, cmd)
  {
    if a == [] {
      assert a + b == b;
    } else {
      OnlyConcat(a[1..], b, cmd);
      FirstOfTwo(a, b);
      Associative(if a[0].cmd == cmd then [a[0]] else [], Only(a[1..], cmd), Only(b, cmd));
    }
  }

  ghost predicate AllAre(ps: seq<Packet>, cmd: nat) { forall p | p in ps :: p.cmd == cmd }

  lemma {:induction false} OnlyOf(ps: seq<Packet>, cmd: nat, other: nat)
    requires AllAre(ps, other)
    ensures Only(ps, cmd) == if cmd == other then ps else []
  {
    if ps != [] {
      assert ps[0] in ps;
      OnlyOf(ps[1..], cmd, other);
    }
  }

  /** The header of a packet of e: its conversation, how much more its queue takes, and how far it has
      received everything. */
  predicate Heads(p: Packet, e: Endpoint, cmd: nat, ts: nat, sn: nat) {
    && p.conv == e.conv && p.cmd == cmd && p.ts == ts && p.sn == sn
    && p.una == e.rcv.nxt && p.wnd + |e.rcv.queue| == e.cfg.rcvWnd
  }

  /** One acknowledgement for each segment that is owed one, echoing its time stamp. */
  ghost predicate AcksTold(ps: seq<Packet>, e: Endpoint) {
    |ps| == |e.rcv.acks|
    && forall i :: 0 <= i < |ps| ==> Heads(ps[i], e, CMD_ACK, e.rcv.acks[i].ts, e.rcv.acks[i].sn) && ps[i].payload == []
  }

  /** One data packet for each segment that goes. */
  ghost predicate DataTold(ps: seq<Packet>, e: Endpoint, segs: seq<Seg>, now: nat) {
    |ps| == |segs|
    && forall i :: 0 <= i < |ps| ==> Heads(ps[i], e, CMD_PUSH, now, segs[i].sn) && Frag(ps[i].frg, ps[i].payload) == segs[i].frag
  }

  lemma {:induction false} AckPacketsTell(e: Endpoint, acks: seq<Ack>)
    requires UsableConfig(e.cfg) && |e.rcv.queue| <= e.cfg.rcvWnd
    ensures AcksTold(AckPackets(e, acks), e.(rcv := e.rcv.(acks := acks))) && AllAre(AckPackets(e, acks), CMD_ACK)
  {
    if acks != [] {
      AckPacketsTell(e, acks[1..]);
      assert AckPackets(e, acks)[1..] == AckPackets(e, acks[1..]);
    }
  }

  lemma {:induction false} PushPacketsTell(e: Endpoint, buf: seq<Seg>, now: nat)
    requires UsableConfig(e.cfg) && |e.rcv.queue| <= e.cfg.rcvWnd && 0 <= e.ctl.rtt.rto < U32
    ensures DataTold(PushPackets(e, buf, now), e, Going(buf, e.cfg, now), now) && AllAre(PushPackets(e, buf, now), CMD_PUSH)
  {
    hide Transmit, TurnOf, Goes;
    if buf != [] {
      PushPacketsTell(e, buf[1..], now);
      TransmitIsGone(buf[0], e.cfg, e.ctl.rtt.rto, now);
      TurnIs(buf[0], e.cfg, now);
      if Goes(buf[0], e.cfg, now) {
        assert PushPackets(e, buf, now)[1..] == PushPackets(e, buf[1..], now);
        assert Going(buf, e.cfg, now)[1..] == Going(buf[1..], e.cfg, now);
      } else {
        assert PushPackets(e, buf, now) == PushPackets(e, buf[1..], now);
        assert Going(buf, e.cfg, now) == Going(buf[1..], e.cfg, now);
      }
    }
  }

  /** A closed window is asked about when the probe timer, once started, has run out. */
  predicate AsksNow(c: Ctl, now: nat) {
    c.askSend || (c.rmtWnd == 0 && c.probeWait != 0 && (now - c.tsProbe) % U32 < 0x8000_0000)
  }

  lemma ProbesTell(e: Endpoint, u: Probes)
    ensures var ps := ProbePackets(e, ProbeTimer(e.ctl, u.clock), u);
            && Only(ps, CMD_WASK) == (if AsksNow(e.ctl, u.clock) then [ProbePacket(e, CMD_WASK, u.ask)] else [])
            && Only(ps, CMD_WINS) == (if e.ctl.askTell then [ProbePacket(e, CMD_WINS, u.tell)] else [])
            && Only(ps, CMD_ACK) == [] && Only(ps, CMD_PUSH) == []
  {
    var c := ProbeTimer(e.ctl, u.clock);
    assert c.askSend == AsksNow(e.ctl, u.clock) && c.askTell == e.ctl.askTell;
    hide ProbeTimer, Signed32, AsksNow, Only;
    var asks := if c.askSend then [ProbePacket(e, CMD_WASK, u.ask)] else [];
    var tells := if c.askTell then [ProbePacket(e, CMD_WINS, u.tell)] else [];
    assert AllAre(asks, CMD_WASK) && AllAre(tells, CMD_WINS);
    forall cmd | cmd == CMD_WASK || cmd == CMD_WINS || cmd == CMD_ACK || cmd == CMD_PUSH
      ensures Only(asks + tells, cmd) == if cmd == CMD_WASK then asks else if cmd == CMD_WINS then tells else []
    {
      OnlyConcat(asks, tells, cmd);
      OnlyOf(asks, cmd, CMD_WASK);
      OnlyOf(tells, cmd, CMD_WINS);
    }
  }

  /** Every packet of a timer turn: one acknowledgement for each that is owed, a question about a closed
      window when its timer has run out, the window when it is to be announced, and one data packet for
      each segment, numbered before or just now, that goes. */
  ghost predicate TurnTold(e: Endpoint, now: nat, u: Probes, ps: seq<Packet>) {
    && AcksTold(Only(ps, CMD_ACK), e)
    && DataTold(Only(ps, CMD_PUSH), e, Going(Numbered(e).snd.buf, e.cfg, now), now)
    && Only(ps, CMD_WASK) == (if AsksNow(e.ctl, u.clock) then [ProbePacket(e, CMD_WASK, u.ask)] else [])
    && Only(ps, CMD_WINS) == (if e.ctl.askTell then [ProbePacket(e, CMD_WINS, u.tell)] else [])
  }

  lemma TurnWrites(e: Endpoint, now: nat, u: Probes)
    requires UsableConfig(e.cfg) && |e.rcv.queue| <= e.cfg.rcvWnd && 0 <= e.ctl.rtt.rto < U32
    ensures TurnTold(e, now, u, UpdatePackets(e, now, u))
  {
    hide Only, AllAre, AckPackets, ProbePackets, PushPackets, ProbeTimer, SortSendQueue, SendWindow, AcksTold, DataTold, Going, Signed32;
    var acks, probes := AckPackets(e, e.rcv.acks), ProbePackets(e, ProbeTimer(e.ctl, u.clock), u);
    var data := PushPackets(e, Numbered(e).snd.buf, now);
    AckPacketsTell(e, e.rcv.acks);
    assert e.(rcv := e.rcv.(acks := e.rcv.acks)) == e;
    PushPacketsTell(e, Numbered(e).snd.buf, now);
    ProbesTell(e, u);
    assert UpdatePackets(e, now, u) == acks + probes + data;
    Three(acks, probes, data, CMD_ACK);
    Three(acks, probes, data, CMD_PUSH);
    Three(acks, probes, data, CMD_WASK);
    Three(acks, probes, data, CMD_WINS);
  }

  lemma Three(acks: seq<Packet>, probes: seq<Packet>, data: seq<Packet>, cmd: nat)
    requires AllAre(acks, CMD_ACK) && AllAre(data, CMD_PUSH)
    ensures Only(acks + probes + data, cmd)
            == (if cmd == CMD_ACK then acks else []) + Only(probes, cmd) + (if cmd == CMD_PUSH then data else [])
    ensures cmd != CMD_ACK && cmd != CMD_PUSH ==> Only(acks + probes + data, cmd) == Only(probes, cmd)
    ensures Only(probes, cmd) == [] && cmd == CMD_ACK ==> Only(acks + probes + data, cmd) == acks
    ensures Only(probes, cmd) == [] && cmd == CMD_PUSH ==> Only(acks + probes + data, cmd) == data
  {
    OnlyConcat(acks + probes, data, cmd);
    OnlyConcat(acks, probes, cmd);
    OnlyOf(acks, cmd, CMD_ACK);
    OnlyOf(data, cmd, CMD_PUSH);
  }

  // ---- what is kept ----

  /** The buffer after a turn: what went is marked so, anything else stays exactly as it was. */
  lemma TurnKeeps(e: Endpoint, now: nat, u: Probes)
    requires ValidConfig(e.cfg) && 0 <= e.ctl.rtt.rto < U32
    ensures var buf, buf' := Numbered(e).snd.buf, Update(e, now, u).snd.buf;
            && |buf'| == |buf|
            && forall i :: 0 <= i < |buf| ==> buf'[i] == if Goes(buf[i], e.cfg, now) then Gone(buf[i], e.cfg, e.ctl.rtt.rto, now) else buf[i]
  {
    UpdateIs(e, now, u);
    hide Update, Goes, Gone, SortSendQueue, SendWindow, TransmitAll;
    var buf := Numbered(e).snd.buf;
    forall i | 0 <= i < |buf|
      ensures Update(e, now, u).snd.buf[i] == if Goes(buf[i], e.cfg, now) then Gone(buf[i], e.cfg, e.ctl.rtt.rto, now) else buf[i]
    {
      TransmitAllAt(buf, e.cfg, e.ctl.rtt.rto, now, i);
    }
  }

  function Inflight(s: Snd): nat { if s.nxt >= s.una then s.nxt - s.una else 0 }

  lemma UpdateIs(e: Endpoint, now: nat, u: Probes)
    requires UsableConfig(e.cfg)
    ensures var s, e' := Numbered(e).snd, Update(e, now, u);
            && e'.snd == s.(buf := TransmitAll(s.buf, e.cfg, e.ctl.rtt.rto, now))
            && e'.rcv == e.rcv.(acks := []) && e' == e.(snd := e'.snd, rcv := e'.rcv, ctl := e'.ctl, written := e'.written)
            && e'.ctl == ProbeTimer(e.ctl, u.clock).(askSend := false, askTell := false, cw := e'.ctl.cw)
            && e'.ctl.cw == Decrease(e.ctl.cw, AnyTurn(s.buf, e.cfg, now, FastResend), AnyTurn(s.buf, e.cfg, now, Timeout),
                                     SendLimit(e.ctl.cw, e.cfg.sndWnd, e.ctl.rmtWnd, e.cfg.nocwnd), Inflight(s), e.cfg.fastresend, Mss(e.cfg))
  {
    hide SortSendQueue, TransmitAll, AnyTurn, SendPackets, UpdatePackets, Decrease, SendLimit, Signed32, Mss;
  }

  // ---- the congestion window ----

  ghost predicate SomeOverdue(buf: seq<Seg>, now: nat) { exists i :: 0 <= i < |buf| && Overdue(buf[i], now) }

  ghost predicate SomeSkipped(buf: seq<Seg>, cfg: Config, now: nat) { exists i :: 0 <= i < |buf| && Skipped(buf[i], cfg, now) }

  lemma AnyTurnIs(buf: seq<Seg>, cfg: Config, now: nat)
    ensures AnyTurn(buf, cfg, now, Timeout) <==> SomeOverdue(buf, now)
    ensures AnyTurn(buf, cfg, now, FastResend) <==> SomeSkipped(buf, cfg, now)
  {
    hide TurnOf, Overdue, Skipped, Goes;
    forall i | 0 <= i < |buf|
      ensures TurnOf(buf[i], cfg, now) == Timeout <==> Overdue(buf[i], now)
      ensures TurnOf(buf[i], cfg, now) == FastResend <==> Skipped(buf[i], cfg, now)
    {
      TurnIs(buf[i], cfg, now);
    }
  }

  /** A timeout starts over with one segment and half the window as threshold. A segment that was only
      skipped halves the threshold against what is in flight. Otherwise the window stays as it is. */
  lemma WindowAfterTurn(e: Endpoint, now: nat, u: Probes)
    requires ValidConfig(e.cfg) && 1 <= e.ctl.cw.cwnd && e.cfg.fastresend + e.cfg.sndWnd + 2 < U32 && SndOk(Numbered(e).snd, e.cfg)
    ensures var s, c, c', mss := Numbered(e).snd, e.ctl.cw, Update(e, now, u).ctl.cw, Mss(e.cfg);
            && (SomeOverdue(s.buf, now) ==>
                  c' == Cwnd(1, mss, KcpCongestion.Max(SendLimit(c, e.cfg.sndWnd, e.ctl.rmtWnd, e.cfg.nocwnd) / 2, 2)))
            && (!SomeOverdue(s.buf, now) && SomeSkipped(s.buf, e.cfg, now) ==>
                  && c'.ssthresh == KcpCongestion.Max((s.nxt - s.una) / 2, 2)
                  && c'.cwnd == (if e.cfg.fastresend > 0 then c'.ssthresh + e.cfg.fastresend else c'.ssthresh - 1)
                  && c'.incr == c'.cwnd * mss % U32)
            && (!SomeOverdue(s.buf, now) && !SomeSkipped(s.buf, e.cfg, now) ==> c' == c)
  {
    hide Update, AnyTurn, SomeOverdue, SomeSkipped, SortSendQueue, SendWindow, SendLimit, Sent, Ordered, Stream, Keys, Mss, TransmitAll, ProbeTimer, Decrease;
    UpdateIs(e, now, u);
    var s := Numbered(e).snd;
    AnyTurnIs(s.buf, e.cfg, now);
    DecreaseIs(e.ctl.cw, SomeSkipped(s.buf, e.cfg, now), SomeOverdue(s.buf, now), SendLimit(e.ctl.cw, e.cfg.sndWnd, e.ctl.rmtWnd, e.cfg.nocwnd),
               Inflight(s), e.cfg.fastresend, Mss(e.cfg));
  }

  // ---- numbering ----

  /** The number of fragments that get a number. */
  function NewlyNumbered(s: Snd, end: nat): nat {
    if end <= s.nxt then 0 else if s.nxt + |s.queue| <= end then |s.queue| else end - s.nxt
  }

  function Fresh(sn: nat, frag: Frag): Seg { Seg(sn, frag, 0, 0, 0, 0, 0) }

  /** These fragments numbered from sn on. */
  function FreshFrom(sn: nat, frags: seq<Frag>): seq<Seg> { seq(|frags|, i requires 0 <= i < |frags| => Fresh(sn + i, frags[i])) }

  /** Numbering takes as many waiting fragments as the window has room for, in order. */
  lemma {:induction false} NumbersInOrder(s: Snd, wnd: nat)
    ensures var n := NewlyNumbered(s, WindowEnd(s.una, wnd));
            && n <= |s.queue|
            && SortSendQueue(s, wnd) == s.(queue := s.queue[n..], nxt := s.nxt + n,
                                           buf := s.buf + FreshFrom(s.nxt, s.queue[..n]))
    decreases |s.queue|
  {
    var end := WindowEnd(s.una, wnd);
    hide WindowEnd;
    var n := NewlyNumbered(s, end);
    if n == 0 {
      assert s.queue[0..] == s.queue;
      assert FreshFrom(s.nxt, s.queue[..0]) == [] && s.buf + [] == s.buf;
    } else {
      var s1 := NumberOne(s);
      NumbersInOrder(s1, wnd);
      var rest, all := FreshFrom(s1.nxt, s1.queue[..n - 1]), FreshFrom(s.nxt, s.queue[..n]);
      assert all == [Fresh(s.nxt, s.queue[0])] + rest;
      assert s1.buf + rest == s.buf + all;
      assert s1.queue[n - 1..] == s.queue[n..];
      assert SortSendQueue(s, wnd) == SortSendQueue(s1, wnd);
    }
  }

  /** The window of a turn is the largest that neither the peer, nor the configuration, nor congestion
      forbids, and never less than one segment. */
  lemma SendWindowIs(e: Endpoint)
    ensures var w := SendWindow(e);
            && 1 <= w && (w > 1 ==> w <= e.ctl.rmtWnd && w <= e.cfg.sndWnd && (!e.cfg.nocwnd ==> w <= e.ctl.cw.cwnd))
            && (w == 1 || w == e.ctl.rmtWnd || w == e.cfg.sndWnd || (!e.cfg.nocwnd && w == e.ctl.cw.cwnd))
            && (w == 1 ==> e.ctl.rmtWnd <= 1 || e.cfg.sndWnd <= 1 || (!e.cfg.nocwnd && e.ctl.cw.cwnd <= 1))
  {
  }

  /** A turn numbers nothing at or past snd_una plus the window of the peer, or one segment if that is
      closed, and it stops short of its window only when nothing waits any more. */
  lemma TurnNumbers(e: Endpoint, now: nat, u: Probes)
    requires ValidConfig(e.cfg)
    ensures var s, s', w := e.snd, Update(e, now, u).snd, SendWindow(e);
            && s.nxt <= s'.nxt && s'.una == s.una && |s'.queue| == |s.queue| - (s'.nxt - s.nxt)
            && (s'.nxt > s.nxt ==> s'.nxt <= s.una + KcpCongestion.Max(1, e.ctl.rmtWnd))
            && (s'.queue != [] ==> s'.nxt >= WindowEnd(s.una, w))
  {
    UpdateIs(e, now, u);
    SendWindowIs(e);
    NumbersInOrder(e.snd, SendWindow(e));
    hide Update, SendWindow, TransmitAll, SortSendQueue;
  }

  // ---- what reaches the network ----

  /** The packets of a turn are what its datagrams parse to, behind those of earlier ones. */
  lemma TurnParses(x: Endpoint, y: Endpoint, now: nat, u: Probes)
    requires Paired(x, y) && now < U32 && HarmlessProbes(u, x)
    ensures ParseDatagrams(Update(x, now, u).written) == ParseDatagrams(x.written) + UpdatePackets(x, now, u)
    ensures |x.written| <= |Update(x, now, u).written| && Update(x, now, u).written[..|x.written|] == x.written
  {
    hide SndOk, Linked, Sent, Received, SortSendQueue, UpdatePackets, Update, GoodPacket, SendPackets, ParseAll, HarmlessProbes;
    UpdateFromNumbered(x, now, u);
    AcksKnown(x, y);
    UpdatePacketsGood(x, y, now, u);
    var ps := UpdatePackets(x, now, u);
    assert KcpWire.Sendable(ps, x.cfg.mtu) by {
      forall q | q in ps ensures InRange(q) && PacketSize(q) <= x.cfg.mtu { GoodInRange(q, Numbered(x)); }
    }
    assert Packed(Pool([], x.written), x.cfg.mtu, [], ParseDatagrams(x.written));
    var end := PackedParse(Pool([], x.written), x.cfg.mtu, ps);
  }

  lemma GoodInRange(p: Packet, e: Endpoint)
    requires ValidConfig(e.cfg) && GoodPacket(p, e)
    ensures InRange(p)
  {
  }
}
