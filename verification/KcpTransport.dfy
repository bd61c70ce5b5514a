/** The KCP endpoint in its own form: an object whose methods update its fields. Each method is
    specified by the function of KcpState that says what the operation does. */
module KcpTransport {
  import opened LittleEndian
  import opened KcpWire
  import opened KcpRtt
  import opened KcpCongestion
  import opened KcpState
  import KcpStream

  class KcpTransport {
    const cfg: Config
    var convInit: bool
    var conv: nat
    // send side
    var sndUna: nat
    var sndNxt: nat
    var sndQueue: seq<Frag>
    var sndBuf: seq<Seg>
    ghost var accepted: seq<seq<byte>>
    // receive side
    var rcvNxt: nat
    var rcvBuf: seq<RSeg>
    var rcvQueue: seq<Frag>
    var ackList: seq<Ack>
    ghost var onRead: seq<Delivered>
    // round trip time, congestion window, window probes
    var rxSrtt: int
    var rxRttval: int
    var rxRto: int
    var rmtWnd: nat
    var cwnd: nat
    var incr: nat
    var ssthresh: nat
    var askSend: bool
    var askTell: bool
    var tsProbe: nat
    var probeWait: nat
    // output: the first poolSize bytes of the pool wait for the next datagram
    const bufferPool: array<byte>
    var poolSize: nat
    var onWrite: seq<seq<byte>>

    ghost function SndView(): Snd
      reads this
    {
      Snd(accepted, sndQueue, sndBuf, sndUna, sndNxt)
    }

    ghost function RcvView(): Rcv
      reads this
    {
      Rcv(rcvNxt, rcvBuf, rcvQueue, ackList, onRead)
    }

    function CwView(): Cwnd
      reads this
    {
      Cwnd(cwnd, incr, ssthresh)
    }

    function RttView(): Rtt
      reads this
    {
      Rtt(rxSrtt, rxRttval, rxRto)
    }

    function CtlView(): Ctl
      reads this
    {
      Ctl(rmtWnd, CwView(), RttView(), askSend, askTell, tsProbe, probeWait)
    }

    predicate PoolOk()
      reads this
    {
      bufferPool.Length == POOL && poolSize <= POOL
    }

    function PoolView(): Pool
      requires PoolOk()
      reads this, bufferPool
    {
      Pool(bufferPool[..poolSize], onWrite)
    }

    ghost function View(): Endpoint
      reads this
    {
      Endpoint(cfg, convInit, conv, SndView(), RcvView(), CtlView(), onWrite)
    }

    constructor (cfg: Config, convInit: bool, conv: nat)
      requires ValidConfig(cfg)
      ensures View() == Initial(cfg, convInit, conv)
      ensures fresh(bufferPool) && PoolOk() && poolSize == 0
    {
      this.cfg := cfg;
      this.convInit, this.conv := convInit, conv;
      sndUna, sndNxt, sndQueue, sndBuf, accepted := 0, 0, [], [], [];
      rcvNxt, rcvBuf, rcvQueue, ackList, onRead := 0, [], [], [], [];
      rxSrtt, rxRttval, rxRto := 0, 0, RTO_DEF;
      rmtWnd, cwnd, incr, ssthresh := WND_RCV, 1, 0, 2;
      askSend, askTell, tsProbe, probeWait := false, false, 0, 0;
      bufferPool, poolSize, onWrite := new byte[POOL](_ => 0), 0, [];
    }

    /** send: split a message into fragments numbered down to 0. */
    method Send(msg: seq<byte>) returns (result: SendResult)
      requires ValidConfig(cfg)
      modifies `sndQueue, `accepted
      ensures result == SendOutcome(old(View()), msg)
      ensures View() == KcpState.Send(old(View()), msg)
    {
      var mss := Mss(cfg);
      if !convInit {
        return Refused;
      }
      if |msg| == 0 {
        return Empty;
      }
      if |msg| >= mss * WND_RCV {
        return Refused;
      }
      hide Fragments, FragCount;
      var data := msg;
      var count := FragCount(|data|, mss);
      FragCountOf(data, mss);
      for i := 0 to count
        invariant |Fragments(data, mss)| == count - i
        invariant sndQueue + Fragments(data, mss) == old(sndQueue) + Fragments(msg, mss)
        invariant accepted == old(accepted)
      {
        FragCountOf(data, mss);
        var len := KcpCongestion.Min(|data|, mss);
        FrontFragment(data, mss);
        AppendHead(sndQueue, Fragments(data, mss), Frag(count - i - 1, data[..len]), Fragments(data[len..], mss));
        sndQueue := sndQueue + [Frag(count - i - 1, data[..len])];
        data := data[len..];
      }
      assert sndQueue + Fragments(data, mss) == sndQueue;
      accepted := accepted + [msg];
      return Accepted(|msg|);
    }

    method DropCacheByUna(una: nat)
      modifies `sndBuf, `sndUna
      ensures SndView() == DropByUna(old(SndView()), una)
    {
      if una <= sndUna {
        return;
      }
      while |sndBuf| > 0
        invariant DropBelow(sndBuf, una) == DropBelow(old(sndBuf), una)
      {
        if una <= sndBuf[0].sn {
          break;
        }
        sndBuf := sndBuf[1..];
      }
      sndUna := if |sndBuf| == 0 then sndNxt else sndBuf[0].sn;
    }

    method DropCacheByAck(sn: nat)
      modifies `sndBuf, `sndUna
      ensures SndView() == DropByAck(old(SndView()), sn)
    {
      hide EraseSn;
      if sn < sndUna {
        return;
      }
      ErasePacket(sn);
      sndUna := if |sndBuf| == 0 then sndNxt else sndBuf[0].sn;
    }

    /** The search of dropCacheByAck for the segment. */
    method ErasePacket(sn: nat)
      modifies `sndBuf
      ensures sndBuf == EraseSn(old(sndBuf), sn)
    {
      hide EraseSn, Erasing;
      ghost var before, after := sndBuf, EraseSn(sndBuf, sn);
      EraseStart(before, sn);
      var i := 0;
      while i < |sndBuf|
        invariant 0 <= i <= |sndBuf| && sndBuf == before && Erasing(before, i, sn, after)
      {
        EraseStep(before, i, sn, after);
        if sn < sndBuf[i].sn {
          return;
        } else if sn == sndBuf[i].sn {
          sndBuf := sndBuf[..i] + sndBuf[i + 1..];
          return;
        }
        i := i + 1;
      }
      EraseEnd(before, i, sn, after);
    }

    method UpdateFastAck(sn: nat, ts: nat)
      modifies `sndBuf
      ensures SndView() == KcpState.UpdateFastAck(old(SndView()), sn, ts, cfg.conserve)
    {
      hide BumpFastAck;
      if sn < sndUna || sn >= sndNxt {
        return;
      }
      var i := 0;
      ghost var after := BumpFastAck(sndBuf, sn, ts, cfg.conserve);
      assert sndBuf[0..] == sndBuf;
      while i < |sndBuf|
        invariant 0 <= i <= |sndBuf|
        invariant after == sndBuf[..i] + BumpFastAck(sndBuf[i..], sn, ts, cfg.conserve)
      {
        BumpStep(sndBuf, i, sn, ts, cfg.conserve, after);
        var seg := sndBuf[i];
        if sn < seg.sn {
          break;
        } else if sn != seg.sn {
          if !cfg.conserve || ts > seg.ts {
            sndBuf := sndBuf[i := seg.(fastack := seg.fastack + 1)];
          }
        }
        i := i + 1;
      }
      assert sndBuf == after by {
        BumpEnd(sndBuf, i, sn, ts, cfg.conserve, after);
      }
    }

    method UpdateRtt(rtt: int)
      modifies `rxSrtt, `rxRttval, `rxRto
      ensures RttView() == KcpRtt.UpdateRtt(old(RttView()), rtt, cfg.interval, cfg.minrto)
    {
      if rtt < 0 {
        return;
      }
      if rxSrtt == 0 {
        rxSrtt := rtt;
        rxRttval := rtt / 2;
      } else {
        var delta := Abs(rtt - rxSrtt);
        rxRttval := (3 * rxRttval + delta) / 4;
        rxSrtt := (7 * rxSrtt + rtt) / 8;
        if rxSrtt < 1 {
          rxSrtt := 1;
        }
      }
      var rto := rxSrtt + KcpRtt.Max(cfg.interval, 4 * rxRttval);
      rxRto := Bound(cfg.minrto, rto, RTO_MAX);
    }

    method IncreaseCwnd()
      requires ValidConfig(cfg)
      modifies `cwnd, `incr
      ensures CwView() == Increase(old(CwView()), rmtWnd, Mss(cfg))
    {
      hide Wrap, Avoid;
      if cwnd >= rmtWnd {
        return;
      }
      var mss := Mss(cfg);
      if cwnd < ssthresh {
        cwnd := Wrap(cwnd + 1);
        incr := Wrap(incr + mss);
      } else {
        AvoidCongestion();
      }
      if cwnd > rmtWnd {
        cwnd := rmtWnd;
        incr := Wrap(rmtWnd * mss);
      }
    }

    /** The congestion avoidance branch of increaseCwnd. */
    method AvoidCongestion()
      requires ValidConfig(cfg)
      modifies `cwnd, `incr
      ensures CwView() == Avoid(old(CwView()), Mss(cfg))
    {
      hide Wrap, AvoidIncrement, SegmentsCovered, NextSegment;
      var mss := Mss(cfg);
      if incr < mss {
        incr := mss;
      }
      incr := Wrap(incr + AvoidIncrement(incr, mss));
      if NextSegment(cwnd, mss) <= incr {
        cwnd := SegmentsCovered(incr, mss);
      }
    }

    method DecreaseCwnd(change: bool, lost: bool)
      requires ValidConfig(cfg)
      modifies `cwnd, `incr, `ssthresh
      ensures var inflight := if sndNxt >= sndUna then sndNxt - sndUna else 0;
              var limit := SendLimit(old(CwView()), cfg.sndWnd, rmtWnd, cfg.nocwnd);
              CwView() == Decrease(old(CwView()), change, lost, limit, inflight, cfg.fastresend, Mss(cfg))
    {
      hide Wrap, Resent, Mss;
      var resent := Resent(cfg.fastresend);
      var limit := KcpCongestion.Min(cfg.sndWnd, rmtWnd);
      if !cfg.nocwnd {
        limit := KcpCongestion.Min(cwnd, limit);
      }
      if change {
        var inflight := if sndNxt >= sndUna then sndNxt - sndUna else 0;
        ssthresh := inflight / 2;
        if ssthresh < THRESH_MIN {
          ssthresh := THRESH_MIN;
        }
        cwnd := Wrap(ssthresh + resent);
        incr := Wrap(cwnd * Mss(cfg));
      }
      if lost {
        ssthresh := limit / 2;
        if ssthresh < THRESH_MIN {
          ssthresh := THRESH_MIN;
        }
        cwnd := 1;
        incr := Mss(cfg);
      }
      if cwnd < 1 {
        cwnd := 1;
        incr := Mss(cfg);
      }
    }

    method HandleCmdPush(p: Packet)
      modifies `ackList, `rcvBuf
      ensures View() == old(View()).(rcv := HandlePush(old(RcvView()), p, cfg.rcvWnd))
    {
      hide InsertSorted;
      if p.sn >= WindowEnd(rcvNxt, cfg.rcvWnd) {
        return;
      }
      ackList := ackList + [Ack(p.sn, p.ts)];
      if p.sn < rcvNxt {
        return;
      }
      InsertPacket(RSeg(p.sn, Frag(p.frg, p.payload)));
    }

    /** The search of handleCmdPush for the place of a segment. */
    method InsertPacket(seg: RSeg)
      modifies `rcvBuf
      ensures rcvBuf == InsertSorted(old(rcvBuf), seg)
    {
      hide InsertSorted, Inserting;
      ghost var before, after := rcvBuf, InsertSorted(rcvBuf, seg);
      InsertStart(before, seg);
      var i := 0;
      while i < |rcvBuf|
        invariant 0 <= i <= |rcvBuf| && rcvBuf == before && Inserting(before, i, seg, after)
      {
        InsertStep(before, i, seg, after);
        if rcvBuf[i].sn == seg.sn {
          return;
        }
        if rcvBuf[i].sn > seg.sn {
          rcvBuf := rcvBuf[..i] + [seg] + rcvBuf[i..];
          return;
        }
        i := i + 1;
      }
      InsertEnd(before, i, seg, after);
      rcvBuf := rcvBuf + [seg];
    }

    method SortRecvBuf()
      modifies `rcvBuf, `rcvQueue, `rcvNxt
      ensures View() == old(View()).(rcv := KcpState.SortRecvBuf(old(RcvView())))
    {
      while |rcvBuf| > 0
        invariant KcpState.SortRecvBuf(RcvView()) == KcpState.SortRecvBuf(old(RcvView()))
        decreases |rcvBuf|
      {
        var packet := rcvBuf[0];
        if packet.sn == rcvNxt {
          rcvBuf := rcvBuf[1..];
          rcvQueue := rcvQueue + [packet.frag];
          rcvNxt := rcvNxt + 1;
        } else {
          break;
        }
      }
    }

    method PeekSize() returns (length: nat)
      ensures length == KcpState.PeekSize(rcvQueue)
    {
      if |rcvQueue| == 0 {
        return 0;
      }
      if |rcvQueue| < rcvQueue[0].frg + 1 {
        return 0;
      }
      length := 0;
      var i := 0;
      while i < |rcvQueue|
        invariant 0 <= i <= |rcvQueue|
        invariant length + SizeUpTo(rcvQueue[i..]) == SizeUpTo(rcvQueue)
      {
        var seg := rcvQueue[i];
        assert rcvQueue[i..][1..] == rcvQueue[i + 1..];
        length := length + |seg.data|;
        if seg.frg == 0 {
          break;
        }
        i := i + 1;
      }
    }

    /** onData: order what arrived, hand over complete messages. */
    method OnData()
      requires NeverRunsDry(KcpState.SortRecvBuf(RcvView()).queue)
      modifies `rcvBuf, `rcvQueue, `rcvNxt, `onRead, `askTell
      ensures View() == KcpState.OnData(old(View()))
    {
      hide KcpState.SortRecvBuf, DrainQueue, NeverRunsDry;
      SortRecvBuf();
      var fastRecover := |rcvQueue| >= cfg.rcvWnd;
      MergeFragments();
      if |rcvQueue| < cfg.rcvWnd && fastRecover {
        askTell := true;
      }
    }

    /** The merge loop of onData. */
    method MergeFragments()
      requires NeverRunsDry(rcvQueue)
      modifies `rcvQueue, `onRead
      ensures View() == old(View()).(rcv := DrainQueue(old(RcvView())))
    {
      hide DrainQueue, NeverRunsDry, KcpState.PeekSize;
      var size := PeekSize();
      while size > 0
        invariant size == KcpState.PeekSize(rcvQueue) && NeverRunsDry(rcvQueue)
        invariant DrainQueue(RcvView()) == DrainQueue(old(RcvView()))
        decreases |rcvQueue|
      {
        TakeMessage(size);
        size := PeekSize();
      }
      DrainedAlready(RcvView());
    }

    /** The inner loop of onData: a new buffer for every fragment, handed over with the last one. */
    method TakeMessage(size: nat)
      requires size == KcpState.PeekSize(rcvQueue) > 0 && NeverRunsDry(rcvQueue)
      modifies `rcvQueue, `onRead
      ensures DrainQueue(RcvView()) == DrainQueue(old(RcvView()))
      ensures |rcvQueue| < |old(rcvQueue)| && NeverRunsDry(rcvQueue)
    {
      hide DrainQueue, NeverRunsDry, KcpState.PeekSize, LastFragment;
      ghost var q, k := rcvQueue, LastFragment(rcvQueue);
      DrainFront(RcvView());
      ghost var popped := 0;
      while true
        invariant popped <= k < |q| && rcvQueue == q[popped..] && LastFragment(rcvQueue) == k - popped
        invariant onRead == old(onRead)
        decreases |rcvQueue|
      {
        NextFragment(q, popped, k);
        var packet := rcvQueue[0];
        rcvQueue := rcvQueue[1..];
        if packet.frg == 0 {
          onRead := onRead + [Delivered(size, packet.data)];
          break;
        }
        popped := popped + 1;
      }
      assert rcvQueue == q[k + 1..];
    }

    method HandleAnyPacket(p: Packet)
      modifies `rmtWnd, `sndBuf, `sndUna
      ensures View() == HandleAny(old(View()), p)
    {
      hide DropByUna;
      rmtWnd := p.wnd;
      DropCacheByUna(p.una);
    }

    method HandleCmdAck(p: Packet, now: nat)
      modifies `sndBuf, `sndUna, `rxSrtt, `rxRttval, `rxRto
      ensures var rtt := KcpRtt.UpdateRtt(old(RttView()), Signed32(now - p.ts), cfg.interval, cfg.minrto);
              View() == old(View()).(snd := DropByAck(old(SndView()), p.sn), ctl := old(CtlView()).(rtt := rtt))
    {
      hide KcpRtt.UpdateRtt, Signed32, DropByAck;
      UpdateRtt(Signed32(now - p.ts));
      DropCacheByAck(p.sn);
    }

    /** One turn of the packet loop of input. */
    method HandlePacket(p: Packet, scan: Scan, now: nat) returns (scan': Scan)
      modifies this
      ensures (View(), scan') == KcpState.HandlePacket(old(View()), scan, p, now)
      ensures poolSize == old(poolSize)
    {
      hide HandleAny, Dispatch;
      scan' := scan;
      if !convInit {
        conv := p.conv;
        convInit := true;
      } else if conv != p.conv {
        return;
      }
      if !KnownCmd(p.cmd) {
        return;
      }
      HandleAnyPacket(p);
      scan' := DispatchPacket(p, scan, now);
    }

    /** The switch of input. */
    method DispatchPacket(p: Packet, scan: Scan, now: nat) returns (scan': Scan)
      modifies this
      ensures (View(), scan') == Dispatch(old(View()), scan, p, now)
      ensures poolSize == old(poolSize)
    {
      hide DropByAck, HandlePush, KcpRtt.UpdateRtt, Signed32, NoteAck;
      scan' := scan;
      if p.cmd == CMD_ACK {
        HandleCmdAck(p, now);
        scan' := NoteAck(scan, p, cfg.conserve);
      } else if p.cmd == CMD_PUSH {
        HandleCmdPush(p);
        scan' := scan.(hasData := true);
      } else if p.cmd == CMD_WASK {
        askTell := true;
      }
    }

    /** input: read one datagram. */
    method Input(datagram: seq<byte>, now: nat)
      requires ValidConfig(cfg) && InputIsSafe(View(), datagram, now)
      modifies this
      ensures View() == KcpState.Input(old(View()), datagram, now) && poolSize == old(poolSize)
    {
      hide HandlePackets, KcpState.FinishInput, ParseAll, NeverRunsDry, KcpState.SortRecvBuf;
      var prevUna := sndUna;
      HandlePacketsCfg(View(), NoScan, ParseAll(datagram), now);
      var scan := ReadPackets(datagram, now);
      FinishInput(scan, prevUna);
    }

    /** The tail of input. */
    method FinishInput(scan: Scan, prevUna: nat)
      requires ValidConfig(cfg)
      requires scan.hasData ==> NeverRunsDry(KcpState.SortRecvBuf(RcvView()).queue)
      modifies this
      ensures View() == KcpState.FinishInput(old(View()), scan, prevUna) && poolSize == old(poolSize)
    {
      hide KcpState.UpdateFastAck, KcpState.OnData, Increase, NeverRunsDry, KcpState.SortRecvBuf;
      ghost var e := View();
      if scan.fastAck {
        UpdateFastAck(scan.maxAck, scan.latestTs);
      }
      ghost var e1 := if scan.fastAck then e.(snd := KcpState.UpdateFastAck(e.snd, scan.maxAck, scan.latestTs, cfg.conserve)) else e;
      assert View() == e1;
      if sndUna > prevUna {
        IncreaseCwnd();
      }
      assert View() == if e1.snd.una > prevUna then e1.(ctl := e1.ctl.(cw := Increase(e1.ctl.cw, rmtWnd, Mss(cfg)))) else e1;
      assert RcvView() == old(RcvView());
      if scan.hasData {
        OnData();
      }
    }

    /** The packet loop of input. */
    method ReadPackets(datagram: seq<byte>, now: nat) returns (scan: Scan)
      modifies this
      ensures (View(), scan) == KcpState.HandlePackets(old(View()), NoScan, ParseAll(datagram), now)
      ensures poolSize == old(poolSize)
    {
      hide KcpState.HandlePacket, Parse;
      var data := datagram;
      scan := NoScan;
      ghost var start := View();
      while |data| > 0
        invariant KcpState.HandlePackets(View(), scan, ParseAll(data), now) == KcpState.HandlePackets(start, NoScan, ParseAll(datagram), now)
        invariant poolSize == old(poolSize)
        decreases |data|
      {
        var parsed := Parse(data);
        if parsed.Failed? {
          break;
        }
        var packet := parsed.packet;
        ghost var rest := ParseAll(data)[1..];
        data := data[PacketSize(packet)..];
        assert rest == ParseAll(data);
        scan := HandlePacket(packet, scan, now);
      }
      assert ParseAll(data) == [] by {
        ParseNothing(data);
      }
    }

    /** sendPacket and flushPool: packets share a datagram up to the mtu. The copy must stay within
        the pool. */
    method SendPacket(p: Packet)
      requires PoolOk() && FitsPool(PoolView(), cfg.mtu, p)
      modifies `poolSize, `onWrite, bufferPool
      ensures PoolOk() && PoolView() == KcpWire.SendPacket(old(PoolView()), cfg.mtu, p)
    {
      hide Encode;
      var bytes := Encode(p);
      if |bytes| + poolSize > cfg.mtu {
        FlushPool();
      }
      forall i | 0 <= i < |bytes| {
        bufferPool[poolSize + i] := bytes[i];
      }
      poolSize := poolSize + |bytes|;
    }

    method FlushPool()
      requires PoolOk()
      modifies `poolSize, `onWrite
      ensures PoolOk() && PoolView() == KcpWire.FlushPool(old(PoolView()))
      ensures View() == old(View()).(written := onWrite)
    {
      onWrite := onWrite + [bufferPool[..poolSize]];
      poolSize := 0;
    }

    method SendAckList()
      requires PoolOk() && NeverOverruns(PoolView(), cfg.mtu, AckPackets(View(), ackList))
      modifies `ackList, `poolSize, `onWrite, bufferPool
      ensures View() == old(View()).(rcv := old(RcvView()).(acks := []), written := onWrite) && PoolOk()
      ensures PoolView() == SendPackets(old(PoolView()), cfg.mtu, AckPackets(old(View()), old(ackList)))
    {
      hide KcpWire.SendPacket, FitsPool;
      ghost var start := View();
      while |ackList| > 0
        invariant PoolOk() && NeverOverruns(PoolView(), cfg.mtu, AckPackets(start, ackList))
        invariant SendPackets(PoolView(), cfg.mtu, AckPackets(start, ackList)) == SendPackets(old(PoolView()), cfg.mtu, AckPackets(start, old(ackList)))
        decreases |ackList|
      {
        var front := ackList[0];
        ghost var packets := AckPackets(start, ackList);
        ackList := ackList[1..];
        var wnd := (cfg.rcvWnd - |rcvQueue|) % U16;
        SendPacket(Packet(conv, CMD_ACK, 0, wnd, front.ts, front.sn, rcvNxt, []));
        assert packets[1..] == AckPackets(start, ackList);
      }
    }

    method SendProbePacket(u: Probes)
      requires PoolOk() && NeverOverruns(PoolView(), cfg.mtu, ProbePackets(View(), ProbeTimer(CtlView(), u.clock), u))
      modifies this, bufferPool
      ensures View() == old(View()).(ctl := ProbeTimer(old(CtlView()), u.clock).(askSend := false, askTell := false), written := onWrite)
      ensures PoolOk()
      ensures PoolView() == SendPackets(old(PoolView()), cfg.mtu, ProbePackets(old(View()), ProbeTimer(old(CtlView()), u.clock), u))
    {
      hide NeverOverruns, SendPackets, ProbeTimer;
      AdvanceProbeTimer(u.clock);
      SendProbes(u);
      askSend, askTell := false, false;
    }

    /** The probes that are asked for. */
    method SendProbes(u: Probes)
      requires PoolOk() && NeverOverruns(PoolView(), cfg.mtu, ProbePackets(View(), CtlView(), u))
      modifies `poolSize, `onWrite, bufferPool
      ensures PoolOk() && PoolView() == SendPackets(old(PoolView()), cfg.mtu, ProbePackets(old(View()), CtlView(), u))
    {
      hide KcpWire.SendPacket, FitsPool, NeverOverruns, SendPackets;
      ghost var start := View();
      SendTwo(PoolView(), cfg.mtu, askSend, ProbePacket(start, CMD_WASK, u.ask), askTell, ProbePacket(start, CMD_WINS, u.tell));
      if askSend {
        SendPacket(Packet(conv, CMD_WASK, 0, u.ask.wnd, u.ask.ts, u.ask.sn, u.ask.una, []));
      }
      if askTell {
        SendPacket(Packet(conv, CMD_WINS, 0, u.tell.wnd, u.tell.ts, u.tell.sn, u.tell.una, []));
      }
    }

    method AdvanceProbeTimer(now: nat)
      modifies `askSend, `tsProbe, `probeWait
      ensures View() == old(View()).(ctl := ProbeTimer(old(CtlView()), now))
    {
      hide Signed32;
      if rmtWnd == 0 {
        if probeWait == 0 {
          probeWait := PROBE_INIT;
          tsProbe := (now + probeWait) % U32;
        } else if Signed32(now - tsProbe) >= 0 {
          if probeWait < PROBE_INIT {
            probeWait := PROBE_INIT;
          }
          probeWait := probeWait + probeWait / 2;
          if probeWait > PROBE_LIMIT {
            probeWait := PROBE_LIMIT;
          }
          tsProbe := (now + probeWait) % U32;
          askSend := true;
        }
      } else {
        tsProbe := 0;
        probeWait := 0;
      }
      assert CtlView() == ProbeTimer(old(CtlView()), now);
    }

    method SortSendQueue()
      modifies `sndQueue, `sndBuf, `sndNxt
      ensures View() == old(View()).(snd := KcpState.SortSendQueue(old(SndView()), SendWindow(old(View()))))
    {
      var wnd := KcpCongestion.Min(cfg.sndWnd, rmtWnd);
      if !cfg.nocwnd {
        wnd := KcpCongestion.Min(cwnd, wnd);
      }
      wnd := KcpCongestion.Max(1, wnd);
      while |sndQueue| > 0
        invariant KcpState.SortSendQueue(SndView(), wnd) == KcpState.SortSendQueue(old(SndView()), wnd)
        decreases |sndQueue|
      {
        if sndNxt >= WindowEnd(sndUna, wnd) {
          break;
        }
        var frag := sndQueue[0];
        sndQueue := sndQueue[1..];
        sndBuf := sndBuf + [Seg(sndNxt, frag, 0, 0, 0, 0, 0)];
        sndNxt := sndNxt + 1;
      }
    }

    /** sendSendQueue: transmit what is new, overdue, or reported lost. */
    method SendSendQueue(now: nat)
      requires ValidConfig(cfg) && PoolOk()
      requires NeverOverruns(PoolView(), cfg.mtu, PushPackets(View(), KcpState.SortSendQueue(SndView(), SendWindow(View())).buf, now))
      modifies `sndQueue, `sndBuf, `sndNxt, `cwnd, `incr, `ssthresh, `poolSize, `onWrite, bufferPool
      ensures PoolOk() && poolSize == 0
      ensures View().(written := []) == KcpState.SendSendQueue(old(View()), now).(written := [])
      ensures PoolView() == KcpWire.FlushPool(SendPackets(old(PoolView()), cfg.mtu,
                              PushPackets(old(View()), KcpState.SortSendQueue(old(SndView()), SendWindow(old(View()))).buf, now)))
    {
      hide KcpState.SortSendQueue, TransmitAll, PushPackets, AnyTurn, Decrease, SendPackets, NeverOverruns, SendWindow, ValidConfig;
      ghost var start := View();
      SortSendQueue();
      var change, lost := TransmitBuffer(now, start);
      FlushPool();
      DecreaseCwnd(change, lost);
    }

    /** The loop of sendSendQueue over the send buffer. */
    method TransmitBuffer(now: nat, ghost e: Endpoint) returns (change: bool, lost: bool)
      requires e.cfg == cfg && e.conv == conv && e.rcv == RcvView() && e.ctl == CtlView()
      requires PoolOk() && NeverOverruns(PoolView(), cfg.mtu, PushPackets(e, sndBuf, now))
      modifies `sndBuf, `poolSize, `onWrite, bufferPool
      ensures PoolOk() && sndBuf == TransmitAll(old(sndBuf), cfg, rxRto, now)
      ensures PoolView() == SendPackets(old(PoolView()), cfg.mtu, PushPackets(e, old(sndBuf), now))
      ensures change == AnyTurn(old(sndBuf), cfg, now, FastResend) && lost == AnyTurn(old(sndBuf), cfg, now, Timeout)
    {
      hide TransmitAll, PushPackets, SendPackets, NeverOverruns, FitsPool, KcpWire.SendPacket;
      change, lost := false, false;
      var i := 0;
      ghost var before, after := sndBuf, TransmitAll(sndBuf, cfg, rxRto, now);
      ghost var sent := SendPackets(PoolView(), cfg.mtu, PushPackets(e, before, now));
      assert before[0..] == before;
      while i < |sndBuf|
        invariant 0 <= i <= |sndBuf| == |before| && sndBuf[i..] == before[i..]
        invariant after == sndBuf[..i] + TransmitAll(before[i..], cfg, rxRto, now)
        invariant PoolOk() && NeverOverruns(PoolView(), cfg.mtu, PushPackets(e, before[i..], now))
        invariant sent == SendPackets(PoolView(), cfg.mtu, PushPackets(e, before[i..], now))
        invariant change == (exists j :: 0 <= j < i && TurnOf(before[j], cfg, now) == FastResend)
        invariant lost == (exists j :: 0 <= j < i && TurnOf(before[j], cfg, now) == Timeout)
      {
        assert sndBuf[i] == before[i] by { assert sndBuf[i] == sndBuf[i..][0]; }
        TransmitStep(sndBuf, before, i, cfg, rxRto, now, after);
        PushStep(e, before, i, now, PoolView());
        var seg, turn := TransmitOne(sndBuf[i], now);
        change, lost := change || turn == FastResend, lost || turn == Timeout;
        if turn != Quiet {
          SendPacket(Packet(conv, CMD_PUSH, seg.frag.frg, (cfg.rcvWnd - |rcvQueue|) % U16, seg.ts, seg.sn, rcvNxt, seg.frag.data));
        }
        sndBuf := sndBuf[i := seg];
        i := i + 1;
      }
      TransmitEnd(sndBuf, before, i, cfg, rxRto, now, after, e, PoolView());
    }

    /** The loop body of sendSendQueue: why a segment goes out now, and its new bookkeeping. */
    method TransmitOne(seg0: Seg, now: nat) returns (seg: Seg, turn: Turn)
      ensures turn == TurnOf(seg0, cfg, now) && seg == Transmit(seg0, cfg, rxRto, now)
    {
      var resent := Resent(cfg.fastresend);
      var rtomin := if cfg.mode == Normal then rxRto / 8 else 0;
      seg, turn := seg0, Quiet;
      if seg.xmit == 0 {
        turn := FirstSend;
        seg := seg.(xmit := 1, rto := rxRto % U32, resendts := (now + rxRto + rtomin) % U32);
      } else if now >= seg.resendts {
        turn := Timeout;
        var rto := seg.rto;
        var longer := if cfg.mode != Normal then rto + KcpCongestion.Max(rto, rxRto % U32) else rto + rxRto / 2;
        seg := seg.(xmit := seg.xmit + 1, rto := longer % U32, resendts := (now + rto) % U32);
      } else if seg.fastack >= resent {
        if seg.xmit <= cfg.fastlimit || cfg.fastlimit <= 0 {
          turn := FastResend;
          seg := seg.(xmit := seg.xmit + 1, fastack := 0, resendts := (now + seg.rto) % U32);
        }
      }
      if turn != Quiet {
        seg := seg.(ts := now);
      }
    }

    /** update: acknowledgements, probes, data. */
    method Update(now: nat, u: Probes)
      requires ValidConfig(cfg) && PoolOk() && poolSize == 0 && UpdateIsSafe(View(), now, u)
      modifies this, bufferPool
      ensures View() == KcpState.Update(old(View()), now, u) && PoolOk() && poolSize == 0
    {
      hide Probed, UpdatePackets, SendPackets, PushPackets, NeverOverruns, UpdateIsSafe, SendWindow, KcpState.SortSendQueue, KcpState.SendSendQueue, KcpState.Update, ValidConfig;
      ghost var start := View();
      SendControl(now, u);
      ghost var probed := View();
      SendSendQueue(now);
      UpdateDone(start, probed, View(), PoolView(), now, u);
    }

    /** The first two parts of update. */
    method SendControl(now: nat, u: Probes)
      requires PoolOk() && poolSize == 0 && UpdateIsSafe(View(), now, u)
      modifies this, bufferPool
      ensures PoolOk() && View() == Probed(old(View()), u).(written := onWrite)
      ensures Ready(old(View()), View(), PoolView(), now, u)
    {
      hide Ready, SendPackets, AckPackets, ProbePackets, ProbeTimer, NeverOverruns, UpdateIsSafe;
      ghost var start := View();
      assert PoolView() == Pool([], onWrite);
      AcksFit(start, now, u);
      SendAckList();
      ProbesFit(start, View(), PoolView(), now, u);
      SendProbePacket(u);
      ControlDone(start, View(), PoolView(), now, u);
    }
  }

  /** An endpoint between the probes and the data of an update. */
  function Probed(e: Endpoint, u: Probes): Endpoint {
    e.(rcv := e.rcv.(acks := []), ctl := ProbeTimer(e.ctl, u.clock).(askSend := false, askTell := false))
  }

  lemma UpdateDone(start: Endpoint, probed: Endpoint, end: Endpoint, pool: Pool, now: nat, u: Probes)
    requires ValidConfig(start.cfg) && probed == Probed(start, u).(written := probed.written)
    requires end.(written := []) == KcpState.SendSendQueue(probed, now).(written := []) && end.written == pool.written
    requires pool == KcpWire.FlushPool(SendPackets(Pool([], start.written), start.cfg.mtu, UpdatePackets(start, now, u)))
    ensures end == KcpState.Update(start, now, u)
  {
    hide SendPackets, UpdatePackets, ProbeTimer, KcpState.SortSendQueue, TransmitAll, AnyTurn, Decrease, SendLimit, SendWindow;
    WindowIgnoresWritten(probed, Probed(start, u));
  }

  lemma WindowIgnoresWritten(e: Endpoint, f: Endpoint)
    requires e.cfg == f.cfg && e.ctl == f.ctl
    ensures SendWindow(e) == SendWindow(f)
  {
  }

  // ---- Lemmas the loops use ----

  lemma FragCountOf(data: seq<byte>, mss: nat)
    requires mss > 0
    ensures |Fragments(data, mss)| == FragCount(|data|, mss)
    ensures |data| > 0 <==> |Fragments(data, mss)| > 0
  {
    KcpStream.FragmentsLength(data, mss);
  }

  lemma FrontFragment(data: seq<byte>, mss: nat)
    requires mss > 0 && |data| > 0
    ensures var len := KcpCongestion.Min(|data|, mss);
            Fragments(data, mss) == [Frag(|Fragments(data, mss)| - 1, data[..len])] + Fragments(data[len..], mss)
  {
    KcpStream.FragmentsLength(data, mss);
    if |data| <= mss {
      assert data[..|data|] == data && data[|data|..] == [];
    }
  }

  lemma AppendHead<T>(q: seq<T>, all: seq<T>, head: T, rest: seq<T>)
    requires all == [head] + rest
    ensures q + all == q + [head] + rest
  {
  }

  /** The first i segments stay, as far as the search got. */
  ghost predicate Erasing(before: seq<Seg>, i: nat, sn: nat, after: seq<Seg>)
    requires i <= |before|
  {
    after == before[..i] + EraseSn(before[i..], sn)
  }

  lemma EraseStart(before: seq<Seg>, sn: nat)
    ensures Erasing(before, 0, sn, EraseSn(before, sn))
  {
    assert before[0..] == before;
  }

  lemma EraseStep(before: seq<Seg>, i: nat, sn: nat, after: seq<Seg>)
    requires i < |before| && Erasing(before, i, sn, after)
    ensures sn < before[i].sn ==> after == before
    ensures sn == before[i].sn ==> after == before[..i] + before[i + 1..]
    ensures sn > before[i].sn ==> Erasing(before, i + 1, sn, after)
  {
    assert before[i..][1..] == before[i + 1..] && before[..i + 1] == before[..i] + [before[i]];
    assert before == before[..i] + before[i..];
  }

  lemma EraseEnd(before: seq<Seg>, i: nat, sn: nat, after: seq<Seg>)
    requires i == |before| && Erasing(before, i, sn, after)
    ensures after == before
  {
  }

  /** The first i segments stay in front of the new one. */
  ghost predicate Inserting(before: seq<RSeg>, i: nat, seg: RSeg, after: seq<RSeg>)
    requires i <= |before|
  {
    after == before[..i] + InsertSorted(before[i..], seg)
  }

  lemma InsertStart(before: seq<RSeg>, seg: RSeg)
    ensures Inserting(before, 0, seg, InsertSorted(before, seg))
  {
    assert before[0..] == before;
  }

  lemma InsertStep(before: seq<RSeg>, i: nat, seg: RSeg, after: seq<RSeg>)
    requires i < |before| && Inserting(before, i, seg, after)
    ensures before[i].sn == seg.sn ==> after == before
    ensures before[i].sn > seg.sn ==> after == before[..i] + [seg] + before[i..]
    ensures before[i].sn < seg.sn ==> Inserting(before, i + 1, seg, after)
  {
    assert before[i..][1..] == before[i + 1..] && before[..i + 1] == before[..i] + [before[i]];
    assert before == before[..i] + before[i..];
  }

  lemma InsertEnd(before: seq<RSeg>, i: nat, seg: RSeg, after: seq<RSeg>)
    requires i == |before| && Inserting(before, i, seg, after)
    ensures after == before + [seg]
  {
  }

  lemma BumpStep(buf: seq<Seg>, i: nat, sn: nat, ts: nat, conserve: bool, after: seq<Seg>)
    requires i < |buf| && after == buf[..i] + BumpFastAck(buf[i..], sn, ts, conserve)
    ensures var seg := buf[i];
            && (sn < seg.sn ==> after == buf)
            && (sn >= seg.sn ==>
                  var buf' := if sn != seg.sn && (!conserve || ts > seg.ts) then buf[i := seg.(fastack := seg.fastack + 1)] else buf;
                  after == buf'[..i + 1] + BumpFastAck(buf'[i + 1..], sn, ts, conserve))
  {
    var seg := buf[i];
    var buf' := if sn != seg.sn && (!conserve || ts > seg.ts) then buf[i := seg.(fastack := seg.fastack + 1)] else buf;
    Around(buf, i, buf'[i]);
  }

  lemma Around<X>(s: seq<X>, i: nat, x: X)
    requires i < |s|
    ensures var t := s[i := x]; s[i..][1..] == s[i + 1..] == t[i + 1..] && t[..i + 1] == s[..i] + [x]
    ensures s == s[..i] + s[i..] && (s[i] == x ==> s[i := x] == s)
  {
  }

  lemma BumpEnd(buf: seq<Seg>, i: nat, sn: nat, ts: nat, conserve: bool, after: seq<Seg>)
    requires i <= |buf| && after == buf[..i] + BumpFastAck(buf[i..], sn, ts, conserve)
    ensures i == |buf| ==> after == buf
  {
  }

  lemma NextFragment(q: seq<Frag>, i: nat, k: nat)
    requires i <= k < |q| && LastFragment(q[i..]) == k - i
    ensures q[i..][0] == q[i] && q[i..][1..] == q[i + 1..] && (q[i].frg == 0 <==> i == k)
    ensures i < k ==> LastFragment(q[i + 1..]) == k - (i + 1)
  {
    assert q[i..][1..] == q[i + 1..];
  }

  lemma DrainFront(r: Rcv)
    requires KcpState.PeekSize(r.queue) > 0 && NeverRunsDry(r.queue)
    ensures var k := LastFragment(r.queue);
            && k < |r.queue| && NeverRunsDry(r.queue[k + 1..])
            && DrainQueue(r.(queue := r.queue[k + 1..], delivered := r.delivered + [Delivered(KcpState.PeekSize(r.queue), r.queue[k].data)])) == DrainQueue(r)
  {
    var k := LastFragment(r.queue);
    var d := Delivered(KcpState.PeekSize(r.queue), r.queue[k].data);
    var (ds, rest) := Drain(r.queue[k + 1..]);
    assert Drain(r.queue) == ([d] + ds, rest);
    assert r.delivered + ([d] + ds) == r.delivered + [d] + ds;
  }

  lemma DrainedAlready(r: Rcv)
    requires KcpState.PeekSize(r.queue) == 0
    ensures DrainQueue(r) == r
  {
    assert r.delivered + [] == r.delivered;
  }

  lemma ParseNothing(data: seq<byte>)
    ensures |data| == 0 ==> ParseAll(data) == []
  {
  }

  lemma SendTwo(pool: Pool, mtu: nat, one: bool, p: Packet, two: bool, q: Packet)
    ensures var ps := (if one then [p] else []) + (if two then [q] else []);
            var pool1 := if one then KcpWire.SendPacket(pool, mtu, p) else pool;
            && SendPackets(pool, mtu, ps) == (if two then KcpWire.SendPacket(pool1, mtu, q) else pool1)
            && (NeverOverruns(pool, mtu, ps) <==> (one ==> FitsPool(pool, mtu, p)) && (two ==> FitsPool(pool1, mtu, q)))
  {
    hide KcpWire.SendPacket, FitsPool;
    var ps, qs := if one then [p] else [], if two then [q] else [];
    SendPacketsAppend(pool, mtu, ps, qs);
    NeverOverrunsAppend(pool, mtu, ps, qs);
    assert [p][1..] == [] && [q][1..] == [];
  }

  lemma TransmitStep(buf: seq<Seg>, before: seq<Seg>, i: nat, cfg: Config, rto: int, now: nat, after: seq<Seg>)
    requires i < |buf| == |before| && buf[i..] == before[i..]
    requires after == buf[..i] + TransmitAll(before[i..], cfg, rto, now)
    ensures var buf' := buf[i := Transmit(before[i], cfg, rto, now)];
            after == buf'[..i + 1] + TransmitAll(before[i + 1..], cfg, rto, now) && buf'[i + 1..] == before[i + 1..]
  {
    hide Transmit;
    var buf' := buf[i := Transmit(before[i], cfg, rto, now)];
    assert before[i..][1..] == before[i + 1..] && buf[i..][1..] == buf[i + 1..] == buf'[i + 1..];
    assert buf'[..i + 1] == buf[..i] + [buf'[i]];
  }

  lemma PushStep(e: Endpoint, before: seq<Seg>, i: nat, now: nat, pool: Pool)
    requires i < |before|
    ensures var rest := PushPackets(e, before[i + 1..], now);
            var all := PushPackets(e, before[i..], now);
            if TurnOf(before[i], e.cfg, now) == Quiet then all == rest
            else
              var p := PushPacket(e, Transmit(before[i], e.cfg, e.ctl.rtt.rto, now));
              var next := KcpWire.SendPacket(pool, e.cfg.mtu, p);
              && SendPackets(pool, e.cfg.mtu, all) == SendPackets(next, e.cfg.mtu, rest)
              && (NeverOverruns(pool, e.cfg.mtu, all) ==> FitsPool(pool, e.cfg.mtu, p) && NeverOverruns(next, e.cfg.mtu, rest))
  {
    hide TurnOf, Transmit, PushPacket, KcpWire.SendPacket, FitsPool;
    assert before[i..][1..] == before[i + 1..];
    var rest := PushPackets(e, before[i + 1..], now);
    assert [] + rest == rest;
    if TurnOf(before[i], e.cfg, now) != Quiet {
      var p := PushPacket(e, Transmit(before[i], e.cfg, e.ctl.rtt.rto, now));
      assert ([p] + rest)[1..] == rest;
    }
  }

  lemma TransmitEnd(buf: seq<Seg>, before: seq<Seg>, i: nat, cfg: Config, rto: int, now: nat, after: seq<Seg>, e: Endpoint, pool: Pool)
    requires i == |buf| == |before| && after == buf[..i] + TransmitAll(before[i..], cfg, rto, now)
    ensures after == buf
    ensures SendPackets(pool, cfg.mtu, PushPackets(e, before[i..], now)) == pool
  {
  }

  /** The three parts of an update write the packets of the whole, in order. */
  lemma UpdateInParts(e: Endpoint, now: nat, u: Probes)
    requires UpdateIsSafe(e, now, u)
    ensures var mtu, acks := e.cfg.mtu, AckPackets(e, e.rcv.acks);
            var probes := ProbePackets(e, ProbeTimer(e.ctl, u.clock), u);
            var pushes := PushPackets(e, KcpState.SortSendQueue(e.snd, SendWindow(e)).buf, now);
            var pool1 := SendPackets(Pool([], e.written), mtu, acks);
            var pool2 := SendPackets(pool1, mtu, probes);
            && NeverOverruns(Pool([], e.written), mtu, acks) && NeverOverruns(pool1, mtu, probes) && NeverOverruns(pool2, mtu, pushes)
            && SendPackets(pool2, mtu, pushes) == SendPackets(Pool([], e.written), mtu, UpdatePackets(e, now, u))
  {
    hide SendPackets, AckPackets, PushPackets, ProbePackets, KcpState.SortSendQueue, ProbeTimer, SendLimit, NeverOverruns;
    var mtu, pool := e.cfg.mtu, Pool([], e.written);
    var acks, probes := AckPackets(e, e.rcv.acks), ProbePackets(e, ProbeTimer(e.ctl, u.clock), u);
    var pushes := PushPackets(e, KcpState.SortSendQueue(e.snd, SendWindow(e)).buf, now);
    SendPacketsAppend(pool, mtu, acks, probes);
    SendPacketsAppend(pool, mtu, acks + probes, pushes);
    NeverOverrunsAppend(pool, mtu, acks, probes);
    NeverOverrunsAppend(pool, mtu, acks + probes, pushes);
  }

  lemma AcksFit(e: Endpoint, now: nat, u: Probes)
    requires UpdateIsSafe(e, now, u)
    ensures NeverOverruns(Pool([], e.written), e.cfg.mtu, AckPackets(e, e.rcv.acks))
  {
    UpdateInParts(e, now, u);
    hide *;
  }

  lemma ProbesFit(e: Endpoint, acked: Endpoint, pool: Pool, now: nat, u: Probes)
    requires UpdateIsSafe(e, now, u) && acked.conv == e.conv
    requires pool == SendPackets(Pool([], e.written), e.cfg.mtu, AckPackets(e, e.rcv.acks))
    ensures ProbePackets(acked, ProbeTimer(e.ctl, u.clock), u) == ProbePackets(e, ProbeTimer(e.ctl, u.clock), u)
    ensures NeverOverruns(pool, e.cfg.mtu, ProbePackets(e, ProbeTimer(e.ctl, u.clock), u))
  {
    UpdateInParts(e, now, u);
    hide ProbeTimer, NeverOverruns, SendPackets, AckPackets, UpdateIsSafe;
  }

  /** The pool is ready for the data packets of the update that began in e. */
  ghost predicate Ready(e: Endpoint, probed: Endpoint, pool: Pool, now: nat, u: Probes) {
    var pushes := PushPackets(probed, KcpState.SortSendQueue(probed.snd, SendWindow(probed)).buf, now);
    && NeverOverruns(pool, e.cfg.mtu, pushes)
    && SendPackets(pool, e.cfg.mtu, pushes) == SendPackets(Pool([], e.written), e.cfg.mtu, UpdatePackets(e, now, u))
  }

  lemma ControlDone(e: Endpoint, probed: Endpoint, pool: Pool, now: nat, u: Probes)
    requires UpdateIsSafe(e, now, u) && probed == Probed(e, u).(written := probed.written)
    requires pool == SendPackets(SendPackets(Pool([], e.written), e.cfg.mtu, AckPackets(e, e.rcv.acks)), e.cfg.mtu,
                                 ProbePackets(e, ProbeTimer(e.ctl, u.clock), u))
    ensures Ready(e, probed, pool, now, u)
  {
    UpdateInParts(e, now, u);
    Undisturbed(e, probed, now, u);
    hide SendPackets, AckPackets, ProbePackets, ProbeTimer, PushPackets, KcpState.SortSendQueue, SendWindow, NeverOverruns, UpdatePackets;
  }

  /** Acknowledgements and probes leave alone what the data packets depend on. */
  lemma Undisturbed(e: Endpoint, probed: Endpoint, now: nat, u: Probes)
    requires probed == Probed(e, u).(written := probed.written)
    ensures SendWindow(probed) == SendWindow(e)
    ensures var buf := KcpState.SortSendQueue(e.snd, SendWindow(e)).buf;
            PushPackets(probed, buf, now) == PushPackets(e, buf, now)
  {
    ProbeTimerFrame(e.ctl, u.clock);
    hide PushPackets, KcpState.SortSendQueue, ProbeTimer, SendLimit;
    SameView(e, probed, KcpState.SortSendQueue(e.snd, SendWindow(e)).buf, now);
  }

  lemma ProbeTimerFrame(c: Ctl, now: nat)
    ensures var c' := ProbeTimer(c, now); c'.rmtWnd == c.rmtWnd && c'.cw == c.cw && c'.rtt == c.rtt
  {
    hide Signed32;
  }

  /** The data packets depend only on what acknowledgements and probes leave alone. */
  lemma {:induction false} SameView(e: Endpoint, f: Endpoint, buf: seq<Seg>, now: nat)
    requires f.cfg == e.cfg && f.conv == e.conv && f.rcv.nxt == e.rcv.nxt && f.rcv.queue == e.rcv.queue && f.ctl.rtt == e.ctl.rtt
    ensures PushPackets(f, buf, now) == PushPackets(e, buf, now)
    decreases |buf|
  {
    if buf != [] {
      SameView(e, f, buf[1..], now);
    }
  }
}
