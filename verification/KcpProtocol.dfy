/** Two endpoints over a network that loses, duplicates, delays and reorders datagrams:
    a datagram once written may arrive any number of times, at any later moment, or never. */
module KcpProtocol {
  import opened LittleEndian
  import opened KcpCongestion
  import opened KcpState
  import opened KcpSegments
  import opened KcpLink
  import opened KcpWire

  /** What a packet says is true of the endpoint that sent it, then and ever after. */
  ghost predicate GoodPacket(p: Packet, e: Endpoint)
    requires ValidConfig(e.cfg)
  {
    && InRange(p) && e.convInit && p.conv == e.conv
    && p.una <= e.rcv.nxt
    && (p.cmd == CMD_ACK ==> Received(e.rcv, p.sn))
    && (p.cmd == CMD_PUSH ==> p.sn < |Sent(e.snd, Mss(e.cfg))| && Frag(p.frg, p.payload) == Sent(e.snd, Mss(e.cfg))[p.sn])
  }

  ghost predicate WrittenGood(e: Endpoint)
    requires ValidConfig(e.cfg)
  {
    forall d, p | d in e.written && p in ParseAll(d) :: GoodPacket(p, e)
  }

  /** Until a conversation id is known there is nothing to send. */
  ghost predicate SilentWithoutConv(e: Endpoint) {
    e.convInit || (e.snd.accepted == [] && e.rcv.acks == [] && !e.ctl.askSend && !e.ctl.askTell && e.ctl.rmtWnd != 0)
  }

  /** Retransmission times are 32-bit. */
  ghost predicate TimersFit(buf: seq<Seg>) { buf == [] || (buf[0].resendts < U32 && TimersFit(buf[1..])) }

  ghost predicate Local(e: Endpoint) {
    && ValidConfig(e.cfg) && SndOk(e.snd, e.cfg) && SilentWithoutConv(e)
    && e.conv < U32 && FitsMtu(e.written, e.cfg.mtu)
    && (forall a | a in e.rcv.acks :: a.sn < U32 && a.ts < U32)
    && TimersFit(e.snd.buf)
  }

  /** What only ever grows at an endpoint. */
  ghost predicate Grows(e: Endpoint, e': Endpoint)
    requires ValidConfig(e.cfg)
  {
    && e'.cfg == e.cfg
    && (e.convInit ==> e'.convInit && e'.conv == e.conv)
    && e.rcv.nxt <= e'.rcv.nxt && e.snd.una <= e'.snd.una && e.snd.nxt <= e'.snd.nxt
    && (forall sn :: Received(e.rcv, sn) ==> Received(e'.rcv, sn))
    && Sent(e.snd, Mss(e.cfg)) <= Sent(e'.snd, Mss(e.cfg))
    && e.rcv.delivered <= e'.rcv.delivered
  }

  lemma StaysGood(p: Packet, e: Endpoint, e': Endpoint)
    requires ValidConfig(e.cfg) && GoodPacket(p, e) && Grows(e, e')
    ensures GoodPacket(p, e')
  {
    hide Received, Sent;
    if p.cmd == CMD_PUSH {
      PrefixAt(Sent(e.snd, Mss(e.cfg)), Sent(e'.snd, Mss(e.cfg)), p.sn);
    }
  }

  lemma PrefixAt<T>(a: seq<T>, b: seq<T>, i: nat)
    requires a <= b && i < |a|
    ensures i < |b| && a[i] == b[i]
  {
  }

  lemma GrowsTransitive(a: Endpoint, b: Endpoint, c: Endpoint)
    requires ValidConfig(a.cfg) && Grows(a, b) && Grows(b, c)
    ensures Grows(a, c)
  {
    hide Received, Sent;
  }

  ghost predicate OneWay(s: Endpoint, r: Endpoint)
    requires ValidConfig(s.cfg)
  {
    Linked(s.snd, r.rcv, Mss(s.cfg), r.cfg.rcvWnd)
  }

  ghost predicate SameConv(x: Endpoint, y: Endpoint) { x.convInit && y.convInit ==> x.conv == y.conv }

  /** The invariant, seen from x; its mirror image is seen from y. */
  ghost predicate Paired(x: Endpoint, y: Endpoint) {
    && Local(x) && Local(y) && WrittenGood(x) && WrittenGood(y)
    && OneWay(x, y) && OneWay(y, x) && SameConv(x, y)
  }

  // ---- input ----

  /** Between two packets of a datagram that x reads from y; x0 is x before the datagram. */
  ghost predicate Reading(x0: Endpoint, x: Endpoint, y: Endpoint, scan: Scan) {
    && Local(x) && Local(y) && ValidConfig(x0.cfg) && Grows(x0, x) && x.written == x0.written
    && OneWay(x, y) && SameConv(x, y)
    && Arriving(y.snd, x.rcv, Mss(y.cfg), x.cfg.rcvWnd)
    && (!scan.hasData ==> OneWay(y, x))
  }

  lemma GrowsReflexive(e: Endpoint)
    requires ValidConfig(e.cfg)
    ensures Grows(e, e)
  {
  }

  lemma AdoptConvOk(x0: Endpoint, x: Endpoint, y: Endpoint, scan: Scan, p: Packet)
    requires Reading(x0, x, y, scan) && GoodPacket(p, y)
    ensures var x' := AdoptConv(x, p); Reading(x0, x', y, scan) && x'.convInit && x'.conv == p.conv
  {
    hide Received, Sent, Linked, Arriving, SndOk;
  }

  // What each step leaves alone.

  lemma {:induction false} DropTimers(buf: seq<Seg>, n: nat)
    requires TimersFit(buf)
    ensures TimersFit(DropBelow(buf, n)) && TimersFit(EraseSn(buf, n))
  {
    if buf != [] {
      DropTimers(buf[1..], n);
      assert ([buf[0]] + EraseSn(buf[1..], n))[1..] == EraseSn(buf[1..], n);
    }
  }

  lemma {:induction false} BumpTimers(buf: seq<Seg>, sn: nat, ts: nat, conserve: bool)
    requires TimersFit(buf)
    ensures TimersFit(BumpFastAck(buf, sn, ts, conserve))
  {
    if buf != [] {
      BumpTimers(buf[1..], sn, ts, conserve);
      var bumped := BumpFastAck(buf, sn, ts, conserve);
      assert sn >= buf[0].sn ==> bumped[1..] == BumpFastAck(buf[1..], sn, ts, conserve);
    }
  }

  lemma DropFrame(s: Snd, n: nat)
    requires TimersFit(s.buf)
    ensures TimersFit(DropByUna(s, n).buf) && TimersFit(DropByAck(s, n).buf)
    ensures DropByUna(s, n) == s.(buf := DropByUna(s, n).buf, una := DropByUna(s, n).una)
    ensures DropByAck(s, n) == s.(buf := DropByAck(s, n).buf, una := DropByAck(s, n).una)
  {
    DropTimers(s.buf, n);
  }

  lemma HandlePushFrame(r: Rcv, p: Packet, rcvWnd: nat)
    ensures HandlePush(r, p, rcvWnd) == r.(buf := HandlePush(r, p, rcvWnd).buf, acks := HandlePush(r, p, rcvWnd).acks)
    ensures HandlePush(r, p, rcvWnd).acks == r.acks || HandlePush(r, p, rcvWnd).acks == r.acks + [Ack(p.sn, p.ts)]
  {
  }

  lemma UpdateFastAckFrame(s: Snd, sn: nat, ts: nat, conserve: bool)
    requires TimersFit(s.buf)
    ensures var s' := UpdateFastAck(s, sn, ts, conserve);
            s' == s.(buf := s'.buf) && Keys(s'.buf) == Keys(s.buf) && TimersFit(s'.buf)
  {
    BumpTimers(s.buf, sn, ts, conserve);
    BumpFastAckKeys(s.buf, sn, ts, conserve);
  }

  lemma {:induction false} OnDataFrame(r: Rcv)
    ensures DrainQueue(SortRecvBuf(r)).acks == r.acks
    decreases |r.buf|
  {
    hide DrainQueue;
    assert forall q :: DrainQueue(q).acks == q.acks by { DrainQueueAcks(); }
    if r.buf != [] && r.buf[0].sn == r.nxt {
      OnDataFrame(r.(buf := r.buf[1..], queue := r.queue + [r.buf[0].frag], nxt := r.nxt + 1));
    }
  }

  lemma DrainQueueAcks()
    ensures forall q :: DrainQueue(q).acks == q.acks
  {
  }

  lemma HandleAnyOk(x0: Endpoint, x: Endpoint, y: Endpoint, scan: Scan, p: Packet)
    requires Reading(x0, x, y, scan) && GoodPacket(p, y) && x.convInit
    ensures Reading(x0, HandleAny(x, p), y, scan)
  {
    hide Received, Sent, Arriving, SndOk, DropByUna;
    DropByUnaOk(x.snd, y.rcv, p.una, x.cfg, y.cfg.rcvWnd);
    DropFrame(x.snd, p.una);
    SentIgnoresBuffer(x.snd, DropByUna(x.snd, p.una), Mss(x.cfg));
  }

  lemma HandleAckOk(x0: Endpoint, x: Endpoint, y: Endpoint, scan: Scan, p: Packet, ctl: Ctl)
    requires Reading(x0, x, y, scan) && GoodPacket(p, y) && x.convInit && p.cmd == CMD_ACK
    ensures var x' := x.(snd := DropByAck(x.snd, p.sn), ctl := ctl); Reading(x0, x', y, scan)
  {
    hide Received, Sent, Arriving, SndOk, DropByAck;
    DropByAckOk(x.snd, y.rcv, p.sn, x.cfg, y.cfg.rcvWnd);
    DropFrame(x.snd, p.sn);
    SentIgnoresBuffer(x.snd, DropByAck(x.snd, p.sn), Mss(x.cfg));
  }

  lemma HandlePushCmdOk(x0: Endpoint, x: Endpoint, y: Endpoint, scan: Scan, p: Packet)
    requires Reading(x0, x, y, scan) && GoodPacket(p, y) && x.convInit && p.cmd == CMD_PUSH
    ensures var x' := x.(rcv := HandlePush(x.rcv, p, x.cfg.rcvWnd)); Reading(x0, x', y, scan.(hasData := true))
  {
    hide Received, Sent, Arriving, SndOk, HandlePush;
    HandlePushOk(y.snd, x.rcv, p, Mss(y.cfg), x.cfg.rcvWnd);
    HandlePushFrame(x.rcv, p, x.cfg.rcvWnd);
  }

  lemma HandlePacketOk(x0: Endpoint, x: Endpoint, y: Endpoint, scan: Scan, p: Packet, now: nat)
    requires Reading(x0, x, y, scan) && GoodPacket(p, y)
    ensures var (x', scan') := HandlePacket(x, scan, p, now); Reading(x0, x', y, scan')
  {
    hide Reading, GoodPacket, DropByUna, DropByAck, HandlePush, AdoptConv;
    var e := AdoptConv(x, p);
    AdoptConvOk(x0, x, y, scan, p);
    if e.conv == p.conv && KnownCmd(p.cmd) {
      HandleAnyOk(x0, e, y, scan, p);
      var any := HandleAny(e, p);
      if p.cmd == CMD_ACK {
        var scan' := NoteAck(scan, p, e.cfg.conserve);
        var (x', scan'') := HandlePacket(x, scan, p, now);
        HandleAckOk(x0, any, y, scan, p, x'.ctl);
        ScanIrrelevant(x0, x', y, scan, scan');
      } else if p.cmd == CMD_PUSH {
        HandlePushCmdOk(x0, any, y, scan, p);
      } else {
        CtlIrrelevant(x0, any, y, scan, any.ctl.(askTell := true));
      }
    }
  }

  lemma ScanIrrelevant(x0: Endpoint, x: Endpoint, y: Endpoint, scan: Scan, scan': Scan)
    requires Reading(x0, x, y, scan) && scan'.hasData == scan.hasData
    ensures Reading(x0, x, y, scan')
  {
  }

  lemma CtlIrrelevant(x0: Endpoint, x: Endpoint, y: Endpoint, scan: Scan, ctl: Ctl)
    requires Reading(x0, x, y, scan) && x.convInit
    ensures Reading(x0, x.(ctl := ctl), y, scan)
  {
    hide Received, Sent, Arriving, SndOk, Linked;
  }

  lemma {:induction false} HandlePacketsOk(x0: Endpoint, x: Endpoint, y: Endpoint, scan: Scan, ps: seq<Packet>, now: nat)
    requires Reading(x0, x, y, scan) && forall p | p in ps :: GoodPacket(p, y)
    ensures var (x', scan') := HandlePackets(x, scan, ps, now); Reading(x0, x', y, scan')
    decreases ps
  {
    hide Reading, GoodPacket, HandlePacket;
    if ps != [] {
      HandlePacketOk(x0, x, y, scan, ps[0], now);
      var (x', scan') := HandlePacket(x, scan, ps[0], now);
      HandlePacketsOk(x0, x', y, scan', ps[1..], now);
    }
  }

  lemma FastAckOk(x0: Endpoint, x: Endpoint, y: Endpoint, scan: Scan)
    requires Reading(x0, x, y, scan)
    ensures Reading(x0, x.(snd := UpdateFastAck(x.snd, scan.maxAck, scan.latestTs, x.cfg.conserve)), y, scan)
  {
    hide Received, Sent, Arriving, SndOk, UpdateFastAck;
    var snd := UpdateFastAck(x.snd, scan.maxAck, scan.latestTs, x.cfg.conserve);
    UpdateFastAckFrame(x.snd, scan.maxAck, scan.latestTs, x.cfg.conserve);
    SameKeysOk(x.snd, snd, y.rcv, x.cfg, y.cfg.rcvWnd);
    SentIgnoresBuffer(x.snd, snd, Mss(x.cfg));
  }

  /** The end of input: both directions rest, and the pop loop of onData never ran dry. */
  lemma FinishInputOk(x0: Endpoint, x: Endpoint, y: Endpoint, scan: Scan, prevUna: nat)
    requires Reading(x0, x, y, scan)
    requires scan.hasData || x.snd.una > prevUna ==> x.convInit
    ensures var x' := FinishInput(x, scan, prevUna);
            Local(x') && Grows(x0, x') && x'.written == x0.written && OneWay(x', y) && OneWay(y, x') && SameConv(x', y)
    ensures scan.hasData ==> NeverRunsDry(SortRecvBuf(x.rcv).queue)
  {
    var e1 := if scan.fastAck then x.(snd := UpdateFastAck(x.snd, scan.maxAck, scan.latestTs, x.cfg.conserve)) else x;
    assert Reading(x0, e1, y, scan) by {
      if scan.fastAck { FastAckOk(x0, x, y, scan); }
    }
    assert e1.rcv == x.rcv && e1.convInit == x.convInit && e1.cfg == x.cfg && e1.snd.una == x.snd.una by {
      if scan.fastAck { UpdateFastAckFrame(x.snd, scan.maxAck, scan.latestTs, x.cfg.conserve); }
    }
    hide UpdateFastAck;
    var e2 := if e1.snd.una > prevUna
              then e1.(ctl := e1.ctl.(cw := Increase(e1.ctl.cw, e1.ctl.rmtWnd, Mss(e1.cfg)))) else e1;
    assert Reading(x0, e2, y, scan) by {
      hide Reading;
      if e1.snd.una > prevUna { CtlIrrelevant(x0, e1, y, scan, e2.ctl); }
    }
    if scan.hasData {
      OnDataKeepsAll(x0, e2, y, scan);
    }
  }

  lemma OnDataKeepsAll(x0: Endpoint, x: Endpoint, y: Endpoint, scan: Scan)
    requires Reading(x0, x, y, scan) && x.convInit
    ensures var x' := OnData(x);
            Local(x') && Grows(x0, x') && x'.written == x0.written && OneWay(x', y) && OneWay(y, x') && SameConv(x', y)
    ensures NeverRunsDry(SortRecvBuf(x.rcv).queue)
  {
    hide Received, Sent, Arriving, SndOk, DrainQueue, SortRecvBuf, NeverRunsDry, Linked;
    OnDataOk(y.snd, x.rcv, y.cfg, x.cfg.rcvWnd);
    OnDataFrame(x.rcv);
    assert OnData(x).rcv == DrainQueue(SortRecvBuf(x.rcv));
  }

  /** Packets only reach the acknowledgement or data code once the conversation id is set. */
  lemma {:induction false} ConvBeforeData(e: Endpoint, scan: Scan, ps: seq<Packet>, now: nat)
    ensures var (e', scan') := HandlePackets(e, scan, ps, now);
            ps != [] || e.convInit ==> e'.convInit
    decreases ps
  {
    if ps != [] {
      var (e', scan') := HandlePacket(e, scan, ps[0], now);
      ConvBeforeData(e', scan', ps[1..], now);
    }
  }

  /** Reading any datagram the peer ever wrote keeps the invariant. */
  lemma InputOk(x: Endpoint, y: Endpoint, d: seq<byte>, now: nat)
    requires Paired(x, y) && d in y.written
    ensures var x' := Input(x, d, now); Paired(x', y) && Grows(x, x') && x'.written == x.written
    ensures InputIsSafe(x, d, now)
  {
    var ps := ParseAll(d);
    HandlePacketsCfg(x, NoScan, ps, now);
    var (x1, scan) := HandlePackets(x, NoScan, ps, now);
    assert Reading(x, x, y, NoScan) by { GrowsReflexive(x); }
    HandlePacketsOk(x, x, y, NoScan, ps, now);
    ConvBeforeData(x, NoScan, ps, now);
    hide Reading, GoodPacket, Local, OneWay, HandlePackets, FinishInput, NeverRunsDry, SortRecvBuf, Grows;
    FinishInputOk(x, x1, y, scan, x.snd.una);
    var x' := FinishInput(x1, scan, x.snd.una);
    GoodAfterGrowth(x, x');
  }

  lemma GoodAfterGrowth(e: Endpoint, e': Endpoint)
    requires ValidConfig(e.cfg) && WrittenGood(e) && Grows(e, e') && e'.written == e.written
    ensures WrittenGood(e')
  {
    forall d, p | d in e'.written && p in ParseAll(d) ensures GoodPacket(p, e') {
      StaysGood(p, e, e');
    }
  }
}
