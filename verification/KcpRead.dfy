/** What reading one datagram does to an endpoint, told by the packets in it and without the order in
    which the program treats them. */
module KcpRead {
  import opened LittleEndian
  import opened KcpCongestion
  import opened KcpState
  import opened KcpSegments
  import opened KcpLink
  import opened KcpWire
  import opened KcpRtt
  import opened KcpProtocol

  // ---- the packets that count ----

  /** A packet of this conversation with a known command. */
  predicate Concerns(p: Packet, conv: nat) { p.conv == conv && (p.cmd == 81 || p.cmd == 82 || p.cmd == 83 || p.cmd == 84) }

  function Own(ps: seq<Packet>, conv: nat): seq<Packet> {
    if ps == [] then [] else (if Concerns(ps[0], conv) then [ps[0]] else []) + Own(ps[1..], conv)
  }

  ghost predicate AllConcern(ps: seq<Packet>, conv: nat) { forall p | p in ps :: Concerns(p, conv) }

  lemma {:induction false} OwnConcern(ps: seq<Packet>, conv: nat)
    ensures AllConcern(Own(ps, conv), conv)
  {
    if ps != [] {
      OwnConcern(ps[1..], conv);
    }
  }

  /** Packets of other conversations and unknown commands leave no trace. */
  lemma {:induction false} ForeignIsSkipped(e: Endpoint, scan: Scan, ps: seq<Packet>, now: nat)
    requires e.convInit
    ensures HandlePackets(e, scan, ps, now) == HandlePackets(e, scan, Own(ps, e.conv), now)
    decreases ps
  {
    if ps != [] {
      hide DropByUna, DropByAck, HandlePush, UpdateRtt, Signed32, NoteAck;
      var (e', scan') := HandlePacket(e, scan, ps[0], now);
      ForeignIsSkipped(e', scan', ps[1..], now);
      if Concerns(ps[0], e.conv) {
        assert Own(ps, e.conv)[0] == ps[0] && Own(ps, e.conv)[1..] == Own(ps[1..], e.conv);
      } else {
        assert Own(ps, e.conv) == Own(ps[1..], e.conv);
      }
    }
  }

  // ---- the send buffer ----

  /** Nothing in these packets acknowledges segment sn, alone or with all before it. */
  ghost predicate Open(sn: nat, ps: seq<Packet>) { forall p | p in ps :: p.una <= sn && (p.cmd == CMD_ACK ==> p.sn != sn) }

  ghost function Unacked(buf: seq<Seg>, ps: seq<Packet>): seq<Seg> {
    if buf == [] then [] else (if Open(buf[0].sn, ps) then [buf[0]] else []) + Unacked(buf[1..], ps)
  }

  ghost predicate Rising(buf: seq<Seg>, lo: nat) { buf == [] || (lo <= buf[0].sn && Rising(buf[1..], buf[0].sn + 1)) }

  lemma {:induction false} OrderedRises(buf: seq<Seg>, lo: nat, hi: nat, stream: seq<Frag>)
    requires Ordered(Keys(buf), lo, hi, stream)
    ensures Rising(buf, lo)
  {
    if buf != [] {
      OrderedRises(buf[1..], buf[0].sn + 1, hi, stream);
    }
  }

  lemma {:induction false} RisingFrom(buf: seq<Seg>, lo: nat, lo': nat)
    requires Rising(buf, lo) && lo' <= lo
    ensures Rising(buf, lo')
  {
  }

  /** With everything open nothing leaves. */
  lemma {:induction false} AllOpen(buf: seq<Seg>, lo: nat, ps: seq<Packet>)
    requires Rising(buf, lo) && forall sn: nat | lo <= sn :: Open(sn, ps)
    ensures Unacked(buf, ps) == buf
  {
    if buf != [] {
      AllOpen(buf[1..], buf[0].sn + 1, ps);
    }
  }

  lemma {:induction false} UnackedRises(buf: seq<Seg>, lo: nat, ps: seq<Packet>)
    requires Rising(buf, lo)
    ensures Rising(Unacked(buf, ps), lo)
  {
    if buf != [] {
      UnackedRises(buf[1..], buf[0].sn + 1, ps);
      if Open(buf[0].sn, ps) {
        assert Unacked(buf, ps)[1..] == Unacked(buf[1..], ps);
      } else {
        assert Unacked(buf, ps) == Unacked(buf[1..], ps);
        RisingFrom(Unacked(buf[1..], ps), buf[0].sn + 1, lo);
      }
    }
  }

  lemma {:induction false} UnackedTwice(buf: seq<Seg>, p: Packet, ps: seq<Packet>)
    ensures Unacked(Unacked(buf, [p]), ps) == Unacked(buf, [p] + ps)
  {
    if buf != [] {
      UnackedTwice(buf[1..], p, ps);
      assert Open(buf[0].sn, [p] + ps) <==> Open(buf[0].sn, [p]) && Open(buf[0].sn, ps);
      if Open(buf[0].sn, [p]) {
        assert Unacked(buf, [p])[1..] == Unacked(buf[1..], [p]);
      } else {
        assert Unacked(buf, [p]) == Unacked(buf[1..], [p]);
      }
    }
  }

  /** What both acknowledgements of a packet leave. */
  lemma {:induction false} DropIsUnacked(buf: seq<Seg>, lo: nat, p: Packet)
    requires Rising(buf, lo)
    ensures var rest := DropBelow(buf, p.una);
            Unacked(buf, [p]) == if p.cmd == CMD_ACK then EraseSn(rest, p.sn) else rest
  {
    if buf != [] {
      var sn := buf[0].sn;
      if sn < p.una {
        DropIsUnacked(buf[1..], sn + 1, p);
      } else if p.cmd == CMD_ACK && sn < p.sn {
        DropIsUnacked(buf[1..], sn + 1, p);
        assert DropBelow(buf[1..], p.una) == buf[1..] by { NothingBelow(buf[1..], sn + 1, p.una); }
      } else if p.cmd == CMD_ACK && sn == p.sn {
        AllOpen(buf[1..], sn + 1, [p]);
      } else {
        AllOpen(buf, sn, [p]);
      }
    }
  }

  lemma NothingBelow(buf: seq<Seg>, lo: nat, una: nat)
    requires Rising(buf, lo) && una <= lo
    ensures DropBelow(buf, una) == buf
  {
  }

  lemma {:induction false} NothingToErase(buf: seq<Seg>, lo: nat, sn: nat)
    requires Rising(buf, lo) && sn < lo
    ensures EraseSn(buf, sn) == buf
  {
  }

  /** The send buffer rises from snd_una, which is its head. */
  ghost predicate Headed(s: Snd) { Rising(s.buf, s.una) && s.una == FirstUnacked(s.buf, s.nxt) }

  lemma HeadedAfter(s: Snd, s': Snd, p: Packet)
    requires Headed(s) && s'.buf == Unacked(s.buf, [p]) && s'.una == FirstUnacked(s'.buf, s'.nxt)
    ensures Headed(s')
  {
    UnackedRises(s.buf, s.una, [p]);
  }

  lemma SentAfterOne(s: Snd, p: Packet)
    requires Headed(s)
    ensures var s1 := DropByUna(s, p.una);
            var s2 := if p.cmd == CMD_ACK then DropByAck(s1, p.sn) else s1;
            s2 == s.(buf := Unacked(s.buf, [p]), una := FirstUnacked(Unacked(s.buf, [p]), s.nxt)) && Headed(s2)
  {
    DropIsUnacked(s.buf, s.una, p);
    if p.una <= s.una {
      NothingBelow(s.buf, s.una, p.una);
    }
    var s1 := DropByUna(s, p.una);
    DropRises(s.buf, s.una, p.una);
    if p.cmd == CMD_ACK && p.sn < s1.una {
      NothingToErase(s1.buf, s1.una, p.sn);
    }
    hide Unacked, DropBelow, EraseSn, Rising;
    HeadedAfter(s, if p.cmd == CMD_ACK then DropByAck(s1, p.sn) else s1, p);
  }

  lemma {:induction false} DropRises(buf: seq<Seg>, lo: nat, una: nat)
    requires Rising(buf, lo)
    ensures var rest := DropBelow(buf, una); rest != [] ==> Rising(rest, rest[0].sn)
  {
    if buf != [] && buf[0].sn < una {
      DropRises(buf[1..], buf[0].sn + 1, una);
    }
  }

  // ---- what each packet adds ----

  /** The window that the last packet advertises. */
  function WndAfter(ps: seq<Packet>, wnd: nat): nat { if ps == [] then wnd else ps[|ps| - 1].wnd }

  /** The acknowledgements owed for data below `end`, repeated data included, with the time stamps of
      that very transmission. */
  function Owed(ps: seq<Packet>, end: nat): seq<Ack> {
    if ps == [] then [] else
      (if ps[0].cmd == CMD_PUSH && ps[0].sn < end then [Ack(ps[0].sn, ps[0].ts)] else []) + Owed(ps[1..], end)
  }

  /** The round-trip times that the acknowledgements tell: now less the time they echo, in 32 bits. */
  function Samples(ps: seq<Packet>, now: nat): seq<int> {
    if ps == [] then [] else
      (if ps[0].cmd == CMD_ACK then [Elapsed(now, ps[0].ts)] else []) + Samples(ps[1..], now)
  }

  function Elapsed(now: nat, ts: nat): int {
    var d := (now - ts) % U32;
    if d < 0x8000_0000 then d else d - U32
  }

  ghost predicate Any(ps: seq<Packet>, cmd: nat) { exists p :: p in ps && p.cmd == cmd }

  /** What the packets ps, all of this conversation, lead from e to. */
  ghost predicate ReadTo(e: Endpoint, scan: Scan, ps: seq<Packet>, now: nat, e': Endpoint, scan': Scan) {
    var buf := Unacked(e.snd.buf, ps);
    && e' == e.(snd := e.snd.(buf := buf, una := FirstUnacked(buf, e.snd.nxt)), rcv := e.rcv.(buf := e'.rcv.buf, acks := e'.rcv.acks),
                ctl := e.ctl.(rmtWnd := e'.ctl.rmtWnd, rtt := e'.ctl.rtt, askTell := e'.ctl.askTell))
    && e'.ctl.rmtWnd == WndAfter(ps, e.ctl.rmtWnd)
    && e'.rcv.acks == e.rcv.acks + Owed(ps, WindowEnd(e.rcv.nxt, e.cfg.rcvWnd))
    && e'.ctl.rtt == UpdateAll(e.ctl.rtt, Samples(ps, now), e.cfg.interval, e.cfg.minrto)
    && e'.ctl.askTell == (e.ctl.askTell || Any(ps, CMD_WASK))
    && scan'.fastAck == (scan.fastAck || Any(ps, CMD_ACK)) && scan'.hasData == (scan.hasData || Any(ps, CMD_PUSH))
  }

  lemma OneReadTo(e: Endpoint, scan: Scan, p: Packet, now: nat)
    requires e.convInit && Concerns(p, e.conv) && Headed(e.snd)
    ensures var (e', scan') := HandlePacket(e, scan, p, now); ReadTo(e, scan, [p], now, e', scan') && Headed(e'.snd)
  {
    SentAfterOne(e.snd, p);
    hide Unacked, DropByUna, DropByAck, Headed, UpdateRtt, InsertSorted, FirstUnacked;
    OfOne(p, WindowEnd(e.rcv.nxt, e.cfg.rcvWnd), now, e.ctl.rtt, e.cfg);
    AnyOfOne(p);
  }

  lemma AnyOfOne(p: Packet)
    ensures forall cmd :: Any([p], cmd) <==> p.cmd == cmd
  {
    assert p in [p];
  }

  lemma OfOne(p: Packet, end: nat, now: nat, rtt: Rtt, cfg: Config)
    ensures WndAfter([p], 0) == p.wnd
    ensures Owed([p], end) == if p.cmd == CMD_PUSH && p.sn < end then [Ack(p.sn, p.ts)] else []
    ensures UpdateAll(rtt, Samples([p], now), cfg.interval, cfg.minrto)
            == if p.cmd == CMD_ACK then UpdateRtt(rtt, Signed32(now - p.ts), cfg.interval, cfg.minrto) else rtt
  {
    hide UpdateRtt;
    assert [p][1..] == [] && Owed([], end) == [] && Samples([], now) == [];
    var x := Elapsed(now, p.ts);
    assert [x][..0] == [] && [x][0] == x && UpdateAll(rtt, [], cfg.interval, cfg.minrto) == rtt;
  }

  lemma OwedConcat(a: Packet, ps: seq<Packet>, end: nat)
    ensures Owed([a] + ps, end) == Owed([a], end) + Owed(ps, end)
  {
    assert ([a] + ps)[1..] == ps && Owed([a][1..], end) == [];
  }

  lemma SamplesConcat(a: Packet, ps: seq<Packet>, now: nat)
    ensures Samples([a] + ps, now) == Samples([a], now) + Samples(ps, now)
  {
    assert ([a] + ps)[1..] == ps && Samples([a][1..], now) == [];
  }

  lemma {:induction false} UpdateAllConcat(rtt: Rtt, xs: seq<int>, ys: seq<int>, interval: nat, minrto: int)
    ensures UpdateAll(rtt, xs + ys, interval, minrto) == UpdateAll(UpdateAll(rtt, xs, interval, minrto), ys, interval, minrto)
    decreases |ys|
  {
    hide UpdateRtt;
    if ys == [] {
      assert xs + ys == xs;
    } else {
      UpdateAllConcat(rtt, xs, ys[..|ys| - 1], interval, minrto);
      assert (xs + ys)[..|xs + ys| - 1] == xs + ys[..|ys| - 1];
    }
  }

  lemma AnyConcat(a: Packet, ps: seq<Packet>, cmd: nat)
    ensures Any([a] + ps, cmd) <==> Any([a], cmd) || Any(ps, cmd)
  {
    if Any(ps, cmd) {
      var p :| p in ps && p.cmd == cmd;
      assert p in [a] + ps;
    }
    assert a in [a] && a in [a] + ps;
  }

  lemma ReadOneMore(e: Endpoint, scan: Scan, p: Packet, now: nat, e1: Endpoint, scan1: Scan, ps: seq<Packet>, e': Endpoint, scan': Scan)
    requires ReadTo(e, scan, [p], now, e1, scan1) && ReadTo(e1, scan1, ps, now, e', scan')
    ensures ReadTo(e, scan, [p] + ps, now, e', scan')
  {
    hide Unacked, Owed, Samples, UpdateAll, FirstUnacked, Any, WindowEnd;
    UnackedTwice(e.snd.buf, p, ps);
    OwedConcat(p, ps, WindowEnd(e.rcv.nxt, e.cfg.rcvWnd));
    SamplesConcat(p, ps, now);
    UpdateAllConcat(e.ctl.rtt, Samples([p], now), Samples(ps, now), e.cfg.interval, e.cfg.minrto);
    AnyConcat(p, ps, CMD_WASK);
    AnyConcat(p, ps, CMD_ACK);
    AnyConcat(p, ps, CMD_PUSH);
  }

  lemma ReadNone(e: Endpoint, scan: Scan, now: nat)
    requires Headed(e.snd)
    ensures ReadTo(e, scan, [], now, e, scan)
  {
    AllOpen(e.snd.buf, e.snd.una, []);
    assert UpdateAll(e.ctl.rtt, [], e.cfg.interval, e.cfg.minrto) == e.ctl.rtt;
  }

  /** Every packet of this conversation counts, in any number. */
  lemma {:induction false} ReadAllTo(e: Endpoint, scan: Scan, ps: seq<Packet>, now: nat)
    requires e.convInit && AllConcern(ps, e.conv) && Headed(e.snd)
    ensures var (e', scan') := HandlePackets(e, scan, ps, now); ReadTo(e, scan, ps, now, e', scan') && Headed(e'.snd)
    decreases ps
  {
    hide ReadTo, Headed, HandlePacket, Concerns;
    if ps == [] {
      ReadNone(e, scan, now);
    } else {
      assert ps[0] in ps;
      OneReadTo(e, scan, ps[0], now);
      var (e1, scan1) := HandlePacket(e, scan, ps[0], now);
      KeepsConv(e, scan, ps[0], now, e1, scan1);
      ReadAllTo(e1, scan1, ps[1..], now);
      var (e', scan') := HandlePackets(e1, scan1, ps[1..], now);
      ReadOneMore(e, scan, ps[0], now, e1, scan1, ps[1..], e', scan');
      assert [ps[0]] + ps[1..] == ps;
    }
  }

  lemma KeepsConv(e: Endpoint, scan: Scan, p: Packet, now: nat, e': Endpoint, scan': Scan)
    requires ReadTo(e, scan, [p], now, e', scan')
    ensures e'.convInit == e.convInit && e'.conv == e.conv
  {
    hide Unacked, Owed, Samples, UpdateAll, FirstUnacked, Any, WindowEnd;
  }

  // ---- segments that the peer skipped ----

  predicate Exceeds(p: Packet, sn: nat, ts: nat, conserve: bool) { p.cmd == CMD_ACK && p.sn > sn && (conserve ==> p.ts > ts) }

  /** Number and time stamp of one acknowledgement that no other exceeds. */
  ghost predicate Newest(ps: seq<Packet>, conserve: bool, sn: nat, ts: nat) {
    && (exists p :: p in ps && p.cmd == CMD_ACK && p.sn == sn && p.ts == ts)
    && (forall p | p in ps :: !Exceeds(p, sn, ts, conserve))
  }

  /** The same while acknowledgements were noted before. */
  ghost predicate NewestSince(scan: Scan, ps: seq<Packet>, conserve: bool, scan': Scan) {
    && (scan.fastAck || Any(ps, CMD_ACK) ==> scan'.fastAck)
    && (scan.fastAck ==>
          || (scan'.maxAck == scan.maxAck && scan'.latestTs == scan.latestTs)
          || (scan'.maxAck > scan.maxAck && (conserve ==> scan'.latestTs > scan.latestTs)))
    && (scan'.fastAck ==>
          || (scan.fastAck && scan'.maxAck == scan.maxAck && scan'.latestTs == scan.latestTs)
          || exists p :: p in ps && p.cmd == CMD_ACK && p.sn == scan'.maxAck && p.ts == scan'.latestTs)
    && (scan'.fastAck ==> forall p | p in ps :: !Exceeds(p, scan'.maxAck, scan'.latestTs, conserve))
  }

  lemma NoteOne(scan: Scan, p: Packet, conserve: bool)
    requires p.cmd == CMD_ACK
    ensures NewestSince(scan, [p], conserve, NoteAck(scan, p, conserve))
  {
    assert p in [p];
  }

  lemma NewestOnward(scan: Scan, p: Packet, scan1: Scan, ps: seq<Packet>, conserve: bool, scan': Scan)
    requires NewestSince(scan, [p], conserve, scan1) && NewestSince(scan1, ps, conserve, scan')
    ensures NewestSince(scan, [p] + ps, conserve, scan')
  {
    AnyConcat(p, ps, CMD_ACK);
    assert p in [p] && p in [p] + ps;
    assert forall q | q in ps :: q in [p] + ps;
    hide Any;
  }

  lemma {:induction false} ScanKeepsNewest(e: Endpoint, scan: Scan, ps: seq<Packet>, now: nat)
    requires e.convInit && AllConcern(ps, e.conv) && Headed(e.snd)
    ensures var (e', scan') := HandlePackets(e, scan, ps, now); NewestSince(scan, ps, e.cfg.conserve, scan')
    decreases ps
  {
    hide ReadTo, Headed, HandlePacket, Concerns, NewestSince;
    if ps == [] {
      NewestOfNone(scan, e.cfg.conserve);
    } else {
      assert ps[0] in ps;
      OneReadTo(e, scan, ps[0], now);
      var (e1, scan1) := HandlePacket(e, scan, ps[0], now);
      KeepsConv(e, scan, ps[0], now, e1, scan1);
      ScanOne(e, scan, ps[0], now);
      ScanKeepsNewest(e1, scan1, ps[1..], now);
      var (e', scan') := HandlePackets(e1, scan1, ps[1..], now);
      NewestOnward(scan, ps[0], scan1, ps[1..], e.cfg.conserve, scan');
      assert [ps[0]] + ps[1..] == ps;
    }
  }

  lemma NewestOfNone(scan: Scan, conserve: bool)
    ensures NewestSince(scan, [], conserve, scan)
  {
  }

  lemma ScanOne(e: Endpoint, scan: Scan, p: Packet, now: nat)
    requires e.convInit && Concerns(p, e.conv)
    ensures NewestSince(scan, [p], e.cfg.conserve, HandlePacket(e, scan, p, now).1) && HandlePacket(e, scan, p, now).0.cfg == e.cfg
  {
    hide DropByUna, DropByAck, HandlePush, UpdateRtt, Signed32, NoteAck, NewestSince;
    if p.cmd == CMD_ACK {
      NoteOne(scan, p, e.cfg.conserve);
    } else {
      NotedNothing(scan, p, scan.(hasData := true), e.cfg.conserve);
      NotedNothing(scan, p, scan, e.cfg.conserve);
    }
  }

  lemma NotedNothing(scan: Scan, p: Packet, scan': Scan, conserve: bool)
    requires p.cmd != CMD_ACK && scan' == scan.(hasData := scan'.hasData)
    ensures NewestSince(scan, [p], conserve, scan')
  {
  }

  /** Segments below the acknowledged one that were sent before it, or any such if not conserving. */
  predicate Skips(seg: Seg, sn: nat, ts: nat, conserve: bool) { seg.sn < sn && (conserve ==> seg.ts < ts) }

  function Counted(buf: seq<Seg>, sn: nat, ts: nat, conserve: bool): seq<Seg> {
    seq(|buf|, i requires 0 <= i < |buf| => if Skips(buf[i], sn, ts, conserve) then buf[i].(fastack := buf[i].fastack + 1) else buf[i])
  }

  lemma {:induction false} BumpIsCounted(buf: seq<Seg>, lo: nat, sn: nat, ts: nat, conserve: bool)
    requires Rising(buf, lo)
    ensures BumpFastAck(buf, sn, ts, conserve) == Counted(buf, sn, ts, conserve)
  {
    if buf != [] {
      if sn < buf[0].sn {
        NoneSkipped(buf, buf[0].sn, sn, ts, conserve);
      } else {
        BumpIsCounted(buf[1..], buf[0].sn + 1, sn, ts, conserve);
        var head := Counted(buf, sn, ts, conserve)[0];
        assert Counted(buf, sn, ts, conserve) == [head] + Counted(buf[1..], sn, ts, conserve);
      }
    }
  }

  lemma {:induction false} RisingAt(buf: seq<Seg>, lo: nat, i: nat)
    requires Rising(buf, lo) && i < |buf|
    ensures lo <= buf[i].sn
  {
    if i > 0 {
      RisingAt(buf[1..], buf[0].sn + 1, i - 1);
    }
  }

  lemma NoneSkipped(buf: seq<Seg>, lo: nat, sn: nat, ts: nat, conserve: bool)
    requires Rising(buf, lo) && sn <= lo
    ensures Counted(buf, sn, ts, conserve) == buf
  {
    forall i | 0 <= i < |buf| ensures !Skips(buf[i], sn, ts, conserve) {
      RisingAt(buf, lo, i);
    }
  }

  lemma UpdateFastAckCounts(s: Snd, sn: nat, ts: nat, conserve: bool)
    requires Headed(s)
    ensures UpdateFastAck(s, sn, ts, conserve) == s.(buf := if sn < s.nxt then Counted(s.buf, sn, ts, conserve) else s.buf)
  {
    BumpIsCounted(s.buf, s.una, sn, ts, conserve);
    if sn < s.una {
      NoneSkipped(s.buf, s.una, sn, ts, conserve);
    }
    hide Counted, BumpFastAck, Rising;
  }

  // ---- the datagram as a whole ----

  /** The send buffer keeps what the packets leave open, unchanged but for counting, against one newest
      acknowledgement if there is any, the segments that were skipped. */
  ghost predicate SentAfter(s: Snd, ps: seq<Packet>, conserve: bool, s': Snd) {
    var kept := Unacked(s.buf, ps);
    && s' == s.(buf := s'.buf, una := FirstUnacked(kept, s.nxt))
    && (if Any(ps, CMD_ACK)
        then exists sn: nat, ts: nat :: Newest(ps, conserve, sn, ts) && s'.buf == if sn < s.nxt then Counted(kept, sn, ts, conserve) else kept
        else s'.buf == kept)
  }

  ghost predicate ControlAfter(e: Endpoint, ps: seq<Packet>, now: nat, e': Endpoint)
    requires UsableConfig(e.cfg)
  {
    && e'.ctl == e.ctl.(rmtWnd := WndAfter(ps, e.ctl.rmtWnd), cw := e'.ctl.cw, askTell := e'.ctl.askTell,
                        rtt := UpdateAll(e.ctl.rtt, Samples(ps, now), e.cfg.interval, e.cfg.minrto))
    && e'.ctl.cw == (if e'.snd.una > e.snd.una then Increase(e.ctl.cw, e'.ctl.rmtWnd, Mss(e.cfg)) else e.ctl.cw)
  }

  lemma FinishCounts(e: Endpoint, scan: Scan, prevUna: nat)
    requires UsableConfig(e.cfg) && Headed(e.snd)
    ensures var e' := FinishInput(e, scan, prevUna);
            && Finished(e, scan, prevUna, e')
            && (e'.ctl.askTell <==> e.ctl.askTell || (scan.hasData && |SortRecvBuf(e.rcv).queue| >= e.cfg.rcvWnd > |e'.rcv.queue|))
  {
    hide Counted, UpdateFastAck, SortRecvBuf, DrainQueue, Increase, Mss, Headed;
    UpdateFastAckCounts(e.snd, scan.maxAck, scan.latestTs, e.cfg.conserve);
  }

  lemma NewestOfAll(ps: seq<Packet>, conserve: bool, scan: Scan)
    requires NewestSince(NoScan, ps, conserve, scan)
    ensures scan.fastAck ==> Newest(ps, conserve, scan.maxAck, scan.latestTs)
  {
  }

  /** What input does to an endpoint that knows its conversation. */
  lemma InputTells(e: Endpoint, d: seq<byte>, now: nat)
    requires UsableConfig(e.cfg) && Headed(e.snd) && e.convInit
    ensures var ps, e' := Own(ParseAll(d), e.conv), Input(e, d, now);
            && SentAfter(e.snd, ps, e.cfg.conserve, e'.snd) && ControlAfter(e, ps, now, e')
            && e' == e.(snd := e'.snd, rcv := e'.rcv, ctl := e'.ctl)
            && e'.rcv.acks == e.rcv.acks + Owed(ps, WindowEnd(e.rcv.nxt, e.cfg.rcvWnd))
  {
    hide HandlePackets, ParseAll, Own, ReadTo, Headed, NewestSince, Newest, FinishInput, Counted, SndOk, Increase, Mss, Owed, Samples, UpdateAll, Concerns, AllConcern, Any;
    var all := ParseAll(d);
    var ps := Own(all, e.conv);
    var (e1, scan) := HandlePackets(e, NoScan, all, now);
    HandlePacketsCfg(e, NoScan, all, now);
    ForeignIsSkipped(e, NoScan, all, now);
    OwnConcern(all, e.conv);
    ReadAllTo(e, NoScan, ps, now);
    ScanKeepsNewest(e, NoScan, ps, now);
    NewestOfAll(ps, e.cfg.conserve, scan);
    FinishCounts(e1, scan, e.snd.una);
    InputIsFinished(e, d, now);
    ReadThenFinished(e, ps, now, e1, scan, Input(e, d, now));
  }

  lemma InputIsFinished(e: Endpoint, d: seq<byte>, now: nat)
    requires UsableConfig(e.cfg)
    ensures var r := HandlePackets(e, NoScan, ParseAll(d), now);
            r.0.cfg == e.cfg && Input(e, d, now) == FinishInput(r.0, r.1, e.snd.una)
  {
    HandlePacketsCfg(e, NoScan, ParseAll(d), now);
    hide HandlePackets, FinishInput, ParseAll;
  }

  lemma LocalHeaded(e: Endpoint)
    requires Local(e)
    ensures Headed(e.snd) && UsableConfig(e.cfg)
  {
    OrderedRises(e.snd.buf, e.snd.una, e.snd.nxt, Sent(e.snd, Mss(e.cfg)));
  }

  ghost predicate Finished(e: Endpoint, scan: Scan, prevUna: nat, e': Endpoint)
    requires UsableConfig(e.cfg)
  {
    && e'.snd == e.snd.(buf := if scan.fastAck && scan.maxAck < e.snd.nxt
                               then Counted(e.snd.buf, scan.maxAck, scan.latestTs, e.cfg.conserve) else e.snd.buf)
    && e' == e.(snd := e'.snd, rcv := e'.rcv, ctl := e.ctl.(cw := e'.ctl.cw, askTell := e'.ctl.askTell))
    && e'.rcv == (if scan.hasData then DrainQueue(SortRecvBuf(e.rcv)) else e.rcv)
    && e'.ctl.cw == (if e.snd.una > prevUna then Increase(e.ctl.cw, e.ctl.rmtWnd, Mss(e.cfg)) else e.ctl.cw)
  }

  lemma ReadThenFinished(e: Endpoint, ps: seq<Packet>, now: nat, e1: Endpoint, scan: Scan, e': Endpoint)
    requires UsableConfig(e.cfg) && e1.cfg == e.cfg && ReadTo(e, NoScan, ps, now, e1, scan) && Finished(e1, scan, e.snd.una, e')
    requires scan.fastAck ==> Newest(ps, e.cfg.conserve, scan.maxAck, scan.latestTs)
    ensures SentAfter(e.snd, ps, e.cfg.conserve, e'.snd) && ControlAfter(e, ps, now, e')
    ensures e' == e.(snd := e'.snd, rcv := e'.rcv, ctl := e'.ctl)
    ensures e'.rcv.acks == e.rcv.acks + Owed(ps, WindowEnd(e.rcv.nxt, e.cfg.rcvWnd))
  {
    hide Unacked, Counted, Owed, Samples, UpdateAll, Newest, Any, FirstUnacked, WindowEnd, SortRecvBuf, DrainQueue, Increase, Mss;
    SortKeepsAcks(e1.rcv);
  }

  lemma SortKeepsAcks(r: Rcv)
    ensures DrainQueue(SortRecvBuf(r)).acks == r.acks
  {
    OnDataFrame(r);
  }

  /** A datagram without a packet of this conversation changes nothing. */
  lemma ForeignChangesNothing(e: Endpoint, d: seq<byte>, now: nat)
    requires UsableConfig(e.cfg) && e.convInit && Own(ParseAll(d), e.conv) == []
    ensures Input(e, d, now) == e
  {
    ForeignIsSkipped(e, NoScan, ParseAll(d), now);
    InputIsFinished(e, d, now);
    hide ParseAll, Own;
  }

  /** A server takes its conversation from the first packet it can parse. */
  lemma FirstPacketGivesConv(e: Endpoint, d: seq<byte>, now: nat)
    requires UsableConfig(e.cfg) && !e.convInit
    ensures if ParseAll(d) == [] then Input(e, d, now) == e
            else Input(e, d, now) == Input(e.(convInit := true, conv := ParseAll(d)[0].conv), d, now)
  {
    hide ParseAll, FinishInput, Dispatch, HandleAny;
    InputIsFinished(e, d, now);
    var ps := ParseAll(d);
    if ps == [] {
      FinishNothing(e);
    } else {
      InputIsFinished(e.(convInit := true, conv := ps[0].conv), d, now);
      assert HandlePacket(e, NoScan, ps[0], now) == HandlePacket(e.(convInit := true, conv := ps[0].conv), NoScan, ps[0], now);
    }
  }

  lemma FinishNothing(e: Endpoint)
    requires UsableConfig(e.cfg)
    ensures FinishInput(e, NoScan, e.snd.una) == e
  {
  }

  // ---- what is received ----

  ghost predicate Pushed(ps: seq<Packet>, sn: nat, end: nat) { sn < end && exists p :: p in ps && p.cmd == CMD_PUSH && p.sn == sn }

  lemma {:induction false} InsertedIff(ks: seq<RSeg>, k: RSeg, sn: nat)
    ensures Has(InsertSorted(ks, k), sn) <==> Has(ks, sn) || sn == k.sn
  {
    if ks == [] {
      assert [k][1..] == [];
    } else {
      InsertedIff(ks[1..], k, sn);
      assert ([k] + ks)[1..] == ks && ([ks[0]] + InsertSorted(ks[1..], k))[1..] == InsertSorted(ks[1..], k);
    }
  }

  lemma PushedOne(r: Rcv, p: Packet, rcvWnd: nat, sn: nat)
    ensures Received(HandlePush(r, p, rcvWnd), sn) <==> Received(r, sn) || (sn == p.sn < WindowEnd(r.nxt, rcvWnd))
    ensures HandlePush(r, p, rcvWnd).nxt == r.nxt
  {
    InsertedIff(r.buf, RSeg(p.sn, Frag(p.frg, p.payload)), sn);
    hide Has, InsertSorted;
  }

  lemma OneReceived(e: Endpoint, scan: Scan, p: Packet, now: nat, sn: nat)
    requires e.convInit && Concerns(p, e.conv)
    ensures var e' := HandlePacket(e, scan, p, now).0;
            && e'.rcv.nxt == e.rcv.nxt && e'.cfg == e.cfg && e'.convInit && e'.conv == e.conv
            && (Received(e'.rcv, sn) <==>
                  Received(e.rcv, sn) || (p.cmd == CMD_PUSH && sn == p.sn < WindowEnd(e.rcv.nxt, e.cfg.rcvWnd)))
  {
    PushedOne(e.rcv, p, e.cfg.rcvWnd, sn);
    hide DropByUna, DropByAck, HandlePush, UpdateRtt, Signed32, NoteAck, Received, WindowEnd;
  }

  lemma {:induction false} AllReceived(e: Endpoint, scan: Scan, ps: seq<Packet>, now: nat, sn: nat)
    requires e.convInit && AllConcern(ps, e.conv)
    ensures var e' := HandlePackets(e, scan, ps, now).0;
            && e'.rcv.nxt == e.rcv.nxt
            && (Received(e'.rcv, sn) <==> Received(e.rcv, sn) || Pushed(ps, sn, WindowEnd(e.rcv.nxt, e.cfg.rcvWnd)))
    decreases ps
  {
    hide HandlePacket, Received, WindowEnd, Concerns;
    if ps != [] {
      assert ps[0] in ps;
      OneReceived(e, scan, ps[0], now, sn);
      var (e1, scan1) := HandlePacket(e, scan, ps[0], now);
      AllReceived(e1, scan1, ps[1..], now, sn);
      PushedFirst(ps, sn, WindowEnd(e.rcv.nxt, e.cfg.rcvWnd));
    }
  }

  lemma PushedFirst(ps: seq<Packet>, sn: nat, end: nat)
    requires ps != []
    ensures Pushed(ps, sn, end) <==> (ps[0].cmd == CMD_PUSH && sn == ps[0].sn < end) || Pushed(ps[1..], sn, end)
  {
    assert ps == [ps[0]] + ps[1..];
    if Pushed(ps[1..], sn, end) {
      var p :| p in ps[1..] && p.cmd == CMD_PUSH && p.sn == sn;
      assert p in ps;
    }
  }

  /** Moving segments into the queue receives nothing and loses nothing. */
  lemma {:induction false} SortReceives(r: Rcv, sn: nat)
    ensures var r' := SortRecvBuf(r);
            (Received(r', sn) <==> Received(r, sn)) && r.nxt <= r'.nxt && |r'.queue| == |r.queue| + r'.nxt - r.nxt
    decreases |r.buf|
  {
    if r.buf != [] && r.buf[0].sn == r.nxt {
      SortReceives(r.(buf := r.buf[1..], queue := r.queue + [r.buf[0].frag], nxt := r.nxt + 1), sn);
    }
  }

  lemma OnDataReceives(r: Rcv, sn: nat)
    ensures var r' := DrainQueue(SortRecvBuf(r));
            (Received(r', sn) <==> Received(r, sn)) && r.nxt <= r'.nxt && |SortRecvBuf(r).queue| == |r.queue| + r'.nxt - r.nxt
  {
    SortReceives(r, sn);
    hide SortRecvBuf;
  }

  /** Exactly the segments that arrive inside the window are received in addition. */
  lemma InputReceives(e: Endpoint, d: seq<byte>, now: nat, sn: nat)
    requires Local(e) && e.convInit
    ensures Received(Input(e, d, now).rcv, sn) <==>
            Received(e.rcv, sn) || Pushed(Own(ParseAll(d), e.conv), sn, WindowEnd(e.rcv.nxt, e.cfg.rcvWnd))
  {
    hide HandlePackets, ParseAll, Own, Headed, FinishInput, SndOk, Received, SortRecvBuf, DrainQueue, Pushed, WindowEnd;
    var all := ParseAll(d);
    var (e1, scan) := HandlePackets(e, NoScan, all, now);
    LocalHeaded(e);
    ForeignIsSkipped(e, NoScan, all, now);
    OwnConcern(all, e.conv);
    AllReceived(e, NoScan, Own(all, e.conv), now, sn);
    InputIsFinished(e, d, now);
    OnDataReceives(e1.rcv, sn);
    FinishReceives(e1, scan, e.snd.una);
  }

  lemma FinishReceives(e: Endpoint, scan: Scan, prevUna: nat)
    requires UsableConfig(e.cfg)
    ensures FinishInput(e, scan, prevUna).rcv == if scan.hasData then DrainQueue(SortRecvBuf(e.rcv)) else e.rcv
  {
    hide UpdateFastAck, SortRecvBuf, DrainQueue, Increase;
  }

  /** The window is announced again exactly when the peer asks, or when the queue was full of fragments in
      order before the complete messages were handed over. */
  lemma TellIsOwedIff(e: Endpoint, y: Endpoint, d: seq<byte>, now: nat)
    requires Paired(e, y) && e.convInit && d in y.written
    ensures var ps, e' := Own(ParseAll(d), e.conv), Input(e, d, now);
            && e.rcv.nxt <= e'.rcv.nxt
            && (e'.ctl.askTell <==> e.ctl.askTell || Any(ps, CMD_WASK)
                                    || (Any(ps, CMD_PUSH) && |e.rcv.queue| + e'.rcv.nxt - e.rcv.nxt >= e.cfg.rcvWnd))
  {
    hide HandlePackets, ParseAll, Own, Headed, FinishInput, SndOk, Received, SortRecvBuf, DrainQueue, Linked, WrittenGood, Unacked, Owed, Samples, UpdateAll, Any, WindowEnd, FirstUnacked;
    var all := ParseAll(d);
    var (e1, scan) := HandlePackets(e, NoScan, all, now);
    LocalHeaded(e);
    ForeignIsSkipped(e, NoScan, all, now);
    OwnConcern(all, e.conv);
    var ps := Own(all, e.conv);
    ReadAllTo(e, NoScan, ps, now);
    FinishCounts(e1, scan, e.snd.una);
    InputIsFinished(e, d, now);
    OnDataReceives(e1.rcv, 0);
    ShortQueue(e, y, d, now);
  }

  lemma ShortQueue(e: Endpoint, y: Endpoint, d: seq<byte>, now: nat)
    requires Paired(e, y) && d in y.written
    ensures |Input(e, d, now).rcv.queue| < e.cfg.rcvWnd
  {
    InputOk(e, y, d, now);
    hide Input, ParseAll, Received, Sent, SndOk, InOrder, Arriving, PeekSize, GoodPacket;
  }

  // ---- any endpoint ----

  /** The packets that concern an endpoint, which takes its conversation from the first one if it has none. */
  function Mine(e: Endpoint, d: seq<byte>): seq<Packet> {
    var ps := ParseAll(d);
    Own(ps, if e.convInit || ps == [] then e.conv else ps[0].conv)
  }

  /** InputTells for an endpoint with or without a conversation. */
  lemma InputTellsAll(e: Endpoint, d: seq<byte>, now: nat)
    requires Local(e)
    ensures var ps, e' := Mine(e, d), Input(e, d, now);
            && SentAfter(e.snd, ps, e.cfg.conserve, e'.snd) && ControlAfter(e, ps, now, e')
            && e'.cfg == e.cfg && e'.written == e.written
            && e'.rcv.acks == e.rcv.acks + Owed(ps, WindowEnd(e.rcv.nxt, e.cfg.rcvWnd))
  {
    LocalHeaded(e);
    hide ParseAll, Own, Input, SndOk, Headed, SentAfter, Owed, WindowEnd, Samples, UpdateAll, WndAfter, Increase, Mss;
    var ps := ParseAll(d);
    if e.convInit {
      InputTells(e, d, now);
    } else {
      FirstPacketGivesConv(e, d, now);
      if ps == [] {
        NothingTold(e, now);
      } else {
        InputTells(e.(convInit := true, conv := ps[0].conv), d, now);
      }
    }
  }

  lemma NothingTold(e: Endpoint, now: nat)
    requires UsableConfig(e.cfg) && Headed(e.snd)
    ensures Own([], e.conv) == []
    ensures SentAfter(e.snd, [], e.cfg.conserve, e.snd) && ControlAfter(e, [], now, e)
    ensures e.rcv.acks == e.rcv.acks + Owed([], WindowEnd(e.rcv.nxt, e.cfg.rcvWnd))
  {
    AllOpen(e.snd.buf, e.snd.una, []);
    assert UpdateAll(e.ctl.rtt, [], e.cfg.interval, e.cfg.minrto) == e.ctl.rtt;
  }
}
