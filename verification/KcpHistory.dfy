/** What the datagrams of a run tell about the endpoints: how often a segment was sent and when again,
    whose time an acknowledgement echoes, and which window a sender goes by. */
module KcpHistory {
  import opened Sequences
  import opened LittleEndian
  import opened KcpState
  import opened KcpSegments
  import opened KcpLink
  import opened KcpWire
  import opened KcpRtt
  import opened KcpProtocol
  import opened KcpFlush
  import opened KcpRuns
  import opened KcpRead
  import opened KcpTurn

  // ---- counting transmissions ----

  /** How often segment sn is among these packets. */
  function Copies(ps: seq<Packet>, sn: nat): nat {
    if ps == [] then 0 else (if ps[0].cmd == CMD_PUSH && ps[0].sn == sn then 1 else 0) + Copies(ps[1..], sn)
  }

  /** How often an endpoint has written segment sn. */
  function TimesSent(e: Endpoint, sn: nat): nat { Copies(ParseDatagrams(e.written), sn) }

  lemma {:induction false} CopiesConcat(a: seq<Packet>, b: seq<Packet>, sn: nat)
    ensures Copies(a + b, sn) == Copies(a, sn) + Copies(b, sn)
  {
    if a == [] {
      assert a + b == b;
    } else {
      CopiesConcat(a[1..], b, sn);
      FirstOfTwo(a, b);
    }
  }

  lemma {:induction false} CopiesOfData(ps: seq<Packet>, sn: nat)
    ensures Copies(Only(ps, CMD_PUSH), sn) == Copies(ps, sn)
  {
    if ps != [] {
      CopiesOfData(ps[1..], sn);
      if ps[0].cmd == CMD_PUSH {
        assert Only(ps, CMD_PUSH)[1..] == Only(ps[1..], CMD_PUSH);
      } else {
        assert Only(ps, CMD_PUSH) == Only(ps[1..], CMD_PUSH);
      }
    }
  }

  lemma {:induction false} NoCopies(ps: seq<Packet>, sn: nat)
    requires forall p | p in ps && p.cmd == CMD_PUSH :: p.sn != sn
    ensures Copies(ps, sn) == 0
  {
    if ps != [] {
      assert ps[0] in ps;
      NoCopies(ps[1..], sn);
    }
  }

  /** Segments with this number. */
  function Numbers(segs: seq<Seg>, sn: nat): nat {
    if segs == [] then 0 else (if segs[0].sn == sn then 1 else 0) + Numbers(segs[1..], sn)
  }

  lemma {:induction false} CopiesOfSegs(ps: seq<Packet>, e: Endpoint, segs: seq<Seg>, now: nat, sn: nat)
    requires DataTold(ps, e, segs, now)
    ensures Copies(ps, sn) == Numbers(segs, sn)
  {
    if ps != [] {
      assert Heads(ps[0], e, CMD_PUSH, now, segs[0].sn);
      assert DataTold(ps[1..], e, segs[1..], now) by {
        forall i | 0 <= i < |ps| - 1
          ensures Heads(ps[1..][i], e, CMD_PUSH, now, segs[1..][i].sn) && Frag(ps[1..][i].frg, ps[1..][i].payload) == segs[1..][i].frag
        {
          assert ps[1..][i] == ps[i + 1] && segs[1..][i] == segs[i + 1];
        }
      }
      CopiesOfSegs(ps[1..], e, segs[1..], now, sn);
    }
  }

  lemma {:induction false} NotGoing(buf: seq<Seg>, cfg: Config, now: nat, sn: nat)
    requires forall seg | seg in buf && seg.sn == sn :: !Goes(seg, cfg, now)
    ensures Numbers(Going(buf, cfg, now), sn) == 0
  {
    if buf != [] {
      assert buf[0] in buf;
      NotGoing(buf[1..], cfg, now, sn);
      hide Goes;
      if Goes(buf[0], cfg, now) {
        assert Going(buf, cfg, now)[1..] == Going(buf[1..], cfg, now);
      } else {
        assert Going(buf, cfg, now) == Going(buf[1..], cfg, now);
      }
    }
  }

  lemma {:induction false} GoingOnce(buf: seq<Seg>, lo: nat, cfg: Config, now: nat, i: nat)
    requires Rising(buf, lo) && i < |buf|
    ensures Numbers(Going(buf, cfg, now), buf[i].sn) == if Goes(buf[i], cfg, now) then 1 else 0
  {
    hide Goes;
    var rest := Going(buf[1..], cfg, now);
    assert Going(buf, cfg, now) == (if Goes(buf[0], cfg, now) then [buf[0]] else []) + rest;
    assert [buf[0]] + rest != [] && ([buf[0]] + rest)[1..] == rest && [] + rest == rest;
    if i == 0 {
      forall seg | seg in buf[1..] ensures seg.sn != buf[0].sn {
        var j :| 0 <= j < |buf[1..]| && buf[1..][j] == seg;
        RisingAt(buf[1..], buf[0].sn + 1, j);
      }
      NotGoing(buf[1..], cfg, now, buf[0].sn);
    } else {
      RisingAt(buf[1..], buf[0].sn + 1, i - 1);
      GoingOnce(buf[1..], buf[0].sn + 1, cfg, now, i - 1);
    }
  }

  /** In one turn each segment goes out once if it goes, and nothing else does. */
  lemma CopiesInTurn(e: Endpoint, now: nat, u: Probes, lo: nat, sn: nat)
    requires UsableConfig(e.cfg) && |e.rcv.queue| <= e.cfg.rcvWnd && 0 <= e.ctl.rtt.rto < U32 && Rising(Numbered(e).snd.buf, lo)
    ensures var buf, n := Numbered(e).snd.buf, Copies(UpdatePackets(e, now, u), sn);
            && (forall i :: 0 <= i < |buf| && buf[i].sn == sn ==> n == if Goes(buf[i], e.cfg, now) then 1 else 0)
            && ((forall seg | seg in buf && seg.sn == sn :: !Goes(seg, e.cfg, now)) ==> n == 0)
  {
    hide UpdatePackets, SortSendQueue, Goes, Only, Rising, Going, DataTold, AcksTold;
    var buf, ps := Numbered(e).snd.buf, UpdatePackets(e, now, u);
    TurnWrites(e, now, u);
    CopiesOfData(ps, sn);
    CopiesOfSegs(Only(ps, CMD_PUSH), e, Going(buf, e.cfg, now), now, sn);
    forall i | 0 <= i < |buf| && buf[i].sn == sn ensures Copies(ps, sn) == if Goes(buf[i], e.cfg, now) then 1 else 0 {
      GoingOnce(buf, lo, e.cfg, now, i);
    }
    if forall seg | seg in buf && seg.sn == sn :: !Goes(seg, e.cfg, now) {
      NotGoing(buf, e.cfg, now, sn);
    }
  }

  ghost predicate RttOk(r: Rtt) { 0 <= r.srtt && 0 <= r.rttval && 0 <= r.rto <= RTO_MAX }

  lemma {:induction false} SamplesKeepRttOk(r: Rtt, samples: seq<int>, interval: nat, minrto: int)
    requires RttOk(r)
    ensures RttOk(UpdateAll(r, samples, interval, minrto))
  {
    if samples != [] {
      SamplesKeepRttOk(r, samples[..|samples| - 1], interval, minrto);
    }
  }

  /** The counter of each segment that is not acknowledged yet tells how often it was written. */
  ghost predicate CountsOk(x: Endpoint) {
    RttOk(x.ctl.rtt) && forall seg | seg in x.snd.buf :: TimesSent(x, seg.sn) == seg.xmit
  }

  /** Same segment, up to the count of skips. */
  predicate SameSent(seg: Seg, seg': Seg) { seg' == seg.(fastack := seg'.fastack) }

  lemma {:induction false} UnackedFrom(buf: seq<Seg>, ps: seq<Packet>, seg: Seg)
    requires seg in Unacked(buf, ps)
    ensures seg in buf
  {
    if !(Open(buf[0].sn, ps) && seg == buf[0]) {
      UnackedFrom(buf[1..], ps, seg);
    }
  }

  lemma SurvivesInput(s: Snd, ps: seq<Packet>, conserve: bool, s': Snd, seg': Seg) returns (seg: Seg)
    requires SentAfter(s, ps, conserve, s') && seg' in s'.buf
    ensures seg in s.buf && SameSent(seg, seg')
  {
    hide Newest, Any, FirstUnacked;
    var i :| 0 <= i < |s'.buf| && s'.buf[i] == seg';
    seg := Unacked(s.buf, ps)[i];
    UnackedFrom(s.buf, ps, seg);
    hide Unacked;
  }

  lemma InputCounts(x: Endpoint, d: seq<byte>, now: nat)
    requires Local(x) && CountsOk(x)
    ensures CountsOk(Input(x, d, now))
  {
    hide Input, ParseAll, SndOk, SentAfter, Samples, Owed, WndAfter, Mine;
    InputTellsAll(x, d, now);
    var ps, x' := Mine(x, d), Input(x, d, now);
    SamplesKeepRttOk(x.ctl.rtt, Samples(ps, now), x.cfg.interval, x.cfg.minrto);
    forall seg' | seg' in x'.snd.buf ensures TimesSent(x', seg'.sn) == seg'.xmit {
      var seg := SurvivesInput(x.snd, ps, x.cfg.conserve, x'.snd, seg');
    }
  }

  lemma {:induction false} InSomeDatagram(ds: seq<seq<byte>>, p: Packet) returns (d: seq<byte>)
    requires p in ParseDatagrams(ds)
    ensures d in ds && p in ParseAll(d)
  {
    var last := ds[|ds| - 1];
    if p in ParseAll(last) {
      d := last;
    } else {
      d := InSomeDatagram(ds[..|ds| - 1], p);
    }
  }

  lemma GoodNumber(p: Packet, e: Endpoint)
    requires ValidConfig(e.cfg) && GoodPacket(p, e) && p.cmd == CMD_PUSH
    ensures p.sn < e.snd.nxt
  {
  }

  /** No segment was written before it had a number. */
  lemma NothingBeyond(x: Endpoint, sn: nat)
    requires Local(x) && WrittenGood(x) && x.snd.nxt <= sn
    ensures TimesSent(x, sn) == 0
  {
    hide GoodPacket, SndOk, ParseAll;
    forall p | p in ParseDatagrams(x.written) && p.cmd == CMD_PUSH ensures p.sn != sn {
      var d := InSomeDatagram(x.written, p);
      GoodNumber(p, x);
    }
    NoCopies(ParseDatagrams(x.written), sn);
  }

  /** What a turn adds to the count of a segment. */
  lemma TurnAdds(x: Endpoint, y: Endpoint, now: nat, u: Probes, sn: nat)
    requires Paired(x, y) && now < U32 && HarmlessProbes(u, x) && RttOk(x.ctl.rtt)
    ensures var buf, n := Numbered(x).snd.buf, TimesSent(Update(x, now, u), sn) - TimesSent(x, sn);
            && (forall i :: 0 <= i < |buf| && buf[i].sn == sn ==> n == if Goes(buf[i], x.cfg, now) then 1 else 0)
            && ((forall seg | seg in buf && seg.sn == sn :: !Goes(seg, x.cfg, now)) ==> n == 0)
  {
    hide Update, UpdatePackets, Goes, SortSendQueue, HarmlessProbes, GoodPacket, Sent, Received, Linked;
    TurnParses(x, y, now, u);
    CopiesConcat(ParseDatagrams(x.written), UpdatePackets(x, now, u), sn);
    NumberedRises(x, y);
    ShortQueueOf(x, y);
    CopiesInTurn(x, now, u, x.snd.una, sn);
  }

  lemma NumberedRises(x: Endpoint, y: Endpoint)
    requires Paired(x, y)
    ensures Rising(Numbered(x).snd.buf, x.snd.una) && SndOk(Numbered(x).snd, x.cfg) && Numbered(x).snd.una == x.snd.una
  {
    NumberedGrows(x, y);
    SendWindowFits(x);
    SortSendQueueOk(x.snd, y.rcv, SendWindow(x), x.cfg, y.cfg.rcvWnd);
    var n := Numbered(x).snd;
    OrderedRises(n.buf, n.una, n.nxt, Sent(n, Mss(x.cfg)));
    hide SortSendQueue, Keys, Ordered, Linked;
  }

  lemma ShortQueueOf(x: Endpoint, y: Endpoint)
    requires Paired(x, y)
    ensures |x.rcv.queue| < WND_RCV <= x.cfg.rcvWnd
  {
  }

  /** An old segment is at its old place, a new one has a new number and was never sent. */
  lemma NumberedIs(x: Endpoint, i: nat)
    requires i < |Numbered(x).snd.buf|
    ensures |x.snd.buf| <= |Numbered(x).snd.buf|
    ensures var seg := Numbered(x).snd.buf[i];
            if i < |x.snd.buf| then seg == x.snd.buf[i] else x.snd.nxt <= seg.sn && seg.xmit == 0
  {
    NumbersInOrder(x.snd, SendWindow(x));
    hide SortSendQueue, SendWindow;
  }

  lemma TickCounts(x: Endpoint, y: Endpoint, now: nat, u: Probes)
    requires Paired(x, y) && now < U32 && HarmlessProbes(u, x) && CountsOk(x)
    ensures CountsOk(Update(x, now, u))
  {
    hide Paired, Update, UpdatePackets, Goes, SortSendQueue, HarmlessProbes, TimesSent, Gone;
    LocalOf(x, y);
    UpdateIs(x, now, u);
    TurnKeeps(x, now, u);
    var buf, x' := Numbered(x).snd.buf, Update(x, now, u);
    forall i | 0 <= i < |x'.snd.buf| ensures TimesSent(x', x'.snd.buf[i].sn) == x'.snd.buf[i].xmit {
      TurnAdds(x, y, now, u, buf[i].sn);
      NumberedIs(x, i);
      if i >= |x.snd.buf| {
        NothingBeyond(x, buf[i].sn);
      }
      GoneIsCounted(buf[i], x.cfg, x.ctl.rtt.rto, now);
    }
  }

  lemma GoneIsCounted(seg: Seg, cfg: Config, rto: nat, now: nat)
    ensures Gone(seg, cfg, rto, now).sn == seg.sn && Gone(seg, cfg, rto, now).xmit == seg.xmit + 1
  {
  }

  lemma LocalOf(x: Endpoint, y: Endpoint)
    requires Paired(x, y)
    ensures Local(x) && Local(y) && WrittenGood(x) && ValidConfig(x.cfg) && ValidConfig(y.cfg)
  {
  }

  lemma SubmitCounts(x: Endpoint, msg: seq<byte>)
    requires ValidConfig(x.cfg) && CountsOk(x)
    ensures CountsOk(Send(x, msg)) && Send(x, msg).snd.buf == x.snd.buf && Send(x, msg).written == x.written
  {
    hide Fragments, SendOutcome;
  }

  lemma EventCounts(sys: Sys, ev: Event)
    requires Inv(sys) && Enabled(sys, ev) && CountsOk(sys.a) && CountsOk(sys.b)
    ensures Configured(sys) && CountsOk(Apply(sys, ev).a) && CountsOk(Apply(sys, ev).b)
  {
    hide CountsOk, Paired, Send, Update, Input, HarmlessProbes;
    PairedSymmetric(sys.a, sys.b);
    LocalOf(sys.a, sys.b);
    var x, y := sys.At(ev.side), sys.Peer(ev.side);
    match ev
    case Submit(_, msg) => SubmitCounts(x, msg);
    case Tick(_, now, u) => TickCounts(x, y, now, u);
    case Arrive(_, which, now) => InputCounts(x, y.written[which], now);
  }

  lemma {:induction false} RunCounts(sys: Sys, evs: seq<Event>)
    requires Inv(sys) && Configured(sys) && ValidRun(sys, evs) && CountsOk(sys.a) && CountsOk(sys.b)
    ensures var end := Run(sys, evs); Inv(end) && CountsOk(end.a) && CountsOk(end.b)
    decreases |evs|
  {
    hide CountsOk, Inv, Apply, Enabled, ValidConfig;
    RunKeepsInv(sys, evs);
    if evs != [] {
      RunCounts(sys, evs[..|evs| - 1]);
      EventCounts(Run(sys, evs[..|evs| - 1]), evs[|evs| - 1]);
    }
  }

  lemma StartCounts(sys: Sys)
    requires Start(sys)
    ensures Inv(sys) && Configured(sys) && CountsOk(sys.a) && CountsOk(sys.b)
  {
    var conv: nat, any: nat :| conv < U32 && any < U32 && sys == Sys(Initial(sys.a.cfg, true, conv), Initial(sys.b.cfg, false, any));
    StartPaired(sys.a.cfg, sys.b.cfg, true, false, conv, any);
  }

  lemma ReachableCounts(sys: Sys)
    requires Reachable(sys)
    ensures Inv(sys) && Configured(sys) && CountsOk(sys.a) && CountsOk(sys.b)
  {
    hide CountsOk, Inv, Initial, Run, ValidRun, ValidConfig;
    var start, evs :| Start(start) && Configured(start) && ValidRun(start, evs) && sys == Run(start, evs);
    StartCounts(start);
    RunCounts(start, evs);
  }

  /** In every reachable state the transmission counter of a segment that is not acknowledged yet is the
      number of times it was written to the network. */
  lemma CounterIsExact(sys: Sys, side: Side, seg: Seg)
    requires Reachable(sys) && seg in sys.At(side).snd.buf
    ensures TimesSent(sys.At(side), seg.sn) == seg.xmit
  {
    hide Reachable, TimesSent;
    ReachableCounts(sys);
  }

  // ---- when a segment goes out again ----

  /** Segment seg.sn was numbered; it is as it was, if `there`, or it is acknowledged. */
  ghost predicate Kept(x: Endpoint, seg: Seg, there: bool) {
    seg.sn < x.snd.nxt && forall s | s in x.snd.buf && s.sn == seg.sn :: there && SameSent(seg, s)
  }

  function SkipLimit(cfg: Config): nat { if cfg.fastresend == 0 then 0xffff_ffff else cfg.fastresend }

  /** A turn of the timer before the segment is overdue and while it was not skipped often enough. */
  ghost predicate TooEarly(x: Endpoint, seg: Seg, now: nat) {
    now < seg.resendts && forall s | s in x.snd.buf && s.sn == seg.sn :: s.fastack < SkipLimit(x.cfg)
  }

  lemma KeptInInput(x: Endpoint, d: seq<byte>, now: nat, seg: Seg, there: bool)
    requires Local(x) && Kept(x, seg, there)
    ensures Kept(Input(x, d, now), seg, there) && Input(x, d, now).written == x.written
  {
    hide Input, ParseAll, SndOk, SentAfter, Samples, Owed, WndAfter, Mine, ControlAfter;
    InputTellsAll(x, d, now);
    var ps, x' := Mine(x, d), Input(x, d, now);
    assert x'.snd.nxt == x.snd.nxt by { SentAfterNumbers(x.snd, ps, x.cfg.conserve, x'.snd); }
    forall s' | s' in x'.snd.buf && s'.sn == seg.sn ensures there && SameSent(seg, s') {
      var s := SurvivesInput(x.snd, ps, x.cfg.conserve, x'.snd, s');
    }
  }

  lemma SentAfterNumbers(s: Snd, ps: seq<Packet>, conserve: bool, s': Snd)
    requires SentAfter(s, ps, conserve, s')
    ensures s'.nxt == s.nxt
  {
  }

  lemma KeptInTurn(x: Endpoint, y: Endpoint, now: nat, u: Probes, seg: Seg, there: bool)
    requires Paired(x, y) && now < U32 && HarmlessProbes(u, x) && RttOk(x.ctl.rtt) && Kept(x, seg, there)
    requires there ==> seg.xmit > 0 && TooEarly(x, seg, now)
    ensures var x' := Update(x, now, u); Kept(x', seg, there) && TimesSent(x', seg.sn) == TimesSent(x, seg.sn)
  {
    hide Paired, Update, SortSendQueue, HarmlessProbes, TimesSent, Gone;
    LocalOf(x, y);
    UpdateIs(x, now, u);
    TurnKeeps(x, now, u);
    TurnAdds(x, y, now, u, seg.sn);
    TurnNumbers(x, now, u);
    var buf, x' := Numbered(x).snd.buf, Update(x, now, u);
    forall i | 0 <= i < |buf| && buf[i].sn == seg.sn ensures there && SameSent(seg, buf[i]) && !Goes(buf[i], x.cfg, now) {
      NumberedIs(x, i);
    }
    forall i | 0 <= i < |x'.snd.buf| && x'.snd.buf[i].sn == seg.sn ensures there && SameSent(seg, x'.snd.buf[i]) {
      GoneIsCounted(buf[i], x.cfg, x.ctl.rtt.rto, now);
    }
  }

  ghost predicate EarlyEvent(sys: Sys, ev: Event, side: Side, seg: Seg) {
    ev.Tick? && ev.side == side ==> TooEarly(sys.At(side), seg, ev.now)
  }

  lemma KeptInEvent(sys: Sys, ev: Event, side: Side, seg: Seg, there: bool)
    requires Inv(sys) && Configured(sys) && Enabled(sys, ev) && CountsOk(sys.At(side)) && Kept(sys.At(side), seg, there)
    requires there ==> seg.xmit > 0 && EarlyEvent(sys, ev, side, seg)
    ensures var x' := Apply(sys, ev).At(side); Kept(x', seg, there) && TimesSent(x', seg.sn) == TimesSent(sys.At(side), seg.sn)
  {
    hide Paired, Send, Update, Input, HarmlessProbes, TooEarly, ValidConfig, CountsOk, TimesSent, RttOk;
    PairedSymmetric(sys.a, sys.b);
    LocalOf(sys.a, sys.b);
    var x, y := sys.At(side), sys.Peer(side);
    RtoFits(x);
    if ev.side == side {
      match ev
      case Submit(_, msg) =>
        SubmitCounts(x, msg);
        SubmitNumbers(x, msg);
        SameWritten(x, Apply(sys, ev).At(side), seg.sn);
      case Tick(_, now, u) => KeptInTurn(x, y, now, u, seg, there);
      case Arrive(_, which, now) =>
        KeptInInput(x, y.written[which], now, seg, there);
        SameWritten(x, Apply(sys, ev).At(side), seg.sn);
    }
  }

  lemma SameWritten(x: Endpoint, x': Endpoint, sn: nat)
    requires x'.written == x.written
    ensures TimesSent(x', sn) == TimesSent(x, sn)
  {
  }

  lemma SubmitNumbers(x: Endpoint, msg: seq<byte>)
    requires ValidConfig(x.cfg)
    ensures Send(x, msg).snd.nxt == x.snd.nxt
  {
    hide Fragments, SendOutcome;
  }

  /** Along the run each timer turn of this side comes too early for the segment. */
  ghost predicate Waits(sys: Sys, evs: seq<Event>, side: Side, seg: Seg)
    requires Configured(sys)
  {
    evs == [] || (Waits(sys, evs[..|evs| - 1], side, seg) && EarlyEvent(Run(sys, evs[..|evs| - 1]), evs[|evs| - 1], side, seg))
  }

  lemma {:induction false} KeptInRun(sys: Sys, evs: seq<Event>, side: Side, seg: Seg, there: bool)
    requires Inv(sys) && Configured(sys) && ValidRun(sys, evs) && CountsOk(sys.a) && CountsOk(sys.b)
    requires Kept(sys.At(side), seg, there) && (there ==> seg.xmit > 0 && Waits(sys, evs, side, seg))
    ensures var x' := Run(sys, evs).At(side); Kept(x', seg, there) && TimesSent(x', seg.sn) == TimesSent(sys.At(side), seg.sn)
    decreases |evs|
  {
    hide CountsOk, Inv, Apply, Enabled, ValidConfig, Kept, EarlyEvent, TimesSent;
    if evs != [] {
      var rest := evs[..|evs| - 1];
      KeptInRun(sys, rest, side, seg, there);
      RunCounts(sys, rest);
      KeptInEvent(Run(sys, rest), evs[|evs| - 1], side, seg, there);
    }
  }

  /** What was acknowledged is never written again. */
  lemma AcknowledgedIsNeverSentAgain(sys: Sys, evs: seq<Event>, side: Side, sn: nat)
    requires Reachable(sys) && Configured(sys) && ValidRun(sys, evs)
    requires sn < sys.At(side).snd.nxt && forall seg | seg in sys.At(side).snd.buf :: seg.sn != sn
    ensures TimesSent(Run(sys, evs).At(side), sn) == TimesSent(sys.At(side), sn)
  {
    hide Reachable, Inv, CountsOk, ValidRun, Run, TimesSent, ValidConfig;
    ReachableCounts(sys);
    KeptInRun(sys, evs, side, Seg(sn, Frag(0, []), 0, 0, 0, 0, 0), false);
  }

  /** A segment that was sent is not sent again, and stays as it is, while every timer turn of its side
      comes before its time and finds it skipped too seldom. */
  lemma NotSentBeforeItsTime(sys: Sys, evs: seq<Event>, side: Side, seg: Seg)
    requires Reachable(sys) && Configured(sys) && ValidRun(sys, evs)
    requires seg in sys.At(side).snd.buf && seg.xmit > 0 && Waits(sys, evs, side, seg)
    ensures var x := Run(sys, evs).At(side);
            && TimesSent(x, seg.sn) == TimesSent(sys.At(side), seg.sn)
            && forall s | s in x.snd.buf && s.sn == seg.sn :: SameSent(seg, s)
  {
    hide Reachable, CountsOk, ValidRun, Run, Waits, TimesSent, ValidConfig, Paired;
    ReachableCounts(sys);
    var x, y := sys.At(side), sys.Peer(side);
    PairedSymmetric(sys.a, sys.b);
    OnlyOne(x, y, seg);
    KeptInRun(sys, evs, side, seg, true);
  }

  lemma OnlyOne(x: Endpoint, y: Endpoint, seg: Seg)
    requires Paired(x, y) && seg in x.snd.buf
    ensures Kept(x, seg, true)
  {
    LocalHeaded(x);
    hide Linked, WrittenGood;
    OrderedAt(x.snd.buf, x.snd.una, x.snd.nxt, Sent(x.snd, Mss(x.cfg)), seg);
    hide SndOk;
    forall s | s in x.snd.buf && s.sn == seg.sn ensures s == seg { RisingOnce(x.snd.buf, x.snd.una, s, seg); }
  }

  lemma {:induction false} RisingOnce(buf: seq<Seg>, lo: nat, a: Seg, b: Seg)
    requires Rising(buf, lo) && a in buf && b in buf && a.sn == b.sn
    ensures a == b
  {
    if a != buf[0] && b != buf[0] {
      RisingOnce(buf[1..], buf[0].sn + 1, a, b);
    } else if a != b {
      var other := if a == buf[0] then b else a;
      var i :| 0 <= i < |buf[1..]| && buf[1..][i] == other;
      RisingAt(buf[1..], buf[0].sn + 1, i);
    }
  }

  /** After a turn at time t that sends a segment, it is sent a second time only when its timeout has
      passed since t, or when it was skipped often enough. */
  lemma SentAgainInItsTime(sys: Sys, side: Side, t: nat, u: Probes, i: nat, evs: seq<Event>)
    requires Reachable(sys) && Configured(sys) && Enabled(sys, Tick(side, t, u)) && i < |Numbered(sys.At(side)).snd.buf|
    requires 0 <= sys.At(side).ctl.rtt.rto
    requires var x := sys.At(side); var seg := Numbered(x).snd.buf[i];
             && Goes(seg, x.cfg, t) && t + Patience(seg, x.cfg, x.ctl.rtt.rto) < U32
             && Configured(Apply(sys, Tick(side, t, u))) && ValidRun(Apply(sys, Tick(side, t, u)), evs)
             && Waits(Apply(sys, Tick(side, t, u)), evs, side, Gone(seg, x.cfg, x.ctl.rtt.rto, t))
    ensures var x, sn := sys.At(side), Numbered(sys.At(side)).snd.buf[i].sn;
            && Gone(Numbered(x).snd.buf[i], x.cfg, x.ctl.rtt.rto, t).resendts == t + Patience(Numbered(x).snd.buf[i], x.cfg, x.ctl.rtt.rto)
            && TimesSent(Run(Apply(sys, Tick(side, t, u)), evs).At(side), sn) == TimesSent(x, sn) + 1
  {
    hide Reachable, CountsOk, ValidRun, Run, Waits, TimesSent, ValidConfig, Goes, Patience, Gone, Paired, SortSendQueue, Enabled, Apply, Numbered, Kept;
    ReachableCounts(sys);
    var x, y, ev := sys.At(side), sys.Peer(side), Tick(side, t, u);
    PairedSymmetric(sys.a, sys.b);
    EventCounts(sys, ev);
    StepKeepsInv(sys, ev);
    TickIs(sys, side, t, u);
    var sys1 := Apply(sys, ev);
    PairedSymmetric(sys1.a, sys1.b);
    GoesOnce(x, y, t, u, i);
    KeptInRun(sys1, evs, side, Gone(Numbered(x).snd.buf[i], x.cfg, x.ctl.rtt.rto, t), true);
  }

  lemma TickIs(sys: Sys, side: Side, t: nat, u: Probes)
    requires Configured(sys) && Enabled(sys, Tick(side, t, u))
    ensures t < U32 && HarmlessProbes(u, sys.At(side)) && ValidConfig(sys.At(side).cfg)
    ensures var sys1 := Apply(sys, Tick(side, t, u)); sys1.At(side) == Update(sys.At(side), t, u) && sys1.Peer(side) == sys.Peer(side)
  {
    hide Update, HarmlessProbes, ValidConfig;
  }

  /** A segment that goes is sent once more and waits from then on. */
  lemma GoesOnce(x: Endpoint, y: Endpoint, t: nat, u: Probes, i: nat)
    requires Paired(x, y) && t < U32 && HarmlessProbes(u, x) && CountsOk(x) && i < |Numbered(x).snd.buf| && ValidConfig(x.cfg)
    requires Goes(Numbered(x).snd.buf[i], x.cfg, t) && Paired(Update(x, t, u), y)
    ensures 0 <= x.ctl.rtt.rto < U32
    ensures var seg, x' := Numbered(x).snd.buf[i], Update(x, t, u);
            var gone := Gone(seg, x.cfg, x.ctl.rtt.rto, t);
            && Kept(x', gone, true) && gone.xmit > 0 && gone.sn == seg.sn && TimesSent(x', seg.sn) == TimesSent(x, seg.sn) + 1
            && (t + Patience(seg, x.cfg, x.ctl.rtt.rto) < U32 ==> gone.resendts == t + Patience(seg, x.cfg, x.ctl.rtt.rto))
  {
    hide CountsOk, TimesSent, Goes, Patience, NextRto, Skipped, Paired, Update, SortSendQueue, HarmlessProbes, Kept;
    RtoFits(x);
    TurnKeeps(x, t, u);
    var seg := Numbered(x).snd.buf[i];
    var gone := Gone(seg, x.cfg, x.ctl.rtt.rto, t);
    TurnAdds(x, y, t, u, seg.sn);
    assert gone == Update(x, t, u).snd.buf[i];
    OnlyOne(Update(x, t, u), y, gone);
  }

  lemma RtoFits(x: Endpoint)
    requires CountsOk(x)
    ensures 0 <= x.ctl.rtt.rto < U32 && RttOk(x.ctl.rtt)
  {
  }

  // ---- the window a sender goes by ----

  /** The window that the datagrams a side has read advertised last. */
  function WndRead(sys: Sys, evs: seq<Event>, side: Side): nat
    requires Configured(sys)
  {
    if evs == [] then sys.At(side).ctl.rmtWnd else
      var rest, ev := evs[..|evs| - 1], evs[|evs| - 1];
      var before := Run(sys, rest);
      if ev.Arrive? && ev.side == side && ev.which < |before.Peer(side).written|
      then WndAfter(Mine(before.At(side), before.Peer(side).written[ev.which]), WndRead(sys, rest, side))
      else WndRead(sys, rest, side)
  }

  lemma EventReadsWindow(sys: Sys, ev: Event, side: Side)
    requires Inv(sys) && Configured(sys) && Enabled(sys, ev)
    ensures Apply(sys, ev).At(side).ctl.rmtWnd ==
            if ev.Arrive? && ev.side == side
            then WndAfter(Mine(sys.At(side), sys.Peer(side).written[ev.which]), sys.At(side).ctl.rmtWnd) else sys.At(side).ctl.rmtWnd
  {
    hide Paired, Send, Update, Input, HarmlessProbes, Mine, ValidConfig;
    PairedSymmetric(sys.a, sys.b);
    LocalOf(sys.a, sys.b);
    var x, y := sys.At(side), sys.Peer(side);
    if ev.side == side {
      match ev
      case Submit(_, msg) => SubmitLeaves(x, msg);
      case Tick(_, now, u) => UpdateFromNumbered(x, now, u);
      case Arrive(_, which, now) => InputWindow(x, y.written[which], now);
    }
  }

  lemma SubmitLeaves(x: Endpoint, msg: seq<byte>)
    requires ValidConfig(x.cfg)
    ensures Send(x, msg).ctl == x.ctl
  {
    hide Fragments, SendOutcome;
  }

  lemma InputWindow(x: Endpoint, d: seq<byte>, now: nat)
    requires Local(x)
    ensures Input(x, d, now).ctl.rmtWnd == WndAfter(Mine(x, d), x.ctl.rmtWnd)
  {
    InputTellsAll(x, d, now);
    hide Input, Mine, WndAfter, Local, SentAfter;
  }

  lemma {:induction false} WindowIsLastRead(sys: Sys, evs: seq<Event>, side: Side)
    requires Inv(sys) && Configured(sys) && ValidRun(sys, evs)
    ensures Run(sys, evs).At(side).ctl.rmtWnd == WndRead(sys, evs, side)
    decreases |evs|
  {
    hide Inv, Apply, ValidConfig, Mine, WndAfter, HarmlessProbes;
    if evs != [] {
      var rest := evs[..|evs| - 1];
      WindowIsLastRead(sys, rest, side);
      RunKeepsInv(sys, rest);
      EventReadsWindow(Run(sys, rest), evs[|evs| - 1], side);
    }
  }

  /** In every run, what a timer turn numbers lies within the window that was advertised last, or is the one
      segment that may go into a closed window. */
  lemma NumbersWithinAdvertisedWindow(start: Sys, evs: seq<Event>, side: Side, now: nat, u: Probes)
    requires Start(start) && Configured(start) && ValidRun(start, evs) && Enabled(Run(start, evs), Tick(side, now, u))
    ensures ValidConfig(Run(start, evs).At(side).cfg)
    ensures var x := Run(start, evs).At(side);
            var x' := Update(x, now, u);
            x'.snd.nxt > x.snd.nxt ==> x'.snd.nxt <= x.snd.una + KcpCongestion.Max(1, WndRead(start, evs, side))
  {
    hide CountsOk, Initial, Run, ValidRun, ValidConfig, WndRead, Update;
    StartCounts(start);
    WindowIsLastRead(start, evs, side);
    RunCounts(start, evs);
    TurnNumbers(Run(start, evs).At(side), now, u);
  }

  // ---- what acknowledgements echo ----

  /** Among these packets is segment sn as sent at time ts. */
  ghost predicate Told(ps: seq<Packet>, sn: nat, ts: nat) { exists p :: p in ps && p.cmd == CMD_PUSH && p.sn == sn && p.ts == ts }

  /** Every acknowledgement that y owes or has written echoes number and time of a packet x has written. */
  ghost predicate Echoes(x: Endpoint, y: Endpoint) {
    && (forall a | a in y.rcv.acks :: Told(ParseDatagrams(x.written), a.sn, a.ts))
    && (forall q | q in ParseDatagrams(y.written) && q.cmd == CMD_ACK :: Told(ParseDatagrams(x.written), q.sn, q.ts))
  }

  lemma {:induction false} DatagramParses(ds: seq<seq<byte>>, d: seq<byte>, p: Packet)
    requires d in ds && p in ParseAll(d)
    ensures p in ParseDatagrams(ds)
  {
    hide ParseAll;
    var init := ds[..|ds| - 1];
    if d != ds[|ds| - 1] {
      DatagramParses(init, d, p);
    }
  }

  lemma {:induction false} OwnFrom(ps: seq<Packet>, conv: nat, p: Packet)
    requires p in Own(ps, conv)
    ensures p in ps
  {
    if !(Concerns(ps[0], conv) && p == ps[0]) {
      OwnFrom(ps[1..], conv, p);
    }
  }

  lemma {:induction false} OwedFrom(ps: seq<Packet>, end: nat, a: Ack)
    requires a in Owed(ps, end)
    ensures Told(ps, a.sn, a.ts)
  {
    var p := ps[0];
    if p.cmd == CMD_PUSH && p.sn < end && a == Ack(p.sn, p.ts) {
      assert p in ps;
    } else {
      OwedFrom(ps[1..], end, a);
      var q :| q in ps[1..] && q.cmd == CMD_PUSH && q.sn == a.sn && q.ts == a.ts;
      assert q in ps;
    }
  }

  lemma InputEchoes(x: Endpoint, y: Endpoint, d: seq<byte>, now: nat)
    requires Local(y) && Echoes(x, y) && d in x.written
    ensures Echoes(x, Input(y, d, now))
  {
    hide Input, ParseAll, SndOk, SentAfter, ControlAfter, Own, Told, Owed, WindowEnd;
    InputTellsAll(y, d, now);
    var ps, end := Mine(y, d), WindowEnd(y.rcv.nxt, y.cfg.rcvWnd);
    forall a | a in Owed(ps, end) ensures Told(ParseDatagrams(x.written), a.sn, a.ts) {
      OwedFrom(ps, end, a);
      ToldByDatagram(x, y, d, a.sn, a.ts);
    }
  }

  lemma ToldByDatagram(x: Endpoint, y: Endpoint, d: seq<byte>, sn: nat, ts: nat)
    requires d in x.written && Told(Mine(y, d), sn, ts)
    ensures Told(ParseDatagrams(x.written), sn, ts)
  {
    hide ParseAll, Own;
    var p :| p in Mine(y, d) && p.cmd == CMD_PUSH && p.sn == sn && p.ts == ts;
    var ps := ParseAll(d);
    OwnFrom(ps, if y.convInit || ps == [] then y.conv else ps[0].conv, p);
    DatagramParses(x.written, d, p);
  }

  lemma {:induction false} OnlyHas(ps: seq<Packet>, p: Packet)
    requires p in ps
    ensures p in Only(ps, p.cmd)
  {
    if p != ps[0] {
      OnlyHas(ps[1..], p);
    }
  }

  lemma TurnEchoes(x: Endpoint, y: Endpoint, now: nat, u: Probes)
    requires Paired(y, x) && now < U32 && HarmlessProbes(u, y) && CountsOk(y) && Echoes(x, y)
    ensures Echoes(x, Update(y, now, u))
  {
    hide Paired, Update, UpdatePackets, HarmlessProbes, Told, Only, AcksTold, CountsOk;
    LocalOf(y, x);
    ShortQueueOf(y, x);
    RtoFits(y);
    TurnParses(y, x, now, u);
    TurnWrites(y, now, u);
    NoAcksOwed(y, now, u);
    var ps := UpdatePackets(y, now, u);
    forall q | q in ps && q.cmd == CMD_ACK ensures Told(ParseDatagrams(x.written), q.sn, q.ts) {
      AckIsOwed(y, ps, q);
    }
  }

  lemma NoAcksOwed(y: Endpoint, now: nat, u: Probes)
    requires ValidConfig(y.cfg)
    ensures Update(y, now, u).rcv.acks == []
  {
    UpdateIs(y, now, u);
    hide Update;
  }

  lemma AckIsOwed(y: Endpoint, ps: seq<Packet>, q: Packet)
    requires AcksTold(Only(ps, CMD_ACK), y) && q in ps && q.cmd == CMD_ACK
    ensures exists a :: a in y.rcv.acks && a.sn == q.sn && a.ts == q.ts
  {
    hide Only;
    OnlyHas(ps, q);
    var i :| 0 <= i < |Only(ps, CMD_ACK)| && Only(ps, CMD_ACK)[i] == q;
    assert y.rcv.acks[i] in y.rcv.acks;
  }

  lemma MoreWritten(x: Endpoint, x': Endpoint, y: Endpoint, more: seq<Packet>)
    requires Echoes(x, y) && ParseDatagrams(x'.written) == ParseDatagrams(x.written) + more
    ensures Echoes(x', y)
  {
    forall sn, ts | Told(ParseDatagrams(x.written), sn, ts) ensures Told(ParseDatagrams(x'.written), sn, ts) {
      var p :| p in ParseDatagrams(x.written) && p.cmd == CMD_PUSH && p.sn == sn && p.ts == ts;
      assert p in ParseDatagrams(x'.written);
    }
    hide Told;
  }

  /** Acknowledgements and data tell the room that was left in the queue when they were written. */
  ghost predicate AdvertisesRoom(y: Endpoint) {
    forall q | q in ParseDatagrams(y.written) && (q.cmd == CMD_ACK || q.cmd == CMD_PUSH) :: 1 <= q.wnd <= y.cfg.rcvWnd
  }

  lemma TurnAdvertises(y: Endpoint, x: Endpoint, now: nat, u: Probes)
    requires Paired(y, x) && now < U32 && HarmlessProbes(u, y) && CountsOk(y) && AdvertisesRoom(y)
    ensures AdvertisesRoom(Update(y, now, u))
  {
    hide Paired, Update, UpdatePackets, HarmlessProbes, Only, RttOk, Going;
    LocalOf(y, x);
    ShortQueueOf(y, x);
    RtoFits(y);
    TurnParses(y, x, now, u);
    TurnWrites(y, now, u);
    UpdateIs(y, now, u);
    var ps := UpdatePackets(y, now, u);
    forall q | q in ps && (q.cmd == CMD_ACK || q.cmd == CMD_PUSH) ensures 1 <= q.wnd <= y.cfg.rcvWnd {
      OnlyHas(ps, q);
      var i :| 0 <= i < |Only(ps, q.cmd)| && Only(ps, q.cmd)[i] == q;
    }
  }

  ghost predicate Talks(sys: Sys) {
    && CountsOk(sys.a) && CountsOk(sys.b) && Echoes(sys.a, sys.b) && Echoes(sys.b, sys.a) && AdvertisesRoom(sys.a) && AdvertisesRoom(sys.b)
  }

  /** An event at x, seen from both ends. */
  lemma EventTalks(x: Endpoint, y: Endpoint, ev: Event, x': Endpoint)
    requires Paired(x, y) && CountsOk(x) && Echoes(x, y) && Echoes(y, x) && AdvertisesRoom(x)
    requires match ev
             case Submit(_, msg) => ValidConfig(x.cfg) && x' == Send(x, msg)
             case Tick(_, now, u) => now < U32 && HarmlessProbes(u, x) && ValidConfig(x.cfg) && x' == Update(x, now, u)
             case Arrive(_, which, now) => which < |y.written| && ValidConfig(x.cfg) && x' == Input(x, y.written[which], now)
    ensures Echoes(x', y) && Echoes(y, x') && AdvertisesRoom(x')
  {
    hide Paired, CountsOk, Send, Update, Input, HarmlessProbes, Echoes, UpdatePackets;
    LocalOf(x, y);
    match ev
    case Submit(_, msg) =>
      SubmitFrame(x, msg);
      SameTalk(x, x', y);
    case Tick(_, now, u) =>
      PairedSymmetric(x, y);
      TurnEchoes(y, x, now, u);
      TurnAdvertises(x, y, now, u);
      TurnParses(x, y, now, u);
      MoreWritten(x, x', y, UpdatePackets(x, now, u));
    case Arrive(_, which, now) =>
      InputEchoes(y, x, y.written[which], now);
      InputFrame(x, y.written[which], now);
      assert ParseDatagrams(x'.written) == ParseDatagrams(x.written) + [];
      MoreWritten(x, x', y, []);
  }

  lemma SubmitFrame(x: Endpoint, msg: seq<byte>)
    requires ValidConfig(x.cfg)
    ensures Send(x, msg).written == x.written && Send(x, msg).rcv == x.rcv && Send(x, msg).cfg == x.cfg
  {
    hide Fragments, SendOutcome;
  }

  lemma SameTalk(x: Endpoint, x': Endpoint, y: Endpoint)
    requires x'.written == x.written && x'.rcv == x.rcv && Echoes(x, y) && Echoes(y, x)
    ensures Echoes(x', y) && Echoes(y, x')
  {
    hide Told;
  }

  lemma InputFrame(x: Endpoint, d: seq<byte>, now: nat)
    requires Local(x)
    ensures Input(x, d, now).written == x.written && Input(x, d, now).cfg == x.cfg
  {
    InputTellsAll(x, d, now);
  }

  lemma EventKeepsTalks(sys: Sys, ev: Event)
    requires Inv(sys) && Configured(sys) && Enabled(sys, ev) && Talks(sys)
    ensures Talks(Apply(sys, ev))
  {
    hide Paired, CountsOk, Send, Update, Input, HarmlessProbes, Echoes, AdvertisesRoom, ValidConfig;
    EventCounts(sys, ev);
    PairedSymmetric(sys.a, sys.b);
    EventTalks(sys.At(ev.side), sys.Peer(ev.side), ev, Apply(sys, ev).At(ev.side));
  }

  lemma {:induction false} RunTalks(sys: Sys, evs: seq<Event>)
    requires Inv(sys) && Configured(sys) && ValidRun(sys, evs) && Talks(sys)
    ensures Talks(Run(sys, evs))
    decreases |evs|
  {
    hide Talks, Inv, Apply, Enabled, ValidConfig;
    if evs != [] {
      RunTalks(sys, evs[..|evs| - 1]);
      RunKeepsInv(sys, evs[..|evs| - 1]);
      EventKeepsTalks(Run(sys, evs[..|evs| - 1]), evs[|evs| - 1]);
    }
  }

  lemma StartTalks(sys: Sys)
    requires Start(sys)
    ensures Inv(sys) && Configured(sys) && Talks(sys)
  {
    StartCounts(sys);
    hide CountsOk, Paired;
  }

  lemma ReachableTalks(sys: Sys)
    requires Reachable(sys)
    ensures Inv(sys) && Configured(sys) && Talks(sys)
  {
    hide Talks, Inv, Initial, Run, ValidRun, ValidConfig;
    var start, evs :| Start(start) && Configured(start) && ValidRun(start, evs) && sys == Run(start, evs);
    StartTalks(start);
    RunTalks(start, evs);
    RunKeepsInv(start, evs);
  }

  /** In every run, an acknowledgement echoes number and time stamp of a transmission of that very segment,
      so that the sample it gives to the filter is the time since a transmission. */
  lemma AcksEchoTransmissions(sys: Sys, side: Side, q: Packet)
    requires Reachable(sys) && q in ParseDatagrams(sys.Peer(side).written) && q.cmd == CMD_ACK
    ensures Told(ParseDatagrams(sys.At(side).written), q.sn, q.ts)
  {
    hide Reachable, CountsOk, AdvertisesRoom, Paired;
    ReachableTalks(sys);
  }

  /** In every run, no acknowledgement or data packet advertises a closed window or more than there is. */
  lemma WindowsAreTold(sys: Sys, side: Side, q: Packet)
    requires Reachable(sys) && q in ParseDatagrams(sys.At(side).written) && (q.cmd == CMD_ACK || q.cmd == CMD_PUSH)
    ensures 1 <= q.wnd <= sys.At(side).cfg.rcvWnd
  {
    hide Reachable, CountsOk, Echoes, Paired;
    ReachableTalks(sys);
  }
}
