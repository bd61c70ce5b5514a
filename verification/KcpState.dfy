/** The state of a KCP endpoint and, as functions, what each KcpTransport operation does to it. Sequence
    numbers stay below 2^32, because the ends of the windows are added up in 32 bits. */
module KcpState {
  import opened LittleEndian
  import opened KcpWire
  import opened KcpCongestion
  import opened KcpRtt

  const WND_RCV: nat := 128
  const PROBE_INIT: nat := 7000
  const PROBE_LIMIT: nat := 120000

  datatype DelayMode = Normal | Fast | NoDelay

  datatype Config = Config(mtu: nat, sndWnd: nat, rcvWnd: nat, interval: nat, minrto: nat, mode: DelayMode,
                           conserve: bool, nocwnd: bool, fastresend: nat, fastlimit: int)

  /** What setMtu and setWndSize accept, but for a receive window above 65535, which does not fit its
      header field. */
  predicate UsableConfig(cfg: Config) {
    50 <= cfg.mtu && 1 <= cfg.sndWnd < U32 && WND_RCV <= cfg.rcvWnd < U16
  }

  /** An mtu above the capacity of the pool overruns it (PoolSufficesIff, LargeMtuOverruns). */
  predicate ValidConfig(cfg: Config): (valid: bool)
    ensures valid ==> UsableConfig(cfg)
  {
    UsableConfig(cfg) && cfg.mtu <= POOL
  }

  /** The end of a window, which the program adds up in 32 bits. */
  function WindowEnd(start: nat, wnd: nat): (end: nat)
    ensures end < U32 && end <= start + wnd && (start + wnd < U32 ==> end == start + wnd)
  {
    (start + wnd) % U32
  }

  function Mss(cfg: Config): (mss: nat)
    requires UsableConfig(cfg)
    ensures mss > 0
  {
    cfg.mtu - HEADER_SIZE
  }

  /** A fragment of a message; frg counts down to 0 at the last one. */
  datatype Frag = Frag(frg: nat, data: seq<byte>)
  datatype Seg = Seg(sn: nat, frag: Frag, ts: nat, resendts: nat, rto: nat, fastack: nat, xmit: nat)
  datatype RSeg = RSeg(sn: nat, frag: Frag)
  datatype Ack = Ack(sn: nat, ts: nat)

  /** A buffer given to onRead: `size` bytes of which only the first |head| were written. */
  datatype Delivered = Delivered(size: nat, head: seq<byte>)

  /** Sending half; `accepted` is the history of messages taken by send. */
  datatype Snd = Snd(accepted: seq<seq<byte>>, queue: seq<Frag>, buf: seq<Seg>, una: nat, nxt: nat)
  /** Receiving half; `delivered` is the history of onRead calls. */
  datatype Rcv = Rcv(nxt: nat, buf: seq<RSeg>, queue: seq<Frag>, acks: seq<Ack>, delivered: seq<Delivered>)
  datatype Ctl = Ctl(rmtWnd: nat, cw: Cwnd, rtt: Rtt, askSend: bool, askTell: bool, tsProbe: nat, probeWait: nat)

  datatype Endpoint = Endpoint(cfg: Config, convInit: bool, conv: nat, snd: Snd, rcv: Rcv, ctl: Ctl, written: seq<seq<byte>>)

  /** What the uninitialised fields of a window probe happen to hold. */
  datatype Unset = Unset(wnd: nat, ts: nat, sn: nat, una: nat)
  /** What sendProbePacket meets: the time, which it reads for itself, and the unset fields of the
      two probes. */
  datatype Probes = Probes(clock: nat, ask: Unset, tell: Unset)

  function Initial(cfg: Config, convInit: bool, conv: nat): Endpoint {
    Endpoint(cfg, convInit, conv, Snd([], [], [], 0, 0), Rcv(0, [], [], [], []),
             Ctl(WND_RCV, InitialCwnd, InitialRtt, false, false, 0, 0), [])
  }

  // ---- send ----

  function FragCount(len: nat, mss: nat): nat
    requires mss > 0
  {
    (len + mss - 1) / mss
  }

  function Fragments(msg: seq<byte>, mss: nat): seq<Frag>
    requires mss > 0
    decreases |msg|
  {
    if msg == [] then []
    else if |msg| <= mss then [Frag(0, msg)]
    else [Frag(FragCount(|msg|, mss) - 1, msg[..mss])] + Fragments(msg[mss..], mss)
  }

  /** The fragments of a run of messages, in order. */
  function Stream(msgs: seq<seq<byte>>, mss: nat): seq<Frag>
    requires mss > 0
  {
    if msgs == [] then [] else Fragments(msgs[0], mss) + Stream(msgs[1..], mss)
  }

  datatype SendResult = Refused | Empty | Accepted(size: nat)

  function SendOutcome(e: Endpoint, msg: seq<byte>): SendResult
    requires UsableConfig(e.cfg)
  {
    if !e.convInit then Refused
    else if |msg| == 0 then Empty
    else if |msg| >= Mss(e.cfg) * WND_RCV then Refused
    else Accepted(|msg|)
  }

  /** KcpTransport::send, without the optional flush. */
  function Send(e: Endpoint, msg: seq<byte>): Endpoint
    requires UsableConfig(e.cfg)
  {
    if !SendOutcome(e, msg).Accepted? then e
    else e.(snd := e.snd.(accepted := e.snd.accepted + [msg], queue := e.snd.queue + Fragments(msg, Mss(e.cfg))))
  }

  // ---- acknowledgements ----

  function DropBelow(buf: seq<Seg>, una: nat): seq<Seg> {
    if buf == [] || una <= buf[0].sn then buf else DropBelow(buf[1..], una)
  }

  function EraseSn(buf: seq<Seg>, sn: nat): seq<Seg> {
    if buf == [] || sn < buf[0].sn then buf
    else if sn == buf[0].sn then buf[1..]
    else [buf[0]] + EraseSn(buf[1..], sn)
  }

  function FirstUnacked(buf: seq<Seg>, nxt: nat): nat { if buf == [] then nxt else buf[0].sn }

  function DropByUna(s: Snd, una: nat): Snd {
    if una <= s.una then s else
      var buf := DropBelow(s.buf, una);
      s.(buf := buf, una := FirstUnacked(buf, s.nxt))
  }

  function DropByAck(s: Snd, sn: nat): Snd {
    if sn < s.una then s else
      var buf := EraseSn(s.buf, sn);
      s.(buf := buf, una := FirstUnacked(buf, s.nxt))
  }

  function BumpFastAck(buf: seq<Seg>, sn: nat, ts: nat, conserve: bool): seq<Seg> {
    if buf == [] || sn < buf[0].sn then buf
    else
      var head := if sn != buf[0].sn && (!conserve || ts > buf[0].ts) then buf[0].(fastack := buf[0].fastack + 1) else buf[0];
      [head] + BumpFastAck(buf[1..], sn, ts, conserve)
  }

  function UpdateFastAck(s: Snd, sn: nat, ts: nat, conserve: bool): Snd {
    if sn < s.una || sn >= s.nxt then s else s.(buf := BumpFastAck(s.buf, sn, ts, conserve))
  }

  // ---- receiving ----

  function InsertSorted(buf: seq<RSeg>, seg: RSeg): seq<RSeg> {
    if buf == [] then [seg]
    else if buf[0].sn == seg.sn then buf
    else if buf[0].sn > seg.sn then [seg] + buf
    else [buf[0]] + InsertSorted(buf[1..], seg)
  }

  function HandlePush(r: Rcv, p: Packet, rcvWnd: nat): Rcv {
    if p.sn >= WindowEnd(r.nxt, rcvWnd) then r else
      var acked := r.(acks := r.acks + [Ack(p.sn, p.ts)]);
      if p.sn < r.nxt then acked
      else acked.(buf := InsertSorted(r.buf, RSeg(p.sn, Frag(p.frg, p.payload))))
  }

  function SortRecvBuf(r: Rcv): Rcv
    decreases |r.buf|
  {
    if r.buf == [] || r.buf[0].sn != r.nxt then r
    else SortRecvBuf(r.(buf := r.buf[1..], queue := r.queue + [r.buf[0].frag], nxt := r.nxt + 1))
  }

  /** Index of the last fragment of the message at the front, |q| if it is not there. */
  function LastFragment(q: seq<Frag>): (k: nat)
    ensures k <= |q|
    ensures k < |q| ==> q[k].frg == 0
  {
    if q == [] || q[0].frg == 0 then 0 else 1 + LastFragment(q[1..])
  }

  function SizeUpTo(q: seq<Frag>): nat {
    if q == [] then 0 else |q[0].data| + if q[0].frg == 0 then 0 else SizeUpTo(q[1..])
  }

  /** peeksize: the size of the message at the front, 0 while it is incomplete. */
  function PeekSize(q: seq<Frag>): nat {
    if q == [] || |q| < q[0].frg + 1 then 0 else SizeUpTo(q)
  }

  /** The pop loop of onData takes a message only where it finds its last fragment. */
  ghost predicate NeverRunsDry(q: seq<Frag>) {
    PeekSize(q) > 0 ==> LastFragment(q) < |q| && NeverRunsDry(q[LastFragment(q) + 1..])
  }

  /** The merge loop of onData. Every fragment is copied to the front of a new buffer, so the
      buffer handed over has the size of the message and the bytes of its last fragment. */
  function Drain(q: seq<Frag>): (seq<Delivered>, seq<Frag>)
  {
    var k := LastFragment(q);
    if PeekSize(q) == 0 || k == |q| then ([], q) else
      var (ds, rest) := Drain(q[k + 1..]);
      ([Delivered(PeekSize(q), q[k].data)] + ds, rest)
  }

  function DrainQueue(r: Rcv): Rcv {
    var (ds, rest) := Drain(r.queue);
    r.(queue := rest, delivered := r.delivered + ds)
  }

  function OnData(e: Endpoint): Endpoint {
    var sorted := SortRecvBuf(e.rcv);
    var drained := DrainQueue(sorted);
    var recovered := |sorted.queue| >= e.cfg.rcvWnd && |drained.queue| < e.cfg.rcvWnd;
    e.(rcv := drained, ctl := e.ctl.(askTell := e.ctl.askTell || recovered))
  }

  // ---- input ----

  /** The local variables of input that run over the packets of one datagram. */
  datatype Scan = Scan(fastAck: bool, maxAck: nat, latestTs: nat, hasData: bool)

  const NoScan := Scan(false, 0, 0, false)

  /** A 32-bit difference read as a signed number. */
  function Signed32(x: int): int {
    var w := x % U32;
    if w < 0x8000_0000 then w else w - U32
  }

  function KnownCmd(cmd: nat): bool { CMD_PUSH <= cmd <= CMD_WINS }

  function NoteAck(scan: Scan, p: Packet, conserve: bool): Scan {
    if !scan.fastAck then scan.(fastAck := true, maxAck := p.sn, latestTs := p.ts)
    else if p.sn > scan.maxAck && (!conserve || p.ts > scan.latestTs) then scan.(maxAck := p.sn, latestTs := p.ts)
    else scan
  }

  function AdoptConv(e: Endpoint, p: Packet): Endpoint {
    if e.convInit then e else e.(convInit := true, conv := p.conv)
  }

  /** handleAnyPacket. */
  function HandleAny(e: Endpoint, p: Packet): Endpoint {
    e.(snd := DropByUna(e.snd, p.una), ctl := e.ctl.(rmtWnd := p.wnd))
  }

  /** The switch of input on the command. */
  function Dispatch(e: Endpoint, scan: Scan, p: Packet, now: nat): (Endpoint, Scan) {
    if p.cmd == CMD_ACK then
      var rtt := UpdateRtt(e.ctl.rtt, Signed32(now - p.ts), e.cfg.interval, e.cfg.minrto);
      (e.(snd := DropByAck(e.snd, p.sn), ctl := e.ctl.(rtt := rtt)), NoteAck(scan, p, e.cfg.conserve))
    else if p.cmd == CMD_PUSH then
      (e.(rcv := HandlePush(e.rcv, p, e.cfg.rcvWnd)), scan.(hasData := true))
    else if p.cmd == CMD_WASK then
      (e.(ctl := e.ctl.(askTell := true)), scan)
    else
      (e, scan)
  }

  /** One turn of the packet loop of input. */
  function HandlePacket(e0: Endpoint, scan: Scan, p: Packet, now: nat): (Endpoint, Scan) {
    var e := AdoptConv(e0, p);
    if e.conv != p.conv || !KnownCmd(p.cmd) then (e, scan) else Dispatch(HandleAny(e, p), scan, p, now)
  }

  function HandlePackets(e: Endpoint, scan: Scan, ps: seq<Packet>, now: nat): (Endpoint, Scan)
    decreases ps
  {
    if ps == [] then (e, scan) else
      var (e', scan') := HandlePacket(e, scan, ps[0], now);
      HandlePackets(e', scan', ps[1..], now)
  }

  /** The tail of input, after the packet loop. */
  function FinishInput(e: Endpoint, scan: Scan, prevUna: nat): Endpoint
    requires UsableConfig(e.cfg)
  {
    var e1 := if scan.fastAck then e.(snd := UpdateFastAck(e.snd, scan.maxAck, scan.latestTs, e.cfg.conserve)) else e;
    var e2 := if e1.snd.una > prevUna then e1.(ctl := e1.ctl.(cw := Increase(e1.ctl.cw, e1.ctl.rmtWnd, Mss(e.cfg)))) else e1;
    if scan.hasData then OnData(e2) else e2
  }

  lemma {:induction false} HandlePacketsCfg(e: Endpoint, scan: Scan, ps: seq<Packet>, now: nat)
    ensures HandlePackets(e, scan, ps, now).0.cfg == e.cfg && HandlePackets(e, scan, ps, now).0.written == e.written
    decreases ps
  {
    if ps != [] {
      var (e', scan') := HandlePacket(e, scan, ps[0], now);
      HandlePacketsCfg(e', scan', ps[1..], now);
    }
  }

  /** KcpTransport::input on a datagram. */
  function Input(e: Endpoint, data: seq<byte>, now: nat): Endpoint
    requires UsableConfig(e.cfg)
  {
    HandlePacketsCfg(e, NoScan, ParseAll(data), now);
    var (e', scan) := HandlePackets(e, NoScan, ParseAll(data), now);
    FinishInput(e', scan, e.snd.una)
  }

  /** What input needs of the peer: its fragments must close every message they start. */
  ghost predicate InputIsSafe(e: Endpoint, data: seq<byte>, now: nat) {
    var (e', scan) := HandlePackets(e, NoScan, ParseAll(data), now);
    scan.hasData ==> NeverRunsDry(SortRecvBuf(e'.rcv).queue)
  }

  // ---- update ----

  /** getRcvWndUnused, as the 16-bit header field receives it. */
  function AdvertisedWnd(e: Endpoint): nat { (e.cfg.rcvWnd - |e.rcv.queue|) % U16 }

  function AckPacket(e: Endpoint, a: Ack): Packet {
    Packet(e.conv, CMD_ACK, 0, AdvertisedWnd(e), a.ts, a.sn, e.rcv.nxt, [])
  }

  function AckPackets(e: Endpoint, acks: seq<Ack>): seq<Packet> {
    if acks == [] then [] else [AckPacket(e, acks[0])] + AckPackets(e, acks[1..])
  }

  /** The probe timer of sendProbePacket. */
  function ProbeTimer(c: Ctl, now: nat): Ctl {
    if c.rmtWnd != 0 then c.(tsProbe := 0, probeWait := 0)
    else if c.probeWait == 0 then c.(probeWait := PROBE_INIT, tsProbe := (now + PROBE_INIT) % U32)
    else if Signed32(now - c.tsProbe) >= 0 then
      var base := if c.probeWait < PROBE_INIT then PROBE_INIT else c.probeWait;
      var longer := base + base / 2;
      var wait := if longer > PROBE_LIMIT then PROBE_LIMIT else longer;
      c.(probeWait := wait, tsProbe := (now + wait) % U32, askSend := true)
    else c
  }

  function ProbePacket(e: Endpoint, cmd: nat, u: Unset): Packet {
    Packet(e.conv, cmd, 0, u.wnd, u.ts, u.sn, u.una, [])
  }

  function ProbePackets(e: Endpoint, c: Ctl, u: Probes): seq<Packet> {
    (if c.askSend then [ProbePacket(e, CMD_WASK, u.ask)] else []) + (if c.askTell then [ProbePacket(e, CMD_WINS, u.tell)] else [])
  }

  function SortSendQueue(s: Snd, cwnd: nat): Snd
    decreases |s.queue|
  {
    if s.queue == [] || s.nxt >= WindowEnd(s.una, cwnd) then s
    else SortSendQueue(s.(queue := s.queue[1..], buf := s.buf + [Seg(s.nxt, s.queue[0], 0, 0, 0, 0, 0)], nxt := s.nxt + 1), cwnd)
  }

  function SendWindow(e: Endpoint): nat {
    KcpCongestion.Max(1, SendLimit(e.ctl.cw, e.cfg.sndWnd, e.ctl.rmtWnd, e.cfg.nocwnd))
  }

  datatype Turn = Quiet | FirstSend | Timeout | FastResend

  /** Why sendSendQueue transmits a segment, if it does. */
  function TurnOf(seg: Seg, cfg: Config, now: nat): Turn {
    if seg.xmit == 0 then FirstSend
    else if now >= seg.resendts then Timeout
    else if seg.fastack >= Resent(cfg.fastresend) && (seg.xmit <= cfg.fastlimit || cfg.fastlimit <= 0) then FastResend
    else Quiet
  }

  // The source writes `_delay_mode == DELAY_MODE_NORMAL == 0`, which is "not normal": normal mode
  // adds half of the estimate, the other modes at least double the segment's timeout.
  function Transmit(seg: Seg, cfg: Config, rto: int, now: nat): Seg {
    match TurnOf(seg, cfg, now)
    case Quiet => seg
    case FirstSend =>
      var rtomin := if cfg.mode == Normal then rto / 8 else 0;
      seg.(xmit := 1, rto := rto % U32, resendts := (now + rto + rtomin) % U32, ts := now)
    case Timeout =>
      var longer := if cfg.mode != Normal then seg.rto + KcpCongestion.Max(seg.rto, rto % U32) else seg.rto + rto / 2;
      seg.(xmit := seg.xmit + 1, rto := longer % U32, resendts := (now + seg.rto) % U32, ts := now)
    case FastResend =>
      seg.(xmit := seg.xmit + 1, fastack := 0, resendts := (now + seg.rto) % U32, ts := now)
  }

  function PushPacket(e: Endpoint, seg: Seg): Packet {
    Packet(e.conv, CMD_PUSH, seg.frag.frg, AdvertisedWnd(e), seg.ts, seg.sn, e.rcv.nxt, seg.frag.data)
  }

  function TransmitAll(buf: seq<Seg>, cfg: Config, rto: int, now: nat): (r: seq<Seg>)
    ensures |r| == |buf|
  {
    if buf == [] then [] else [Transmit(buf[0], cfg, rto, now)] + TransmitAll(buf[1..], cfg, rto, now)
  }

  /** The data packets a flush emits, in order. */
  function PushPackets(e: Endpoint, buf: seq<Seg>, now: nat): seq<Packet> {
    if buf == [] then [] else
      (if TurnOf(buf[0], e.cfg, now) == Quiet then [] else [PushPacket(e, Transmit(buf[0], e.cfg, e.ctl.rtt.rto, now))])
      + PushPackets(e, buf[1..], now)
  }

  function AnyTurn(buf: seq<Seg>, cfg: Config, now: nat, t: Turn): bool {
    exists i :: 0 <= i < |buf| && TurnOf(buf[i], cfg, now) == t
  }

  /** sendSendQueue without the packing. */
  function SendSendQueue(e: Endpoint, now: nat): Endpoint
    requires UsableConfig(e.cfg)
  {
    var s := SortSendQueue(e.snd, SendWindow(e));
    var limit := SendLimit(e.ctl.cw, e.cfg.sndWnd, e.ctl.rmtWnd, e.cfg.nocwnd);
    var change, lost := AnyTurn(s.buf, e.cfg, now, FastResend), AnyTurn(s.buf, e.cfg, now, Timeout);
    var inflight := if s.nxt >= s.una then s.nxt - s.una else 0;
    e.(snd := s.(buf := TransmitAll(s.buf, e.cfg, e.ctl.rtt.rto, now)),
       ctl := e.ctl.(cw := Decrease(e.ctl.cw, change, lost, limit, inflight, e.cfg.fastresend, Mss(e.cfg))))
  }

  /** Every packet one update emits: acknowledgements, probes, then data. */
  function UpdatePackets(e: Endpoint, now: nat, u: Probes): seq<Packet> {
    AckPackets(e, e.rcv.acks)
    + ProbePackets(e, ProbeTimer(e.ctl, u.clock), u)
    + PushPackets(e, SortSendQueue(e.snd, SendWindow(e)).buf, now)
  }

  /** What update needs: no packet overruns the pool. */
  ghost predicate UpdateIsSafe(e: Endpoint, now: nat, u: Probes) {
    NeverOverruns(Pool([], e.written), e.cfg.mtu, UpdatePackets(e, now, u))
  }

  /** KcpTransport::update, the timer's turn. */
  function Update(e: Endpoint, now: nat, u: Probes): Endpoint
    requires UsableConfig(e.cfg)
  {
    var probed := e.(rcv := e.rcv.(acks := []), ctl := ProbeTimer(e.ctl, u.clock).(askSend := false, askTell := false));
    var pool := FlushPool(SendPackets(Pool([], e.written), e.cfg.mtu, UpdatePackets(e, now, u)));
    SendSendQueue(probed, now).(written := pool.written)
  }
}
