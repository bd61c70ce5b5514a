/** The relation between a sending half and the receiving half at the other end, and what
    every operation of either end keeps of it. */
module KcpLink {
  import opened LittleEndian
  import opened KcpState
  import opened KcpStream
  import opened KcpSegments
  import opened KcpWire

  /** The fragments that have a sequence number: fragment sn is Sent(...)[sn]. */
  function Sent(s: Snd, mss: nat): seq<Frag>
    requires mss > 0
  {
    var stream := Stream(s.accepted, mss);
    if s.nxt <= |stream| then stream[..s.nxt] else stream
  }

  /** The send buffer is ordered within [una, nxt), una is its first segment, and the queue is
      the part of the accepted stream that has no number yet. */
  ghost predicate SndOk(s: Snd, cfg: Config)
    requires ValidConfig(cfg)
  {
    var stream := Stream(s.accepted, Mss(cfg));
    && KcpStream.Sendable(s.accepted, Mss(cfg))
    && s.nxt < U32 && s.nxt <= |stream| && s.queue == stream[s.nxt..]
    && Ordered(Keys(s.buf), s.una, s.nxt, Sent(s, Mss(cfg)))
    && s.una == FirstUnacked(s.buf, s.nxt)
    && s.una <= s.nxt <= s.una + cfg.sndWnd
  }

  ghost predicate Received(r: Rcv, sn: nat) { sn < r.nxt || Has(r.buf, sn) }

  /** The messages delivered are the first ones accepted, and the queue continues their stream. */
  ghost predicate InOrder(accepted: seq<seq<byte>>, r: Rcv, mss: nat)
    requires mss > 0
  {
    var k := |r.delivered|;
    && k <= |accepted|
    && (forall i :: 0 <= i < k ==> Matches(r.delivered[i], accepted[i], mss))
    && r.nxt == |Stream(accepted[..k], mss)| + |r.queue|
    && r.queue <= Stream(accepted[k..], mss)
  }

  /** Every numbered segment is in the send buffer or has been received. */
  ghost predicate NeverForgets(s: Snd, r: Rcv) {
    forall sn: nat :: sn < s.nxt ==> Has(Keys(s.buf), sn) || Received(r, sn)
  }

  ghost predicate AcksReceived(r: Rcv) { forall a | a in r.acks :: Received(r, a.sn) }

  /** While a datagram is being read. */
  ghost predicate Arriving(s: Snd, r: Rcv, mss: nat, rcvWnd: nat)
    requires mss > 0
  {
    && r.nxt <= s.nxt
    && Ordered(r.buf, r.nxt, r.nxt + rcvWnd, Sent(s, mss))
    && NeverForgets(s, r) && AcksReceived(r)
    && InOrder(s.accepted, r, mss)
  }

  /** Between operations: the receive buffer starts past rcv_nxt, and no complete message waits. */
  ghost predicate Linked(s: Snd, r: Rcv, mss: nat, rcvWnd: nat)
    requires mss > 0
  {
    && Arriving(s, r, mss, rcvWnd)
    && (r.buf != [] ==> r.nxt < r.buf[0].sn)
    && |r.queue| < WND_RCV && PeekSize(r.queue) == 0
  }

  // ---- The sender drops acknowledged segments ----

  lemma SentIgnoresBuffer(s: Snd, s': Snd, mss: nat)
    requires mss > 0 && s'.accepted == s.accepted && s'.nxt == s.nxt
    ensures Sent(s', mss) == Sent(s, mss)
  {
  }

  lemma DropByUnaOk(s: Snd, r: Rcv, una: nat, cfg: Config, rcvWnd: nat)
    requires ValidConfig(cfg) && SndOk(s, cfg) && Arriving(s, r, Mss(cfg), rcvWnd)
    requires una <= r.nxt
    ensures var s' := DropByUna(s, una);
            SndOk(s', cfg) && Arriving(s', r, Mss(cfg), rcvWnd) && s.una <= s'.una
  {
    hide Ordered, Has, InOrder, Stream, KcpStream.Sendable;
    if una > s.una {
      DropBelowKeeps(s.buf, una, s.una, s.nxt, Sent(s, Mss(cfg)));
      SentIgnoresBuffer(s, DropByUna(s, una), Mss(cfg));
    }
  }

  lemma DropByAckOk(s: Snd, r: Rcv, sn: nat, cfg: Config, rcvWnd: nat)
    requires ValidConfig(cfg) && SndOk(s, cfg) && Arriving(s, r, Mss(cfg), rcvWnd)
    requires Received(r, sn)
    ensures var s' := DropByAck(s, sn);
            SndOk(s', cfg) && Arriving(s', r, Mss(cfg), rcvWnd) && s.una <= s'.una
  {
    hide Ordered, Has, InOrder, Stream, KcpStream.Sendable, EraseSn, Keys, Sent, FirstUnacked;
    if sn >= s.una {
      var stream, buf := Sent(s, Mss(cfg)), EraseSn(s.buf, sn);
      EraseSnKeeps(s.buf, sn, s.una, s.nxt, stream);
      TightenLow(buf, s.una, s.nxt, stream);
      SmallerBufferOk(s, buf, r, cfg, rcvWnd);
    }
  }

  /** A send buffer that lacks only what was received. */
  lemma SmallerBufferOk(s: Snd, buf: seq<Seg>, r: Rcv, cfg: Config, rcvWnd: nat)
    requires ValidConfig(cfg) && SndOk(s, cfg) && Arriving(s, r, Mss(cfg), rcvWnd)
    requires Ordered(Keys(buf), FirstUnacked(buf, s.nxt), s.nxt, Sent(s, Mss(cfg))) && s.una <= FirstUnacked(buf, s.nxt) <= s.nxt
    requires forall sn :: Has(Keys(s.buf), sn) ==> Has(Keys(buf), sn) || Received(r, sn)
    ensures var s' := s.(buf := buf, una := FirstUnacked(buf, s.nxt)); SndOk(s', cfg) && Arriving(s', r, Mss(cfg), rcvWnd)
  {
    hide Ordered, Has, InOrder, Stream, KcpStream.Sendable, Keys, Sent, FirstUnacked, Received;
    SentIgnoresBuffer(s, s.(buf := buf, una := FirstUnacked(buf, s.nxt)), Mss(cfg));
  }

  lemma TightenLow(buf: seq<Seg>, lo: nat, hi: nat, stream: seq<Frag>)
    requires Ordered(Keys(buf), lo, hi, stream) && lo <= hi
    ensures Ordered(Keys(buf), FirstUnacked(buf, hi), hi, stream) && lo <= FirstUnacked(buf, hi) <= hi
  {
  }

  lemma KeysFirst(buf: seq<Seg>)
    ensures Keys(buf) == [] <==> buf == []
    ensures buf != [] ==> Keys(buf)[0].sn == buf[0].sn
  {
  }

  /** Changes to retransmission bookkeeping alone keep everything. */
  lemma SameKeysOk(s: Snd, s': Snd, r: Rcv, cfg: Config, rcvWnd: nat)
    requires ValidConfig(cfg) && SndOk(s, cfg) && Arriving(s, r, Mss(cfg), rcvWnd)
    requires s' == s.(buf := s'.buf) && Keys(s'.buf) == Keys(s.buf)
    ensures SndOk(s', cfg) && Arriving(s', r, Mss(cfg), rcvWnd)
  {
    hide Ordered, Has, InOrder, Stream, KcpStream.Sendable;
    SentIgnoresBuffer(s, s', Mss(cfg));
    KeysFirst(s.buf);
    KeysFirst(s'.buf);
  }

  // ---- The sender takes messages and numbers fragments ----

  lemma SendOk(s: Snd, r: Rcv, msg: seq<byte>, cfg: Config, rcvWnd: nat)
    requires ValidConfig(cfg) && SndOk(s, cfg) && Linked(s, r, Mss(cfg), rcvWnd)
    requires 0 < |msg| < Mss(cfg) * WND_RCV
    ensures var s' := s.(accepted := s.accepted + [msg], queue := s.queue + Fragments(msg, Mss(cfg)));
            SndOk(s', cfg) && Linked(s', r, Mss(cfg), rcvWnd) && Sent(s', Mss(cfg)) == Sent(s, Mss(cfg))
  {
    hide SndOk, Ordered, InOrder, Stream, Fragments, Sent, Has, Keys, Received, PeekSize;
    SndOkOfMore(s, msg, cfg);
    InOrderOfMore(s.accepted, r, msg, Mss(cfg));
  }

  lemma SndOkOfMore(s: Snd, msg: seq<byte>, cfg: Config)
    requires ValidConfig(cfg) && SndOk(s, cfg) && 0 < |msg| < Mss(cfg) * WND_RCV
    ensures var s' := s.(accepted := s.accepted + [msg], queue := s.queue + Fragments(msg, Mss(cfg)));
            SndOk(s', cfg) && Sent(s', Mss(cfg)) == Sent(s, Mss(cfg))
  {
    hide Ordered, Stream, Fragments, Keys, Sent, KcpStream.Sendable;
    var mss := Mss(cfg);
    var s' := s.(accepted := s.accepted + [msg], queue := s.queue + Fragments(msg, mss));
    StreamOfMore(s.accepted, msg, mss);
    SameSent(s, s', mss);
    DropAppend(Stream(s.accepted, mss), Fragments(msg, mss), s.nxt);
    SendableMore(s.accepted, msg, mss);
  }

  lemma DropAppend<T>(a: seq<T>, b: seq<T>, n: nat)
    requires n <= |a|
    ensures (a + b)[n..] == a[n..] + b
  {
  }

  lemma SendableMore(msgs: seq<seq<byte>>, msg: seq<byte>, mss: nat)
    requires KcpStream.Sendable(msgs, mss) && 0 < |msg| < mss * WND_RCV
    ensures KcpStream.Sendable(msgs + [msg], mss)
  {
  }

  lemma StreamOfMore(msgs: seq<seq<byte>>, msg: seq<byte>, mss: nat)
    requires mss > 0
    ensures Stream(msgs + [msg], mss) == Stream(msgs, mss) + Fragments(msg, mss)
  {
    StreamAppend(msgs, [msg], mss);
    assert Stream([msg], mss) == Fragments(msg, mss) + Stream([], mss);
  }

  lemma SameSent(s: Snd, s': Snd, mss: nat)
    requires mss > 0 && s'.nxt == s.nxt <= |Stream(s.accepted, mss)|
    requires Stream(s.accepted, mss) <= Stream(s'.accepted, mss)
    ensures Sent(s', mss) == Sent(s, mss)
  {
  }

  lemma InOrderOfMore(accepted: seq<seq<byte>>, r: Rcv, msg: seq<byte>, mss: nat)
    requires mss > 0 && InOrder(accepted, r, mss)
    ensures InOrder(accepted + [msg], r, mss)
  {
    var k := |r.delivered|;
    StreamOfMore(accepted[k..], msg, mss);
    hide Stream, Fragments, Matches;
    assert (accepted + [msg])[k..] == accepted[k..] + [msg];
    assert (accepted + [msg])[..k] == accepted[..k];
    forall i | 0 <= i < k ensures Matches(r.delivered[i], (accepted + [msg])[i], mss) {
      assert Matches(r.delivered[i], accepted[i], mss);
    }
  }

  lemma {:induction false} SortSendQueueOk(s: Snd, r: Rcv, cwnd: nat, cfg: Config, rcvWnd: nat)
    requires ValidConfig(cfg) && SndOk(s, cfg) && Linked(s, r, Mss(cfg), rcvWnd) && cwnd <= cfg.sndWnd
    ensures var s' := SortSendQueue(s, cwnd);
            && SndOk(s', cfg) && Linked(s', r, Mss(cfg), rcvWnd)
            && s'.accepted == s.accepted && s.una == s'.una && s.nxt <= s'.nxt
            && Sent(s, Mss(cfg)) <= Sent(s', Mss(cfg))
            && (s.queue == [] || s.nxt < WindowEnd(s.una, cwnd) ==> s'.queue == [] || s'.nxt == WindowEnd(s.una, cwnd))
    decreases |s.queue|
  {
    hide SndOk, Linked, Sent, WindowEnd;
    if s.queue != [] && s.nxt < WindowEnd(s.una, cwnd) {
      NumberOneOk(s, r, cfg, rcvWnd);
      SortSendQueueOk(NumberOne(s), r, cwnd, cfg, rcvWnd);
    }
  }

  /** One turn of the loop of sortSendQueue. */
  function NumberOne(s: Snd): Snd
    requires s.queue != []
  {
    s.(queue := s.queue[1..], buf := s.buf + [Seg(s.nxt, s.queue[0], 0, 0, 0, 0, 0)], nxt := s.nxt + 1)
  }

  lemma NumberOneOk(s: Snd, r: Rcv, cfg: Config, rcvWnd: nat)
    requires ValidConfig(cfg) && SndOk(s, cfg) && Linked(s, r, Mss(cfg), rcvWnd)
    requires s.queue != [] && s.nxt < s.una + cfg.sndWnd && s.nxt + 1 < U32
    ensures var s' := NumberOne(s);
            SndOk(s', cfg) && Linked(s', r, Mss(cfg), rcvWnd) && Sent(s, Mss(cfg)) <= Sent(s', Mss(cfg))
  {
    hide Ordered, Received, InOrder, Keys, KcpStream.Sendable, Stream, Sent, Has;
    var mss := Mss(cfg);
    var seg := Seg(s.nxt, s.queue[0], 0, 0, 0, 0, 0);
    var s' := NumberOne(s);
    var stream, stream' := Sent(s, mss), Sent(s', mss);
    SentGrowsByOne(s, s', mss);
    KeysAppend(s.buf, seg);
    OrderedWeakens(Keys(s.buf), s.una, s.nxt, stream, s.una, s.nxt, stream');
    OrderedAppend(Keys(s.buf), s.una, s.nxt, stream', Key(seg));
    OrderedWeakens(r.buf, r.nxt, r.nxt + rcvWnd, stream, r.nxt, r.nxt + rcvWnd, stream');
  }

  lemma SentGrowsByOne(s: Snd, s': Snd, mss: nat)
    requires mss > 0 && s.nxt < |Stream(s.accepted, mss)| && s.queue == Stream(s.accepted, mss)[s.nxt..] && s.queue != []
    requires s'.accepted == s.accepted && s'.nxt == s.nxt + 1
    ensures Sent(s, mss) <= Sent(s', mss) && s.nxt < |Sent(s', mss)| && Sent(s', mss)[s.nxt] == s.queue[0]
    ensures s.queue[1..] == Stream(s'.accepted, mss)[s'.nxt..] && s'.nxt <= |Stream(s'.accepted, mss)|
  {
    hide Stream;
  }

  // ---- The receiver ----

  lemma HandlePushOk(s: Snd, r: Rcv, p: Packet, mss: nat, rcvWnd: nat)
    requires mss > 0 && Arriving(s, r, mss, rcvWnd)
    requires p.sn < |Sent(s, mss)| && Frag(p.frg, p.payload) == Sent(s, mss)[p.sn]
    ensures var r' := HandlePush(r, p, rcvWnd);
            && Arriving(s, r', mss, rcvWnd)
            && (forall sn :: Received(r, sn) ==> Received(r', sn))
            && (p.sn < WindowEnd(r.nxt, rcvWnd) ==> Received(r', p.sn))
  {
    hide Ordered, Has, Stream, Matches, Sent, InsertSorted, WindowEnd;
    if p.sn < WindowEnd(r.nxt, rcvWnd) {
      var k := RSeg(p.sn, Frag(p.frg, p.payload));
      if r.nxt <= p.sn {
        InsertSortedKeeps(r.buf, k, r.nxt, r.nxt + rcvWnd, Sent(s, mss));
      }
      TakenOk(s, r, HandlePush(r, p, rcvWnd), Ack(p.sn, p.ts), mss, rcvWnd);
    }
  }

  /** The receiver buffers a segment and owes its acknowledgement. */
  lemma TakenOk(s: Snd, r: Rcv, r': Rcv, a: Ack, mss: nat, rcvWnd: nat)
    requires mss > 0 && Arriving(s, r, mss, rcvWnd) && r' == r.(buf := r'.buf, acks := r.acks + [a])
    requires Ordered(r'.buf, r.nxt, r.nxt + rcvWnd, Sent(s, mss))
    requires (forall sn :: Has(r.buf, sn) ==> Has(r'.buf, sn)) && (a.sn < r.nxt || Has(r'.buf, a.sn))
    ensures Arriving(s, r', mss, rcvWnd) && Received(r', a.sn) && forall sn :: Received(r, sn) ==> Received(r', sn)
  {
    hide Ordered, Has, Stream, Matches, Sent;
  }

  /** The next segment is taken if and only if the end of the window fits 32 bits: past that point the
      receiver drops every new segment without acknowledging it. */
  lemma NextIsTakenIff(r: Rcv, p: Packet, rcvWnd: nat)
    requires p.sn == r.nxt < U32 && 0 < rcvWnd < U16 && !Has(r.buf, r.nxt)
    ensures Received(HandlePush(r, p, rcvWnd), p.sn) <==> r.nxt + rcvWnd < U32
    ensures U32 <= r.nxt + rcvWnd ==> HandlePush(r, p, rcvWnd) == r
  {
    InsertedIsThere(r.buf, RSeg(p.sn, Frag(p.frg, p.payload)));
  }

  lemma {:induction false} InsertedIsThere(ks: seq<RSeg>, k: RSeg)
    ensures Has(InsertSorted(ks, k), k.sn)
  {
    if ks != [] {
      InsertedIsThere(ks[1..], k);
      assert ([k] + ks)[0] == k && ([ks[0]] + InsertSorted(ks[1..], k))[1..] == InsertSorted(ks[1..], k);
    }
  }

  /** With nothing in flight a waiting fragment is numbered if and only if the end of the send window
      fits 32 bits. */
  lemma {:induction false} NumbersIff(s: Snd, cwnd: nat)
    requires s.queue != [] && s.una == s.nxt < U32 && 0 < cwnd < U32
    ensures SortSendQueue(s, cwnd).nxt > s.nxt <==> s.una + cwnd < U32
  {
    if s.una + cwnd < U32 {
      NumberingGrows(NumberOne(s), cwnd);
    }
  }

  /** A hundred short of 2^32, with windows of 128, both ends stand still: a waiting fragment gets no
      number, and the segment that is waited for is dropped without an acknowledgement. */
  lemma EndsStandStill(s: Snd, r: Rcv, p: Packet)
    requires s.una == s.nxt == r.nxt == p.sn == U32 - 100
    ensures SortSendQueue(s, 128) == s && HandlePush(r, p, 128) == r
  {
    assert WindowEnd(U32 - 100, 128) == 28;
  }

  lemma {:induction false} NumberingGrows(s: Snd, cwnd: nat)
    ensures SortSendQueue(s, cwnd).nxt >= s.nxt
    decreases |s.queue|
  {
    hide WindowEnd;
    if s.queue != [] && s.nxt < WindowEnd(s.una, cwnd) {
      NumberingGrows(NumberOne(s), cwnd);
    }
  }

  lemma {:induction false} SortRecvBufOk(s: Snd, r: Rcv, cfg: Config, hi: nat)
    requires ValidConfig(cfg) && SndOk(s, cfg)
    requires r.nxt <= s.nxt && Ordered(r.buf, r.nxt, hi, Sent(s, Mss(cfg))) && InOrder(s.accepted, r, Mss(cfg))
    ensures var r' := SortRecvBuf(r);
            && r.nxt <= r'.nxt <= s.nxt && r'.acks == r.acks && r'.delivered == r.delivered
            && Ordered(r'.buf, r'.nxt, hi, Sent(s, Mss(cfg)))
            && (r'.buf != [] ==> r'.nxt < r'.buf[0].sn)
            && (forall sn :: Received(r, sn) <==> Received(r', sn))
            && InOrder(s.accepted, r', Mss(cfg))
    decreases |r.buf|
  {
    if r.buf != [] && r.buf[0].sn == r.nxt {
      var next := r.(buf := r.buf[1..], queue := r.queue + [r.buf[0].frag], nxt := r.nxt + 1);
      NextInOrder(s, r, cfg);
      assert forall sn :: Received(r, sn) <==> Received(next, sn);
      hide InOrder, SndOk, Sent;
      SortRecvBufOk(s, next, cfg, hi);
    }
  }

  lemma NextInOrder(s: Snd, r: Rcv, cfg: Config)
    requires ValidConfig(cfg) && SndOk(s, cfg) && InOrder(s.accepted, r, Mss(cfg))
    requires r.nxt < |Sent(s, Mss(cfg))| && r.buf != [] && r.buf[0].frag == Sent(s, Mss(cfg))[r.nxt]
    ensures InOrder(s.accepted, r.(buf := r.buf[1..], queue := r.queue + [r.buf[0].frag], nxt := r.nxt + 1), Mss(cfg))
  {
    hide Stream, Matches, Ordered, Keys;
    var k, mss := |r.delivered|, Mss(cfg);
    StreamAppend(s.accepted[..k], s.accepted[k..], mss);
    assert s.accepted[..k] + s.accepted[k..] == s.accepted;
    NextOfStream(Stream(s.accepted[..k], mss), Stream(s.accepted[k..], mss), s.nxt, r.queue, r.nxt);
  }

  lemma NextOfStream<T>(a: seq<T>, b: seq<T>, n: nat, q: seq<T>, i: nat)
    requires n <= |a + b| && i == |a| + |q| < n && q <= b
    ensures q + [(a + b)[..n][i]] <= b
  {
    assert (a + b)[..n][i] == b[|q|];
  }

  /** Delivering the complete messages of the queue: never dry, in order, less than one left. */
  lemma DrainQueueOk(s: Snd, r: Rcv, cfg: Config)
    requires ValidConfig(cfg) && SndOk(s, cfg) && InOrder(s.accepted, r, Mss(cfg))
    ensures NeverRunsDry(r.queue)
    ensures var r' := DrainQueue(r);
            InOrder(s.accepted, r', Mss(cfg)) && |r'.queue| < WND_RCV && PeekSize(r'.queue) == 0 && r.delivered <= r'.delivered
  {
    var k, mss := |r.delivered|, Mss(cfg);
    DrainPrefix(s.accepted[k..], mss, r.queue);
    var (ds, queue) := Drain(r.queue);
    hide Stream, Matches, Ordered, Drain, NeverRunsDry, PeekSize, Drained;
    DrainedInOrder(s.accepted, r, ds, queue, mss);
  }

  lemma DrainedInOrder(accepted: seq<seq<byte>>, r: Rcv, ds: seq<Delivered>, queue: seq<Frag>, mss: nat)
    requires mss > 0 && InOrder(accepted, r, mss)
    requires Drained(accepted[|r.delivered|..], mss, r.queue, ds, queue)
    ensures InOrder(accepted, r.(queue := queue, delivered := r.delivered + ds), mss) && |queue| < WND_RCV && PeekSize(queue) == 0
  {
    hide Stream, Matches, PeekSize;
    var k := |r.delivered|;
    var k' := k + |ds|;
    SplitAccepted(accepted, k, |ds|);
    StreamAppend(accepted[..k], accepted[k..k'], mss);
    var all := r.delivered + ds;
    forall i | 0 <= i < |all| ensures Matches(all[i], accepted[i], mss) {
      if i >= k {
        assert Matches(ds[i - k], accepted[k..][i - k], mss);
      }
    }
  }

  lemma SplitAccepted<T>(s: seq<T>, k: nat, n: nat)
    requires k + n <= |s|
    ensures s[k..][..n] == s[k..k + n] && s[k..][n..] == s[k + n..] && s[..k + n] == s[..k] + s[k..k + n]
  {
  }

  /** onData turns the arriving state back into the resting one. */
  lemma OnDataOk(s: Snd, r: Rcv, cfg: Config, rcvWnd: nat)
    requires ValidConfig(cfg) && SndOk(s, cfg) && Arriving(s, r, Mss(cfg), rcvWnd)
    ensures NeverRunsDry(SortRecvBuf(r).queue)
    ensures var r' := DrainQueue(SortRecvBuf(r));
            && Linked(s, r', Mss(cfg), rcvWnd)
            && r.nxt <= r'.nxt
            && (forall sn :: Received(r, sn) <==> Received(r', sn))
            && r.delivered <= r'.delivered
  {
    hide Ordered, InOrder, Received, SortRecvBuf, DrainQueue, SndOk, NeverRunsDry, Sent, Stream;
    var sorted := SortRecvBuf(r);
    SortRecvBufOk(s, r, cfg, r.nxt + rcvWnd);
    DrainQueueOk(s, sorted, cfg);
    DrainQueueFrame(sorted);
    OrderedWeakens(sorted.buf, sorted.nxt, r.nxt + rcvWnd, Sent(s, Mss(cfg)), sorted.nxt, sorted.nxt + rcvWnd, Sent(s, Mss(cfg)));
    StillReceived(s, r, DrainQueue(sorted));
  }

  lemma DrainQueueFrame(r: Rcv)
    ensures var r' := DrainQueue(r);
            r'.nxt == r.nxt && r'.buf == r.buf && r'.acks == r.acks && forall sn :: Received(r', sn) <==> Received(r, sn)
  {
    hide Drain, Has;
  }

  lemma StillReceived(s: Snd, r: Rcv, r': Rcv)
    requires NeverForgets(s, r) && AcksReceived(r) && r'.acks == r.acks
    requires forall sn :: Received(r, sn) ==> Received(r', sn)
    ensures NeverForgets(s, r') && AcksReceived(r')
  {
    hide Received, Has;
  }

  lemma AcksSentOk(s: Snd, r: Rcv, mss: nat, rcvWnd: nat)
    requires mss > 0 && Linked(s, r, mss, rcvWnd)
    ensures Linked(s, r.(acks := []), mss, rcvWnd)
  {
    hide Ordered, Has, Stream, Matches, Sent;
    var r' := r.(acks := []);
    assert forall sn :: Received(r, sn) ==> Received(r', sn);
    assert InOrder(s.accepted, r', mss);
  }
}
