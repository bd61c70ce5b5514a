/** The KCP header, its byte layout, and the packing of packets into datagrams. */
module KcpWire {
  import opened LittleEndian

  const HEADER_SIZE: nat := 24

  const CMD_PUSH: nat := 81
  const CMD_ACK: nat := 82
  const CMD_WASK: nat := 83
  const CMD_WINS: nat := 84

  /** A KCP packet; the header's length field is |payload|. */
  datatype Packet = Packet(conv: nat, cmd: nat, frg: nat, wnd: nat, ts: nat, sn: nat, una: nat, payload: seq<byte>)

  /** Every field fits the width the header gives it. */
  predicate InRange(p: Packet) {
    && p.conv < U32 && p.cmd < U8 && p.frg < U8 && p.wnd < U16
    && p.ts < U32 && p.sn < U32 && p.una < U32 && HEADER_SIZE + |p.payload| < U32
  }

  function PacketSize(p: Packet): nat { HEADER_SIZE + |p.payload| }

  // The first, second and third eight bytes of the header.
  function EncodeIds(p: Packet): (s: seq<byte>)
    ensures |s| == 8
  {
    Le4(p.conv) + [p.cmd % U8, p.frg % U8] + Le2(p.wnd)
  }

  function EncodePair(x: nat, y: nat): (s: seq<byte>)
    ensures |s| == 8
  {
    Le4(x) + Le4(y)
  }

  function EncodeHeader(p: Packet): (s: seq<byte>)
    ensures |s| == HEADER_SIZE
  {
    EncodeIds(p) + EncodePair(p.ts, p.sn) + EncodePair(p.una, |p.payload|)
  }

  function Encode(p: Packet): (s: seq<byte>)
    ensures |s| == PacketSize(p)
  {
    EncodeHeader(p) + p.payload
  }

  datatype Parsed = Failed | Ok(packet: Packet)

  function HeaderAt(data: seq<byte>, payload: seq<byte>): Packet
    requires |data| >= HEADER_SIZE
  {
    Packet(Get4(data, 0), data[4], data[5], Get2(data, 6), Get4(data, 8), Get4(data, 12), Get4(data, 16), payload)
  }

  /** KcpPacket::parse: the header, then a payload of the announced length. */
  function Parse(data: seq<byte>): (r: Parsed)
    ensures r.Ok? ==> InRange(r.packet) && PacketSize(r.packet) <= |data| && Encode(r.packet) == data[..PacketSize(r.packet)]
  {
    if |data| < HEADER_SIZE then Failed else
      var len := Get4(data, 20);
      if |data| < HEADER_SIZE + len || U32 <= HEADER_SIZE + len then Failed else
        ParseIsExact(data);
        Ok(HeaderAt(data, data[HEADER_SIZE..HEADER_SIZE + len]))
  }

  lemma ParseIsExact(data: seq<byte>)
    requires |data| >= HEADER_SIZE && HEADER_SIZE + Get4(data, 20) <= |data|
    ensures var len := Get4(data, 20);
            Encode(HeaderAt(data, data[HEADER_SIZE..HEADER_SIZE + len])) == data[..HEADER_SIZE + len]
  {
    var len := Get4(data, 20);
    var p := HeaderAt(data, data[HEADER_SIZE..HEADER_SIZE + len]);
    assert EncodeIds(p) == data[0..8] by {
      LeOfGet4(data, 0);
      LeOfGet2(data, 6);
    }
    assert EncodePair(p.ts, p.sn) == data[8..16] by {
      LeOfGet4(data, 8);
      LeOfGet4(data, 12);
    }
    assert EncodePair(p.una, |p.payload|) == data[16..24] by {
      LeOfGet4(data, 16);
      LeOfGet4(data, 20);
    }
    assert data[..HEADER_SIZE + len] == data[0..8] + data[8..16] + data[16..24] + p.payload;
  }

  /** Reading four bytes depends on those four bytes only. */
  lemma Get4At(d: seq<byte>, i: nat, v: nat)
    requires i + 4 <= |d| && d[i..i + 4] == Le4(v)
    ensures Get4(d, i) == v % U32
  {
    GetOfLe4(v);
    var w := Le4(v);
    assert d[i] == w[0] && d[i + 1] == w[1] && d[i + 2] == w[2] && d[i + 3] == w[3];
  }

  lemma IdsAt(d: seq<byte>, p: Packet)
    requires |d| >= HEADER_SIZE && d[0..8] == EncodeIds(p)
    ensures Get4(d, 0) == p.conv % U32 && d[4] == p.cmd % U8 && d[5] == p.frg % U8 && Get2(d, 6) == p.wnd % U16
  {
    var ids := EncodeIds(p);
    assert forall k | 0 <= k < 8 :: d[k] == d[0..8][k];
    assert d[0..4] == ids[..4] == Le4(p.conv);
    Get4At(d, 0, p.conv);
    GetOfLe2(p.wnd);
    assert ids[6..8] == Le2(p.wnd);
    assert d[6] == Le2(p.wnd)[0] && d[7] == Le2(p.wnd)[1];
  }

  ghost predicate StartsWith(d: seq<byte>, p: Packet) {
    && |d| >= PacketSize(p)
    && d[0..8] == EncodeIds(p) && d[8..16] == EncodePair(p.ts, p.sn) && d[16..24] == EncodePair(p.una, |p.payload|)
    && d[24..24 + |p.payload|] == p.payload
  }

  lemma EncodeSlices(p: Packet, rest: seq<byte>)
    ensures StartsWith(Encode(p) + rest, p) && (Encode(p) + rest)[PacketSize(p)..] == rest
  {
  }

  lemma ParseOfStart(d: seq<byte>, p: Packet)
    requires InRange(p) && StartsWith(d, p)
    ensures Parse(d) == Ok(p)
  {
    hide EncodeIds, EncodePair, Get2, Get4;
    IdsAt(d, p);
    PairAt(d, 8, p.ts, p.sn);
    PairAt(d, 16, p.una, |p.payload|);
    assert HeaderAt(d, p.payload) == p;
  }

  /** Parsing undoes encoding, whatever follows in the datagram. */
  lemma ParseOfEncode(p: Packet, rest: seq<byte>)
    requires InRange(p)
    ensures var d := Encode(p) + rest; Parse(d) == Ok(p) && d[PacketSize(p)..] == rest
  {
    EncodeSlices(p, rest);
    ParseOfStart(Encode(p) + rest, p);
  }

  lemma PairAt(d: seq<byte>, i: nat, x: nat, y: nat)
    requires i + 8 <= |d| && d[i..i + 8] == EncodePair(x, y)
    ensures Get4(d, i) == x % U32 && Get4(d, i + 4) == y % U32
  {
    assert d[i..i + 4] == d[i..i + 8][..4] == Le4(x);
    assert d[i + 4..i + 8] == d[i..i + 8][4..] == Le4(y);
    Get4At(d, i, x);
    Get4At(d, i + 4, y);
  }

  /** The while loop of KcpTransport::input, which stops at the first packet it cannot parse. */
  function ParseAll(data: seq<byte>): seq<Packet> {
    match Parse(data)
    case Failed => []
    case Ok(p) => [p] + ParseAll(data[PacketSize(p)..])
  }

  function EncodeAll(ps: seq<Packet>): seq<byte> {
    if ps == [] then [] else Encode(ps[0]) + EncodeAll(ps[1..])
  }

  ghost predicate AllInRange(ps: seq<Packet>) { forall p | p in ps :: InRange(p) }

  lemma {:induction false} ParseAllOfEncodeAll(ps: seq<Packet>)
    requires AllInRange(ps)
    ensures ParseAll(EncodeAll(ps)) == ps
  {
    if ps != [] {
      ParseOfEncode(ps[0], EncodeAll(ps[1..]));
      assert EncodeAll(ps)[PacketSize(ps[0])..] == EncodeAll(ps[1..]);
      ParseAllOfEncodeAll(ps[1..]);
    }
  }

  lemma {:induction false} EncodeAllAppend(ps: seq<Packet>, p: Packet)
    ensures EncodeAll(ps + [p]) == EncodeAll(ps) + Encode(p)
  {
    if ps == [] {
      assert EncodeAll([p]) == Encode(p) + EncodeAll([]);
    } else {
      assert (ps + [p])[1..] == ps[1..] + [p];
      EncodeAllAppend(ps[1..], p);
    }
  }

  /** _buffer_pool and the datagrams already handed to onWrite. */
  datatype Pool = Pool(buf: seq<byte>, written: seq<seq<byte>>)

  function FlushPool(pool: Pool): Pool { Pool([], pool.written + [pool.buf]) }

  function SendPacket(pool: Pool, mtu: nat, p: Packet): Pool {
    var room := if PacketSize(p) + |pool.buf| > mtu then FlushPool(pool) else pool;
    room.(buf := room.buf + Encode(p))
  }

  function SendPackets(pool: Pool, mtu: nat, ps: seq<Packet>): Pool
    decreases ps
  {
    if ps == [] then pool else SendPackets(SendPacket(pool, mtu, ps[0]), mtu, ps[1..])
  }

  lemma {:induction false} SendPacketsAppend(pool: Pool, mtu: nat, ps: seq<Packet>, qs: seq<Packet>)
    ensures SendPackets(pool, mtu, ps + qs) == SendPackets(SendPackets(pool, mtu, ps), mtu, qs)
    decreases ps
  {
    if ps == [] {
      assert ps + qs == qs;
    } else {
      assert (ps + qs)[1..] == ps[1..] + qs;
      SendPacketsAppend(SendPacket(pool, mtu, ps[0]), mtu, ps[1..], qs);
    }
  }

  // ---- The pool has a fixed capacity ----

  /** The constructor allocates _buffer_pool for the default mtu; setMtu does not allocate it anew. */
  const POOL: nat := 1400

  /** The packet that sendPacket copies into the pool fits there. */
  predicate FitsPool(pool: Pool, mtu: nat, p: Packet) { |SendPacket(pool, mtu, p).buf| <= POOL }

  ghost predicate NeverOverruns(pool: Pool, mtu: nat, ps: seq<Packet>)
    decreases ps
  {
    ps == [] || (FitsPool(pool, mtu, ps[0]) && NeverOverruns(SendPacket(pool, mtu, ps[0]), mtu, ps[1..]))
  }

  lemma {:induction false} PoolSuffices(pool: Pool, mtu: nat, ps: seq<Packet>)
    requires mtu <= POOL && |pool.buf| <= mtu && Sendable(ps, mtu)
    ensures NeverOverruns(pool, mtu, ps)
    decreases ps
  {
    hide Encode, InRange;
    if ps != [] {
      assert ps[0] in ps;
      PoolSuffices(SendPacket(pool, mtu, ps[0]), mtu, ps[1..]);
    }
  }

  /** An empty data packet of n payload bytes. */
  function Blank(n: nat): Packet { Packet(0, 0, 0, 0, 0, 0, 0, seq(n, _ => 0)) }

  lemma BlankOverruns(mtu: nat, n: nat)
    requires POOL < HEADER_SIZE + n <= mtu && HEADER_SIZE + n < U32
    ensures Sendable([Blank(n)], mtu) && !NeverOverruns(Pool([], []), mtu, [Blank(n)])
  {
    assert InRange(Blank(n));
    hide Encode;
    assert !FitsPool(Pool([], []), mtu, Blank(n));
  }

  /** No list of packets that fit the mtu ever overruns the pool if and only if the mtu is at most
      the pool's capacity. */
  lemma PoolSufficesIff(mtu: nat)
    ensures (forall ps | Sendable(ps, mtu) :: NeverOverruns(Pool([], []), mtu, ps)) <==> mtu <= POOL
  {
    hide NeverOverruns, Sendable, Blank;
    if mtu <= POOL {
      forall ps | Sendable(ps, mtu) ensures NeverOverruns(Pool([], []), mtu, ps) {
        PoolSuffices(Pool([], []), mtu, ps);
      }
    } else {
      BlankOverruns(mtu, POOL + 1 - HEADER_SIZE);
    }
  }

  lemma {:induction false} NeverOverrunsAppend(pool: Pool, mtu: nat, ps: seq<Packet>, qs: seq<Packet>)
    ensures NeverOverruns(pool, mtu, ps + qs) <==>
            NeverOverruns(pool, mtu, ps) && NeverOverruns(SendPackets(pool, mtu, ps), mtu, qs)
    decreases ps
  {
    hide FitsPool, SendPacket;
    if ps == [] {
      assert ps + qs == qs;
    } else {
      assert (ps + qs)[1..] == ps[1..] + qs;
      NeverOverrunsAppend(SendPacket(pool, mtu, ps[0]), mtu, ps[1..], qs);
    }
  }

  /** What input reads from a run of datagrams. */
  function ParseDatagrams(ds: seq<seq<byte>>): seq<Packet> {
    if ds == [] then [] else ParseDatagrams(ds[..|ds| - 1]) + ParseAll(ds[|ds| - 1])
  }

  ghost predicate FitsMtu(ds: seq<seq<byte>>, mtu: nat) { forall d | d in ds :: |d| <= mtu }

  ghost predicate Sendable(ps: seq<Packet>, mtu: nat) { forall p | p in ps :: InRange(p) && PacketSize(p) <= mtu }

  // The pool between packets: `pooled` waits in the buffer, `parsed` has been written.
  ghost predicate Packed(pool: Pool, mtu: nat, pooled: seq<Packet>, parsed: seq<Packet>) {
    && AllInRange(pooled) && pool.buf == EncodeAll(pooled) && |pool.buf| <= mtu
    && FitsMtu(pool.written, mtu) && ParseDatagrams(pool.written) == parsed
  }

  lemma FlushStep(pool: Pool, mtu: nat, pooled: seq<Packet>, parsed: seq<Packet>)
    requires Packed(pool, mtu, pooled, parsed)
    ensures Packed(FlushPool(pool), mtu, [], parsed + pooled)
  {
    ParseAllOfEncodeAll(pooled);
    assert FlushPool(pool).written[..|pool.written|] == pool.written;
  }

  lemma NoPackets()
    ensures EncodeAll([]) == []
  {
  }

  lemma SendStep(pool: Pool, mtu: nat, p: Packet, pooled: seq<Packet>, parsed: seq<Packet>) returns (pooled': seq<Packet>, parsed': seq<Packet>)
    requires Packed(pool, mtu, pooled, parsed) && InRange(p) && PacketSize(p) <= mtu
    ensures Packed(SendPacket(pool, mtu, p), mtu, pooled', parsed') && parsed' + pooled' == parsed + pooled + [p]
  {
    hide ParseDatagrams, Encode, InRange, EncodeAll;
    assert EncodeAll([]) == [] by { NoPackets(); }
    if PacketSize(p) + |pool.buf| > mtu {
      FlushStep(pool, mtu, pooled, parsed);
      EncodeAllAppend([], p);
      pooled', parsed' := [p], parsed + pooled;
      assert [] + [p] == [p];
    } else {
      EncodeAllAppend(pooled, p);
      pooled', parsed' := pooled + [p], parsed;
    }
  }

  lemma Regroup<T>(a: seq<T>, b: seq<T>)
    requires b != []
    ensures a + [b[0]] + b[1..] == a + b
  {
  }

  lemma WrittenGrows(pool: Pool, mtu: nat, p: Packet)
    ensures pool.written <= SendPacket(pool, mtu, p).written
  {
  }

  lemma {:induction false} PackingInvariant(pool: Pool, mtu: nat, ps: seq<Packet>, pooled: seq<Packet>, parsed: seq<Packet>) returns (end: Pool)
    requires Packed(pool, mtu, pooled, parsed) && Sendable(ps, mtu)
    ensures end == FlushPool(SendPackets(pool, mtu, ps))
    ensures Packed(end, mtu, [], parsed + pooled + ps)
    ensures pool.written <= end.written
    decreases ps
  {
    hide Packed, SendPacket, AllInRange;
    if ps == [] {
      FlushStep(pool, mtu, pooled, parsed);
      assert parsed + pooled + ps == parsed + pooled;
      end := FlushPool(pool);
    } else {
      var pooled', parsed' := SendStep(pool, mtu, ps[0], pooled, parsed);
      WrittenGrows(pool, mtu, ps[0]);
      end := PackingInvariant(SendPacket(pool, mtu, ps[0]), mtu, ps[1..], pooled', parsed');
      assert parsed' + pooled' + ps[1..] == parsed + pooled + ps by {
        Regroup(parsed + pooled, ps);
      }
    }
  }

  /** The packing round trip: the pool is not overrun, no datagram exceeds the mtu, and the
      receiver's parse loop recovers exactly the packets sent, whole and in order. */
  lemma PackingRoundTrip(mtu: nat, ps: seq<Packet>)
    requires mtu <= POOL && Sendable(ps, mtu)
    ensures NeverOverruns(Pool([], []), mtu, ps)
    ensures var written := FlushPool(SendPackets(Pool([], []), mtu, ps)).written;
            FitsMtu(written, mtu) && ParseDatagrams(written) == ps
  {
    hide SendPackets, FlushPool, ParseDatagrams, NeverOverruns, Sendable;
    PoolSuffices(Pool([], []), mtu, ps);
    assert Packed(Pool([], []), mtu, [], []) by { NothingPacked(mtu); }
    var end := PackingInvariant(Pool([], []), mtu, ps, [], []);
    assert [] + [] + ps == ps;
  }

  lemma PooledFits(pool: Pool, mtu: nat, pooled: seq<Packet>, parsed: seq<Packet>)
    requires Packed(pool, mtu, pooled, parsed)
    ensures |pool.buf| <= mtu && FitsMtu(pool.written, mtu)
  {
  }

  lemma NothingPacked(mtu: nat)
    ensures Packed(Pool([], []), mtu, [], [])
  {
  }

  /** Every packet in a datagram the packing emits is one of the packets sent. */
  lemma PackedPackets(pool: Pool, mtu: nat, ps: seq<Packet>, d: seq<byte>, p: Packet)
    requires mtu <= POOL && pool.buf == [] && FitsMtu(pool.written, mtu)
    requires Sendable(ps, mtu)
    requires d in FlushPool(SendPackets(pool, mtu, ps)).written && p in ParseAll(d)
    ensures d in pool.written || p in ps
  {
    var parsed := ParseDatagrams(pool.written);
    assert Packed(pool, mtu, [], parsed);
    var end := PackedParse(pool, mtu, ps);
    hide *;
    NewPackets(end.written, |pool.written|, ps, d, p);
  }

  lemma PackedParse(pool: Pool, mtu: nat, ps: seq<Packet>) returns (end: Pool)
    requires mtu <= POOL && Packed(pool, mtu, [], ParseDatagrams(pool.written)) && Sendable(ps, mtu)
    ensures NeverOverruns(pool, mtu, ps) && end == FlushPool(SendPackets(pool, mtu, ps))
    ensures |pool.written| <= |end.written| && end.written[..|pool.written|] == pool.written
    ensures FitsMtu(end.written, mtu)
    ensures ParseDatagrams(end.written) == ParseDatagrams(pool.written) + ps
  {
    hide *;
    var parsed := ParseDatagrams(pool.written);
    PooledFits(pool, mtu, [], parsed);
    PoolSuffices(pool, mtu, ps);
    end := PackingInvariant(pool, mtu, ps, [], parsed);
    PooledFits(end, mtu, [], parsed + [] + ps);
    ParsedIs(end, mtu, [], parsed + [] + ps);
    assert parsed + [] + ps == parsed + ps;
  }

  lemma ParsedIs(pool: Pool, mtu: nat, pooled: seq<Packet>, parsed: seq<Packet>)
    requires Packed(pool, mtu, pooled, parsed)
    ensures ParseDatagrams(pool.written) == parsed
  {
  }

  lemma NewPackets(ds: seq<seq<byte>>, k: nat, ps: seq<Packet>, d: seq<byte>, p: Packet)
    requires k <= |ds| && ParseDatagrams(ds) == ParseDatagrams(ds[..k]) + ps
    requires d in ds && p in ParseAll(d)
    ensures d in ds[..k] || p in ps
  {
    hide *;
    var i :| 0 <= i < |ds| && ds[i] == d;
    if i < k {
      assert d == ds[..k][i];
    } else {
      var j := ParsedAfter(ds, k, i, p);
      assert ps[j - |ParseDatagrams(ds[..k])|] == p;
    }
  }

  /** The packets of datagram i come after those of the first k datagrams. */
  lemma {:induction false} ParsedAfter(ds: seq<seq<byte>>, k: nat, i: nat, p: Packet) returns (j: nat)
    requires k <= i < |ds| && p in ParseAll(ds[i])
    ensures |ParseDatagrams(ds[..k])| <= j < |ParseDatagrams(ds)| && ParseDatagrams(ds)[j] == p
    decreases |ds|
  {
    hide ParseAll;
    var init := ds[..|ds| - 1];
    ParseDatagramsPrefix(init, k);
    assert init[..k] == ds[..k];
    if i == |ds| - 1 {
      var m :| 0 <= m < |ParseAll(ds[i])| && ParseAll(ds[i])[m] == p;
      j := |ParseDatagrams(init)| + m;
    } else {
      j := ParsedAfter(init, k, i, p);
    }
  }

  lemma {:induction false} ParseDatagramsPrefix(ds: seq<seq<byte>>, k: nat)
    requires k <= |ds|
    ensures ParseDatagrams(ds[..k]) <= ParseDatagrams(ds)
    decreases |ds|
  {
    if k == |ds| {
      assert ds[..k] == ds;
    } else {
      ParseDatagramsPrefix(ds[..|ds| - 1], k);
      assert ds[..|ds| - 1][..k] == ds[..k];
    }
  }

  /** storeHeaderToData: the header written field by field into a byte array. */
  method StoreHeader(buf: array<byte>, p: Packet) returns (ok: bool)
    modifies buf
    ensures ok <==> HEADER_SIZE <= buf.Length
    ensures buf[..] == if ok then EncodeHeader(p) + old(buf[HEADER_SIZE..]) else old(buf[..])
  {
    if HEADER_SIZE > buf.Length {
      return false;
    }
    StoreIds(buf, p);
    StorePair(buf, 8, p.ts, p.sn);
    StorePair(buf, 16, p.una, |p.payload|);
    hide EncodeIds, EncodePair;
    assert buf[..] == EncodeHeader(p) + old(buf[HEADER_SIZE..]);
    return true;
  }

  method StoreIds(buf: array<byte>, p: Packet)
    requires 8 <= buf.Length
    modifies buf
    ensures buf[..] == EncodeIds(p) + old(buf[8..])
  {
    Set4BytesLE(buf, 0, p.conv);
    Set1Byte(buf, 4, p.cmd);
    Set1Byte(buf, 5, p.frg);
    assert buf[..6] == Le4(p.conv) + [p.cmd % U8, p.frg % U8] && buf[6..] == old(buf[6..]);
    Set2BytesLE(buf, 6, p.wnd);
  }

  method StorePair(buf: array<byte>, i: nat, x: nat, y: nat)
    requires i + 8 <= buf.Length
    modifies buf
    ensures buf[..] == old(buf[..i]) + EncodePair(x, y) + old(buf[i + 8..])
  {
    Set4BytesLE(buf, i, x);
    Set4BytesLE(buf, i + 4, y);
  }
}
