/** A list of packets written to a socket with sendmsg, over a kernel that takes any prefix of what
    it is offered. */
module SendBuffer {
  import opened Sequences
  import opened LittleEndian

  // ---- the kernel ----

  datatype Errno = Interrupted | TryAgain | Broken(code: int)
  datatype Answer = Took(n: nat) | Refused(error: Errno)

  /** How many bytes a script grants at most, and whether it reports no lasting error. */
  function Grants(script: seq<Answer>): nat {
    if script == [] then 0 else (if script[0].Took? then script[0].n else 0) + Grants(script[1..])
  }

  ghost predicate Benign(script: seq<Answer>) { forall a | a in script :: a.Refused? ==> !a.error.Broken? }

  /** What sendmsg makes of m bytes once it is not interrupted: how many are taken or -1, the answers that
      are left, and the error that goes with -1. */
  function Answered(script: seq<Answer>, m: nat): (r: (int, seq<Answer>, Errno))
    ensures -1 <= r.0 <= m && |r.1| <= |script| && (script != [] ==> |r.1| < |script|) && (r.0 != -1 ==> script != [])
  {
    if script == [] then (-1, [], TryAgain)
    else match script[0]
      case Took(k) => (if k <= m then k else m, script[1..], TryAgain)
      case Refused(e) => if e == Interrupted then Answered(script[1..], m) else (-1, script[1..], e)
  }

  /** What is left of m bytes that are offered until they are taken or refused, and of the answers. */
  datatype Played = Played(left: nat, script: seq<Answer>, error: Errno)

  function Play(script: seq<Answer>, m: nat): (r: Played)
    ensures r.left <= m && |r.script| <= |script|
    decreases |script|
  {
    if m == 0 then Played(0, script, TryAgain) else
      var (n, rest, e) := Answered(script, m);
      if n == -1 then Played(m, rest, e) else Play(rest, m - n)
  }

  lemma PlayStep(script: seq<Answer>, m: nat)
    ensures Play(script, 0) == Played(0, script, TryAgain)
    ensures var (n, rest, e) := Answered(script, m);
            m > 0 ==> Play(script, m) == if n == -1 then Played(m, rest, e) else Play(rest, m - n)
  {
    hide Answered;
  }

  /** Without lasting errors, answers that grant m bytes and do not refuse any take them all. */
  lemma {:induction false} GrantedIsTaken(script: seq<Answer>, m: nat)
    requires (forall a | a in script :: a.Took?) && m <= Grants(script)
    ensures Play(script, m).left == 0
    decreases |script|
  {
    if m > 0 {
      assert script[0] in script;
      var n := Answered(script, m).0;
      GrantedIsTaken(script[1..], m - n);
    }
  }

  /** A socket whose answers come from a script; after its end the socket is full. */
  class Kernel {
    var script: seq<Answer>
    var error: Errno
    ghost var accepted: seq<byte>
    /** How often it refused for good, that is, not for an interruption. */
    ghost var refusals: nat

    /** What the kernel has taken and may still take. */
    ghost function Budget(): nat
      reads this
    {
      |accepted| + Grants(script)
    }

    ghost predicate Friendly()
      reads this
    {
      Benign(script)
    }

    constructor (script: seq<Answer>)
      ensures this.script == script && accepted == []
    {
      this.script := script;
      error := TryAgain;
      accepted := [];
      refusals := 0;
    }

    method SendMsg(offered: seq<byte>) returns (n: int)
      modifies this
      ensures -1 <= n <= |offered|
      ensures accepted == old(accepted) + if n > 0 then offered[..n] else []
      ensures old(script) == [] ==> n == -1 && error == TryAgain && script == [] && refusals == old(refusals) + 1
      ensures old(script) != [] ==>
                && script == old(script)[1..]
                && match old(script)[0]
                   case Took(k) => n == (if k <= |offered| then k else |offered|) && refusals == old(refusals)
                   case Refused(e) => n == -1 && error == e && refusals == old(refusals) + if e == Interrupted then 0 else 1
      ensures Budget() <= old(Budget()) && (old(Friendly()) ==> Friendly() && (n == -1 ==> !error.Broken?))
    {
      if script == [] {
        error := TryAgain;
        refusals := refusals + 1;
        return -1;
      }
      var answer := script[0];
      assert answer in script;
      script := script[1..];
      match answer
      case Took(k) =>
        n := if k <= |offered| then k else |offered|;
        accepted := accepted + offered[..n];
      case Refused(e) =>
        error := e;
        refusals := refusals + if e == Interrupted then 0 else 1;
        n := -1;
    }

    /** sendmsg again and again while a signal interrupts it. */
    method Transmit(offered: seq<byte>) returns (n: int)
      modifies this
      ensures -1 <= n <= |offered| && (n == -1 ==> error != Interrupted)
      ensures accepted == old(accepted) + if n > 0 then offered[..n] else []
      ensures (n, script) == (Answered(old(script), |offered|).0, Answered(old(script), |offered|).1)
      ensures n == -1 ==> error == Answered(old(script), |offered|).2
      ensures refusals == old(refusals) + if n == -1 then 1 else 0
      ensures Budget() <= old(Budget()) && (old(Friendly()) ==> Friendly() && (n == -1 ==> error == TryAgain))
    {
      hide Grants, Benign;
      n := SendMsg(offered);
      while n == -1 && error == Interrupted
        invariant -1 <= n <= |offered|
        invariant accepted == old(accepted) + if n > 0 then offered[..n] else []
        invariant if n == -1 && error == Interrupted
                  then Answered(script, |offered|) == Answered(old(script), |offered|) && refusals == old(refusals)
                  else (n, script) == (Answered(old(script), |offered|).0, Answered(old(script), |offered|).1)
                       && (n == -1 ==> error == Answered(old(script), |offered|).2) && refusals == old(refusals) + if n == -1 then 1 else 0
        invariant Budget() <= old(Budget()) && (old(Friendly()) ==> Friendly() && (n == -1 ==> !error.Broken?))
        decreases |script|, n == -1 && error == Interrupted
      {
        n := SendMsg(offered);
      }
    }
  }

  // ---- packets ----

  /** An iovec: what is left of a packet's buffer. */
  datatype IoVec = IoVec(buffer: seq<byte>, base: nat, len: nat) {
    ghost predicate Valid() { base + len == |buffer| }
    function Bytes(): (b: seq<byte>)
      requires base + len <= |buffer|
      ensures |b| == len
    {
      buffer[base..base + len]
    }
  }

  ghost predicate AllValid(v: seq<IoVec>) { forall i :: 0 <= i < |v| ==> v[i].Valid() }

  function Flat(v: seq<IoVec>): seq<byte>
    requires AllValid(v)
  {
    if v == [] then [] else v[0].Bytes() + Flat(v[1..])
  }

  function Concat(packets: seq<seq<byte>>): seq<byte> {
    if packets == [] then [] else packets[0] + Concat(packets[1..])
  }

  function Whole(packet: seq<byte>): IoVec { IoVec(packet, 0, |packet|) }

  lemma {:induction false} FlatSplit(v: seq<IoVec>, k: nat)
    requires AllValid(v) && k <= |v|
    ensures AllValid(v[..k]) && AllValid(v[k..]) && Flat(v) == Flat(v[..k]) + Flat(v[k..])
    decreases k
  {
    if k == 0 {
      assert v[..0] == [] && v[0..] == v;
    } else {
      FlatSplit(v[1..], k - 1);
      assert v[..k][1..] == v[1..][..k - 1] && v[k..] == v[1..][k - 1..];
    }
  }

  lemma {:induction false} FlatOfWhole(packets: seq<seq<byte>>, v: seq<IoVec>)
    requires |v| == |packets| && forall i :: 0 <= i < |v| ==> v[i] == Whole(packets[i])
    ensures AllValid(v) && Flat(v) == Concat(packets)
  {
    if v != [] {
      FlatOfWhole(packets[1..], v[1..]);
      assert v[0].Bytes() == packets[0];
    }
  }

  lemma {:induction false} ConcatSplit(a: seq<seq<byte>>, b: seq<seq<byte>>)
    ensures Concat(a + b) == Concat(a) + Concat(b)
  {
    if a == [] {
      assert a + b == b;
    } else {
      ConcatSplit(a[1..], b);
      FirstOfTwo(a, b);
      Associative(a[0], Concat(a[1..]), Concat(b));
    }
  }

  /** One callback per packet. */
  datatype Callback = Callback(packet: seq<byte>, sent: bool)

  function Told(packets: seq<seq<byte>>, sent: bool): seq<Callback> {
    if packets == [] then [] else [Callback(packets[0], sent)] + Told(packets[1..], sent)
  }

  lemma {:induction false} ToldSplit(a: seq<seq<byte>>, b: seq<seq<byte>>, sent: bool)
    ensures Told(a + b, sent) == Told(a, sent) + Told(b, sent)
  {
    if a == [] {
      assert a + b == b;
    } else {
      ToldSplit(a[1..], b, sent);
      FirstOfTwo(a, b);
      Associative([Callback(a[0], sent)], Told(a[1..], sent), Told(b, sent));
    }
  }

  const IOV_MAX: nat := 1024

  class BufferSendMsg {
    const hasCallback: bool
    const iovec: array<IoVec>
    var iovecOff: nat
    var remainSize: nat
    var pktList: seq<seq<byte>>
    var callbacks: seq<Callback>
    ghost const packets: seq<seq<byte>>
    ghost var done: nat
    ghost var sent: seq<byte>

    /** The bytes still to be written. */
    ghost function Rest(): seq<byte>
      reads this, iovec
      requires iovecOff <= iovec.Length && AllValid(iovec[iovecOff..])
    {
      if done == |packets| then [] else Flat(iovec[iovecOff..])
    }

    /** The first `done` packets are sent and had their callback; the packet list is aligned with the
        iovecs from iovecOff on, of which only the first may be partly sent. */
    ghost predicate Valid()
      reads this, iovec
    {
      && iovec.Length == |packets| && iovecOff <= iovec.Length && done <= |packets|
      && AllValid(iovec[iovecOff..])
      && pktList == packets[done..]
      && (done < |packets| ==> iovecOff == done)
      && (forall i :: iovecOff < i < iovec.Length ==> iovec[i] == Whole(packets[i]))
      && (forall i :: iovecOff <= i < iovec.Length ==> iovec[i].buffer == packets[i])
      && (iovecOff < iovec.Length ==> iovec[iovecOff].len > 0 || packets[iovecOff] == [])
      && remainSize == |Rest()|
      && callbacks == (if hasCallback then Told(packets[..done], true) else [])
      && Concat(packets) == sent + Rest()
    }

    constructor (packets: seq<seq<byte>>, hasCallback: bool)
      ensures Valid() && this.packets == packets && this.hasCallback == hasCallback && fresh(iovec)
      ensures done == 0 && sent == [] && remainSize == |Concat(packets)|
    {
      hide Flat, Concat, Told, AllValid;
      this.hasCallback := hasCallback;
      this.packets := packets;
      iovec := new IoVec[|packets|];
      iovecOff, remainSize, pktList, callbacks, done, sent := 0, 0, packets, [], 0, [];
      new;
      NoPackets(packets);
      for i := 0 to |packets|
        invariant forall k :: 0 <= k < i ==> iovec[k] == Whole(packets[k])
        invariant remainSize == |Concat(packets[..i])|
        invariant iovecOff == 0 && pktList == packets && callbacks == [] && done == 0 && sent == []
      {
        iovec[i] := Whole(packets[i]);
        remainSize := remainSize + |packets[i]|;
        OnePacketMore(packets, i);
      }
      AllPackets(packets, iovec[..]);
    }

    /** sendFrontSuccess. */
    method SendFrontSuccess()
      requires pktList != []
      modifies `pktList, `callbacks
      ensures pktList == old(pktList)[1..]
      ensures callbacks == old(callbacks) + if hasCallback then [Callback(old(pktList)[0], true)] else []
    {
      if hasCallback {
        callbacks := callbacks + [Callback(pktList[0], true)];
      }
      pktList := pktList[1..];
    }

    /** sendCompleted: the same callback for every packet that is left. */
    method SendCompleted(flag: bool)
      modifies `pktList, `callbacks
      ensures pktList == []
      ensures callbacks == old(callbacks) + if hasCallback then Told(old(pktList), flag) else []
    {
      if hasCallback {
        while pktList != []
          invariant callbacks + Told(pktList, flag) == old(callbacks) + Told(old(pktList), flag)
        {
          callbacks := callbacks + [Callback(pktList[0], flag)];
          pktList := pktList[1..];
        }
        assert Told([], flag) == [];
      } else {
        pktList := [];
      }
    }

    /** reOffset: n bytes were taken, which is not all. */
    method ReOffset(n: nat)
      requires Valid() && 0 < n < remainSize
      modifies this, iovec
      ensures Valid() && sent == old(sent) + old(Rest())[..n] && Rest() == old(Rest())[n..] && iovecOff >= old(iovecOff)
    {
      hide Flat, Concat, Told, AllValid, Writing, EndsIn;
      ghost var v := iovec[iovecOff..];
      StartWriting(n);
      remainSize := remainSize - n;
      var offset: nat := 0;
      var i: nat := iovecOff;
      while i != iovec.Length
        invariant Writing(i, offset, n, remainSize + n, v) && iovecOff <= i < iovec.Length
        invariant remainSize == old(remainSize) - n && sent == old(sent) && Flat(v) == old(Rest())
      {
        AddPacket(i, offset, n, v);
        offset := offset + iovec[i].len;
        if offset < n {
          PassPacket(i, offset, n, v);
          i := i + 1;
          continue;
        }
        EndOfWrite(i, offset, n, v, i - iovecOff);
        return;
      }
    }

    /** The loop of reOffset: the packets before i are written, which is `offset` bytes of the `total`
        that were left. */
    ghost predicate Writing(i: nat, offset: nat, n: nat, total: nat, v: seq<IoVec>)
      reads this`iovecOff, this`pktList, this`callbacks, this`done, this`sent, iovec
    {
      && iovec.Length == |packets| && iovecOff == done <= i < |packets| && iovec[iovecOff..] == v && AllValid(v)
      && AllValid(v[..i - iovecOff]) && offset == |Flat(v[..i - iovecOff])| && offset < n < total == |Flat(v)|
      && (forall j :: iovecOff < j < iovec.Length ==> iovec[j] == Whole(packets[j]))
      && (forall j :: iovecOff <= j < iovec.Length ==> iovec[j].buffer == packets[j])
      && pktList == packets[i..] && callbacks == (if hasCallback then Told(packets[..i], true) else [])
      && Concat(packets) == sent + Flat(v)
    }

    lemma StartWriting(n: nat)
      requires Valid() && 0 < n < remainSize
      ensures Writing(iovecOff, 0, n, remainSize, iovec[iovecOff..]) && iovecOff < iovec.Length && Flat(iovec[iovecOff..]) == Rest()
    {
      hide Concat, Told;
      FlatOfNone(iovec[iovecOff..]);
      NotAll(iovec[iovecOff..], 0);
    }

    /** Adding the length of iovec i gives the bytes up to it, or the write ends in it. */
    lemma AddPacket(i: nat, offset: nat, n: nat, v: seq<IoVec>)
      requires Writing(i, offset, n, remainSize + n, v) && iovecOff <= i < iovec.Length
      ensures n <= offset + iovec[i].len ==>
                EndsIn(i, n, v, i - iovecOff) && offset + iovec[i].len == |Flat(v[..i - iovecOff])| + v[i - iovecOff].len
    {
      hide Flat, Concat, Told, AllValid;
      assert v[i - iovecOff] == iovec[i];
    }

    /** All of packet i was written. */
    method PassPacket(i: nat, offset: nat, n: nat, ghost v: seq<IoVec>)
      requires iovecOff <= i < iovec.Length && offset < n && offset >= iovec[i].len
      requires Writing(i, offset - iovec[i].len, n, remainSize + n, v)
      modifies `pktList, `callbacks
      ensures Writing(i + 1, offset, n, remainSize + n, v) && i + 1 < iovec.Length
    {
      hide Flat, Concat, Told, AllValid;
      ghost var k := i - iovecOff;
      assert v[k] == iovec[i];
      OneMore(v, k);
      MoreTold(i);
      NotAll(v, k + 1);
      SendFrontSuccess();
    }

    lemma NotAll(v: seq<IoVec>, k: nat)
      requires AllValid(v) && k <= |v| && |Flat(v[..k])| < |Flat(v)|
      ensures k < |v|
    {
      assert v[..|v|] == v;
    }

    lemma FlatOfNone(v: seq<IoVec>)
      ensures AllValid(v[..0]) && Flat(v[..0]) == []
    {
    }

    /** The n bytes end in the packet of iovec i, the k-th of those that were left; all packets before
        it had their callback. */
    ghost predicate EndsIn(i: nat, n: nat, v: seq<IoVec>, k: nat)
      reads this, iovec
    {
      && iovec.Length == |packets| && iovecOff + k == i < |packets| && iovec[iovecOff..] == v && AllValid(v) && AllValid(v[..k])
      && (forall j :: iovecOff < j < iovec.Length ==> iovec[j] == Whole(packets[j]))
      && (forall j :: iovecOff <= j < iovec.Length ==> iovec[j].buffer == packets[j])
      && pktList == packets[i..] && callbacks == (if hasCallback then Told(packets[..i], true) else [])
      && |Flat(v[..k])| < n <= |Flat(v[..k])| + v[k].len && n < |Flat(v)| && remainSize == |Flat(v)| - n
      && Concat(packets) == sent + Flat(v)
    }

    /** The end of reOffset's loop: the packet in which the n bytes end. */
    method EndOfWrite(i: nat, offset: nat, n: nat, ghost v: seq<IoVec>, ghost k: nat)
      requires EndsIn(i, n, v, k) && offset == |Flat(v[..k])| + v[k].len
      modifies this, iovec
      ensures Valid() && sent == old(sent) + Flat(v)[..n] && Rest() == Flat(v)[n..] && iovecOff >= i
    {
      if offset == n {
        PacketEnds(i, n, v, k);
      } else {
        PacketRemains(i, offset - n, n, v, k);
      }
    }

    method PacketEnds(i: nat, n: nat, ghost v: seq<IoVec>, ghost k: nat)
      requires EndsIn(i, n, v, k) && n == |Flat(v[..k])| + v[k].len
      modifies this
      ensures Valid() && sent == old(sent) + Flat(v)[..n] && Rest() == Flat(v)[n..] && iovecOff >= i
    {
      hide Flat, Concat, Told, AllValid;
      OneMore(v, k);
      assert v[k] == iovec[i];
      MoreTold(i);
      NotAtEnd(v, k, n);
      assert iovec[i + 1..] == v[k + 1..];
      Resplit(sent, Flat(v), n);
      iovecOff := i + 1;
      SendFrontSuccess();
      done := i + 1;
      sent := sent + Flat(v)[..n];
    }

    method PacketRemains(i: nat, remain: nat, n: nat, ghost v: seq<IoVec>, ghost k: nat)
      requires EndsIn(i, n, v, k) && n + remain == |Flat(v[..k])| + v[k].len && remain > 0
      modifies this, iovec
      ensures Valid() && sent == old(sent) + Flat(v)[..n] && Rest() == Flat(v)[n..] && iovecOff >= i
    {
      hide Flat, Concat, Told, AllValid;
      var ref := iovec[i];
      assert v[k] == ref;
      Shortened(v, k, ref.len - remain);
      Resplit(sent, Flat(v), n);
      iovecOff := i;
      iovec[i] := IoVec(ref.buffer, ref.base + ref.len - remain, remain);
      assert iovec[i..] == [iovec[i]] + v[k + 1..];
      done := i;
      sent := sent + Flat(v)[..n];
    }

    lemma NotAtEnd(v: seq<IoVec>, k: nat, n: nat)
      requires k < |v| && AllValid(v) && AllValid(v[..k]) && n == |Flat(v[..k])| + v[k].len && n < |Flat(v)|
      ensures k + 1 < |v| && AllValid(v[k + 1..]) && Flat(v[k + 1..]) == Flat(v)[n..]
    {
      hide Flat;
      OneMore(v, k);
      assert v[..|v|] == v;
    }

    /** The bytes sendmsg is offered: those of the first IOV_MAX iovecs that are left. */
    method Offer() returns (offered: seq<byte>)
      requires Valid() && remainSize > 0
      ensures offered <= Rest() && (iovec.Length - iovecOff <= IOV_MAX ==> offered == Rest())
    {
      hide Flat, Concat, Told, Whole;
      var count := if iovec.Length - iovecOff > IOV_MAX then IOV_MAX else iovec.Length - iovecOff;
      ghost var v := iovec[iovecOff..];
      FlatSplit(v, count);
      assert v[..count] == iovec[iovecOff..iovecOff + count] && v[..|v|] == v;
      offered := Flat(iovec[iovecOff..iovecOff + count]);
    }

    /** send_l: one sendmsg, repeated while it is interrupted. */
    method SendOnce(kernel: Kernel) returns (n: int)
      requires Valid() && remainSize > 0
      modifies this, iovec, kernel
      ensures Valid() && old(sent) <= sent && kernel.accepted == old(kernel.accepted) + sent[|old(sent)|..]
      ensures n == -1 ==> sent == old(sent) && kernel.error != Interrupted
      ensures |kernel.script| <= |old(kernel.script)| && (n != -1 || old(kernel.script) != [] ==> |kernel.script| < |old(kernel.script)|)
      ensures kernel.refusals == old(kernel.refusals) + if n == -1 then 1 else 0
      ensures iovecOff >= old(iovecOff) && remainSize == old(remainSize) - (if n > 0 then n else 0)
      ensures old(iovec.Length - iovecOff) <= IOV_MAX ==>
                var a := Answered(old(kernel.script), old(remainSize));
                n == a.0 && kernel.script == a.1 && (n == -1 ==> kernel.error == a.2)
      ensures kernel.Budget() <= old(kernel.Budget())
      ensures old(kernel.Friendly()) ==> kernel.Friendly() && (n == -1 ==> kernel.error == TryAgain)
    {
      hide Flat, Concat, Told, AllValid, Grants, Benign;
      var offered := Offer();
      ghost var rest := Rest();
      n := kernel.Transmit(offered);
      if n >= remainSize {
        assert offered[..n] == rest;
        Complete();
      } else if n > 0 {
        assert offered[..n] == rest[..n];
        ReOffset(n);
      }
    }

    /** Everything is written: each packet that is left has its callback. */
    method Complete()
      requires Valid()
      modifies `remainSize, `pktList, `callbacks, `done, `sent
      ensures Valid() && sent == old(sent) + old(Rest()) && done == |packets| && remainSize == 0
    {
      hide Flat, Concat, Told;
      ghost var rest := Rest();
      remainSize := 0;
      SendCompleted(true);
      CompletedTold(done);
      done := |packets|;
      sent := sent + rest;
    }

    lemma CompletedTold(d: nat)
      requires d <= |packets|
      ensures Told(packets[..d], true) + Told(packets[d..], true) == Told(packets[..|packets|], true) && packets[|packets|..] == []
    {
      ToldSplit(packets[..d], packets[d..], true);
      assert packets[..d] + packets[d..] == packets == packets[..|packets|];
    }

    /** send: how many bytes the kernel took, or -1 when it took none. */
    method Send(kernel: Kernel) returns (n: int)
      requires Valid()
      modifies this, iovec, kernel
      ensures Valid() && old(sent) <= sent && kernel.accepted == old(kernel.accepted) + sent[|old(sent)|..]
      ensures n == (if sent == old(sent) then -1 else |sent| - |old(sent)|) && |sent| + remainSize == |old(sent)| + old(remainSize)
      ensures remainSize > 0 && n == -1 ==> kernel.error != Interrupted
      ensures kernel.refusals == old(kernel.refusals) + (if remainSize == 0 then 0 else 1) && iovecOff >= old(iovecOff)
      ensures |kernel.script| <= |old(kernel.script)|
      ensures old(remainSize) > 0 && old(kernel.script) != [] ==> |kernel.script| < |old(kernel.script)|
      ensures old(iovec.Length - iovecOff) <= IOV_MAX ==>
                var played := Play(old(kernel.script), old(remainSize));
                remainSize == played.left && kernel.script == played.script && (remainSize > 0 ==> kernel.error == played.error)
      ensures kernel.Budget() <= old(kernel.Budget())
      ensures old(kernel.Friendly()) ==> kernel.Friendly() && (remainSize > 0 && n == -1 ==> kernel.error == TryAgain)
    {
      hide Flat, Concat, Told, Grants, Benign, Play, Answered, Valid;
      ghost var sent0 := sent;
      SentSize();
      var remain := remainSize;
      while remainSize != 0
        invariant Valid() && sent0 <= sent && kernel.accepted == old(kernel.accepted) + sent[|sent0|..]
        invariant kernel.Budget() <= old(kernel.Budget()) && (old(kernel.Friendly()) ==> kernel.Friendly())
        invariant kernel.refusals == old(kernel.refusals) && iovecOff >= old(iovecOff)
        invariant (kernel.script == old(kernel.script) && remainSize == remain) || |kernel.script| < |old(kernel.script)|
        invariant old(iovec.Length - iovecOff) <= IOV_MAX ==> Play(kernel.script, remainSize) == Play(old(kernel.script), remain)
        decreases |kernel.script|
      {
        ghost var sent1 := sent;
        PlayStep(kernel.script, remainSize);
        var m := SendOnce(kernel);
        Growth(sent0, sent1, sent);
        if m == -1 {
          break;
        }
      }
      PlayStep(kernel.script, 0);
      SentSize();
      n := remain - remainSize;
      if n > 0 {
        return;
      }
      return -1;
    }

    static lemma Growth(a: seq<byte>, b: seq<byte>, c: seq<byte>)
      requires a <= b <= c
      ensures a <= c && c[|a|..] == b[|a|..] + c[|b|..]
    {
    }

    lemma RestSize()
      requires Valid()
      ensures |Rest()| == remainSize
    {
    }

    lemma SentSize()
      requires Valid()
      ensures |Concat(packets)| == |sent| + remainSize
    {
    }

    /** ~BufferCallBack: what was not sent is reported as failed. */
    method Destroy()
      requires Valid()
      modifies `pktList, `callbacks
      ensures hasCallback ==> callbacks == Told(packets[..done], true) + Told(packets[done..], false)
      ensures !hasCallback ==> callbacks == []
    {
      SendCompleted(false);
    }

    /** A packet counts as sent exactly when the kernel took all its bytes; one without bytes may
        count as either. */
    lemma DoneIffSent(i: nat)
      requires Valid() && i < |packets|
      ensures i < done ==> |Concat(packets[..i + 1])| <= |sent|
      ensures i >= done && packets[i] != [] ==> |sent| < |Concat(packets[..i + 1])|
    {
      hide Told, Flat, Concat;
      if done < |packets| {
        SentLength();
        OnePacketMore(packets, done);
        if i < done {
          ConcatGrows(packets, i + 1, done);
        } else if i > done {
          ConcatGrows(packets, done + 1, i);
          OnePacketMore(packets, i);
        }
      } else {
        assert packets[..|packets|] == packets;
        ConcatGrows(packets, i + 1, |packets|);
      }
    }

    lemma SentLength()
      requires Valid() && done < |packets|
      ensures |sent| == |Concat(packets[..done])| + |packets[done]| - iovec[done].len
    {
      hide Told, Flat, Concat, AllValid;
      var v := iovec[done..];
      assert v[0] == iovec[done];
      FlatOfFirst(v);
      FlatOfWhole(packets[done + 1..], v[1..]);
      assert packets == packets[..done] + packets[done..];
      ConcatSplit(packets[..done], packets[done..]);
      ConcatOfFirst(packets[done..]);
      assert packets[done..][1..] == packets[done + 1..];
    }

    static lemma FlatOfFirst(v: seq<IoVec>)
      requires v != [] && AllValid(v)
      ensures AllValid(v[1..]) && |Flat(v)| == v[0].len + |Flat(v[1..])|
    {
    }

    static lemma ConcatOfFirst(packets: seq<seq<byte>>)
      requires packets != []
      ensures |Concat(packets)| == |packets[0]| + |Concat(packets[1..])|
    {
    }

    lemma MoreTold(i: nat)
      requires i < |packets|
      ensures Told(packets[..i + 1], true) == Told(packets[..i], true) + [Callback(packets[i], true)]
      ensures packets[i..][0] == packets[i] && packets[i..][1..] == packets[i + 1..]
    {
      assert packets[..i + 1] == packets[..i] + [packets[i]];
      ToldSplit(packets[..i], [packets[i]], true);
    }
  }

  lemma {:induction false} ConcatGrows(packets: seq<seq<byte>>, i: nat, j: nat)
    requires i <= j <= |packets|
    ensures |Concat(packets[..i])| <= |Concat(packets[..j])|
  {
    ConcatSplit(packets[..i], packets[i..j]);
    assert packets[..i] + packets[i..j] == packets[..j];
  }

  lemma OnePacketMore(packets: seq<seq<byte>>, i: nat)
    requires i < |packets|
    ensures |Concat(packets[..i + 1])| == |Concat(packets[..i])| + |packets[i]|
  {
    ConcatSplit(packets[..i], [packets[i]]);
    assert packets[..i + 1] == packets[..i] + [packets[i]];
    assert Concat([packets[i]]) == packets[i];
  }

  lemma NoPackets(packets: seq<seq<byte>>)
    ensures packets[..0] == [] && Concat(packets[..0]) == [] && Told(packets[..0], true) == []
  {
  }

  lemma AllPackets(packets: seq<seq<byte>>, v: seq<IoVec>)
    requires |v| == |packets| && forall i :: 0 <= i < |v| ==> v[i] == Whole(packets[i])
    ensures packets[..|packets|] == packets[0..] == packets && v[0..] == v && AllValid(v) && Flat(v) == Concat(packets)
    ensures packets == [] ==> Concat(packets) == []
  {
    FlatOfWhole(packets, v);
  }

  /** The bytes of one more iovec. */
  lemma OneMore(v: seq<IoVec>, k: nat)
    requires AllValid(v) && k < |v|
    ensures AllValid(v[..k]) && AllValid(v[..k + 1]) && AllValid(v[k + 1..])
    ensures Flat(v[..k + 1]) == Flat(v[..k]) + v[k].Bytes() && Flat(v) == Flat(v[..k + 1]) + Flat(v[k + 1..])
  {
    hide Flat;
    FlatSplit(v, k + 1);
    FlatSplit(v[..k + 1], k);
    UpToNext(v, k);
    FlatOfOne(v[k]);
  }

  lemma UpToNext<X>(v: seq<X>, k: nat)
    requires k < |v|
    ensures v[..k + 1][..k] == v[..k] && v[..k + 1][k..] == [v[k]]
  {
  }

  lemma FlatOfOne(x: IoVec)
    requires x.Valid()
    ensures AllValid([x]) && Flat([x]) == x.Bytes()
  {
  }

  /** The iovecs from k on, once d bytes of the first of them are gone too. */
  lemma Shortened(v: seq<IoVec>, k: nat, d: nat)
    requires AllValid(v) && k < |v| && d <= v[k].len
    ensures AllValid(v[..k]) && |Flat(v[..k])| + d <= |Flat(v)|
    ensures var w := [IoVec(v[k].buffer, v[k].base + d, v[k].len - d)] + v[k + 1..];
            AllValid(w) && Flat(w) == Flat(v)[|Flat(v[..k])| + d..]
  {
    OneMore(v, k);
    var x := IoVec(v[k].buffer, v[k].base + d, v[k].len - d);
    var w := [x] + v[k + 1..];
    assert w[0] == x && w[1..] == v[k + 1..];
    assert x.Bytes() == v[k].Bytes()[d..];
    DropInside(Flat(v[..k]), v[k].Bytes(), Flat(v[k + 1..]), d);
  }

  lemma DropInside<X>(p: seq<X>, b: seq<X>, t: seq<X>, d: nat)
    requires d <= |b|
    ensures (p + b + t)[|p| + d..] == b[d..] + t
  {
  }

  lemma Resplit<X>(a: seq<X>, b: seq<X>, n: nat)
    requires n <= |b|
    ensures (a + b[..n]) + b[n..] == a + b
  {
  }
}
