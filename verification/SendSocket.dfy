/** The two-level send cache of a TCP socket: packets wait, then one list of them is being sent, while
    the poller is asked for write events only when the kernel is full. Operations run one at a time. */
module SendSocket {
  import opened LittleEndian
  import opened SendBuffer

  datatype Progress = Finished | Stalled | Failed

  predicate Balanced(taken: seq<byte>, accepted: seq<byte>, rest: seq<byte>, waiting: seq<byte>) {
    taken == accepted + rest + waiting
  }

  /** What flushData leaves of a list that is being sent and of the packets that wait, in bytes. */
  datatype Flushed = Flushed(ok: bool, unsent: nat, waits: nat, script: seq<Answer>)

  /** A list goes to the kernel until that refuses, the waiting packets as the next list. The poller thread
      goes on with another list when one is finished. A list fails when it is refused for good at once. */
  function FlushPlay(script: seq<Answer>, unsent: nat, waits: nat, again: bool): Flushed
    decreases unsent + waits
  {
    var list := if unsent > 0 then unsent else waits;
    if list == 0 then Flushed(true, 0, 0, script)
    else
      var played, waits' := Play(script, list), if unsent > 0 then waits else 0;
      if played.left == 0 then
        if again then FlushPlay(played.script, 0, waits', again) else Flushed(true, 0, waits', played.script)
      else if played.left < list || played.error == TryAgain then Flushed(true, played.left, waits', played.script)
      else Flushed(false, 0, waits', played.script)
  }

  class Socket {
    const kernel: Kernel
    const hasCallback: bool
    var waiting: seq<seq<byte>>
    /** The list being sent; as operations run one at a time there is at most one. */
    var sending: BufferSendMsg?
    var isOpen: bool
    var sendable: bool
    var enableReceive: bool
    var errEmitted: bool
    /** What the poller is registered for. */
    var writeInterest: bool
    /** All bytes that send accepted, and whether an error or a close has dropped some since. */
    ghost var taken: seq<byte>
    ghost var dropped: bool

    ghost function Repr(): set<object>
      reads this
    {
      if sending == null then {} else {sending, sending.iovec}
    }

    ghost predicate BuffersOk()
      reads this, Repr()
    {
      && (sending != null ==> sending.Valid() && sending.remainSize > 0)
      && (forall p | p in waiting :: p != [])
    }

    /** The bytes of the list being sent that the kernel has not taken. */
    ghost function Unsent(): seq<byte>
      reads this, Repr()
      requires BuffersOk()
    {
      if sending == null then [] else sending.Rest()
    }

    /** Nothing is lost, repeated or reordered: the kernel's bytes, then the unsent ones, then the
        waiting packets are all the bytes accepted so far. */
    ghost predicate Conserved()
      reads this, kernel, Repr()
      requires BuffersOk()
    {
      Balanced(taken, kernel.accepted, Unsent(), Concat(waiting))
    }

    ghost predicate Valid()
      reads this, kernel, Repr()
    {
      && BuffersOk() && (!dropped ==> Conserved())
      && (!sendable ==> writeInterest)
    }

    /** Every sendmsg can offer a whole list. */
    ghost predicate FitsOneCall()
      reads this, Repr()
    {
      (sending != null ==> sending.iovec.Length - sending.iovecOff <= IOV_MAX) && |waiting| <= IOV_MAX
    }

    ghost function Waits(): nat
      reads this
    {
      |Concat(waiting)|
    }

    /** A list that is being sent waits for a write event. */
    ghost predicate Interested()
      reads this
    {
      sending != null ==> writeInterest
    }

    /** A connected socket: attachEvent asks for write events at first. */
    constructor (kernel: Kernel, hasCallback: bool)
      requires kernel.accepted == []
      ensures Valid() && Interested() && waiting == [] && sending == null && sendable && enableReceive && writeInterest && isOpen
      ensures this.kernel == kernel && taken == [] && !dropped && !errEmitted && this.hasCallback == hasCallback
    {
      this.kernel := kernel;
      this.hasCallback := hasCallback;
      waiting, sending, isOpen, sendable, enableReceive, errEmitted, writeInterest := [], null, true, true, true, false, true;
      taken, dropped := [], false;
    }

    method StartWriteAbleEvent()
      modifies `sendable, `writeInterest
      ensures !sendable && writeInterest
    {
      sendable := false;
      writeInterest := true;
    }

    method StopWriteAbleEvent()
      modifies `sendable, `writeInterest
      ensures sendable && !writeInterest
    {
      sendable := true;
      writeInterest := false;
    }

    method EmitErr()
      modifies `errEmitted
      ensures errEmitted
    {
      errEmitted := true;
    }

    /** send_l: the number of bytes accepted, or -1. */
    method Send(packet: seq<byte>, tryFlush: bool, timedOut: bool) returns (n: int)
      requires Valid()
      modifies `sending, `waiting, `sendable, `writeInterest, `errEmitted, `dropped, `taken, kernel, Repr()
      ensures Valid() && (old(Interested()) ==> Interested())
      ensures old(dropped) ==> dropped
      ensures packet == [] ==> n == 0 && taken == old(taken)
      ensures packet != [] ==> taken == old(taken) + packet && (n == |packet| || n == -1)
      ensures tryFlush && n == |packet| && n > 0 && old(Interested()) ==> writeInterest || (sending == null && waiting == [])
      ensures !tryFlush ==> n == |packet| && sending == old(sending) && sendable == old(sendable) && writeInterest == old(writeInterest)
                            && kernel.Budget() == old(kernel.Budget()) && kernel.Friendly() == old(kernel.Friendly())
      ensures n != -1 && !old(dropped) ==> !dropped
      ensures packet != [] && tryFlush && old(isOpen) && old(sendable) && old(kernel.script) != [] ==> |kernel.script| < |old(kernel.script)|
      ensures packet != [] && tryFlush && old(isOpen) && old(sendable) && old(sending) == null && kernel.refusals == old(kernel.refusals) ==>
                n == |packet| && sending == null && waiting == [] && sendable && (!dropped ==> kernel.accepted == taken)
      ensures packet != [] && tryFlush && old(isOpen) && old(sendable) && old(sending) == null && old(|waiting|) < IOV_MAX ==>
                Shows(FlushPlay(old(kernel.script), 0, old(Waits()) + |packet|, false), n == |packet|, kernel.script)
      ensures packet != [] && tryFlush && old(isOpen) && old(sendable) && old(sending) == null && old(|waiting|) < IOV_MAX && !old(dropped)
              && Play(old(kernel.script), old(Waits()) + |packet|).left == 0 ==>
                n == |packet| && sending == null && waiting == [] && sendable && !dropped && kernel.accepted == taken
    {
      if packet == [] {
        return 0;
      }
      hide Flat, Concat, Told, AllValid, Play;
      AppendPacket(packet);
      NextIsThere();
      if tryFlush {
        var ok := FlushAll(timedOut);
        NextIsThere();
        PlayedOut(old(kernel.script), old(Waits()) + |packet|);
        EverythingAccepted();
        if !ok {
          return -1;
        }
      }
      return |packet|;
    }

    /** One list that the kernel takes is gone. */
    static lemma PlayedOut(script: seq<Answer>, waits: nat)
      ensures Play(script, waits).left == 0 ==> FlushPlay(script, 0, waits, false).(script := []) == Flushed(true, 0, 0, [])
    {
    }

    /** Without an error, the kernel has everything when both caches are empty. */
    lemma EverythingAccepted()
      requires Valid()
      ensures !dropped && sending == null && waiting == [] ==> kernel.accepted == taken
    {
      NoBytes();
    }

    method AppendPacket(packet: seq<byte>)
      requires Valid() && packet != []
      modifies `waiting, `taken
      ensures Valid() && waiting == old(waiting) + [packet] && taken == old(taken) + packet && Waits() == old(Waits()) + |packet|
    {
      hide Flat, Concat, Told, AllValid, Whole;
      ConcatSplit(waiting, [packet]);
      OnlyPacket(packet);
      Regroup(kernel.accepted, Unsent(), Concat(waiting), packet);
      waiting := waiting + [packet];
      taken := taken + packet;
    }

    static lemma OnlyPacket(packet: seq<byte>)
      ensures Concat([packet]) == packet
    {
    }

    static lemma Regroup(a: seq<byte>, b: seq<byte>, c: seq<byte>, d: seq<byte>)
      ensures (a + b + c) + d == a + b + (c + d)
    {
    }

    method FlushAll(timedOut: bool) returns (ok: bool)
      requires Valid()
      modifies `sending, `waiting, `sendable, `writeInterest, `errEmitted, `dropped, kernel, Repr()
      ensures Valid() && taken == old(taken) && (old(Interested()) ==> Interested())
      ensures old(dropped) ==> dropped
      ensures ok && old(Interested()) ==> writeInterest || (sending == null && waiting == [])
      ensures ok && !old(dropped) ==> !dropped
      ensures !old(isOpen) ==> !ok
      ensures !old(isOpen) || !old(sendable) ==> kernel.script == old(kernel.script) && waiting == old(waiting) && sending == old(sending)
      ensures old(isOpen) && !old(sendable) ==> ok == !timedOut
      ensures old(isOpen) && old(sendable) ==>
                && (old(NextSize()) > 0 && old(kernel.script) != [] ==> |kernel.script| < |old(kernel.script)|)
                && (if kernel.refusals == old(kernel.refusals)
                    then ok && sending == null && (old(sending) == null ==> waiting == []) && sendable else ok ==> sending != null)
                && (old(FitsOneCall()) ==> Shows(FlushPlay(old(kernel.script), |old(Unsent())|, old(Waits()), false), ok, kernel.script))
    {
      if !isOpen {
        return false;
      }
      if sendable {
        ok := FlushData(false);
        return;
      }
      if timedOut {
        EmitErr();
        return false;
      }
      return true;
    }

    /** The waiting packets become the list to send. */
    method TakeWaiting() returns (b: BufferSendMsg)
      requires waiting != [] && forall p | p in waiting :: p != []
      modifies `waiting
      ensures fresh(b) && fresh(b.iovec) && b.Valid() && b.remainSize > 0 && waiting == []
      ensures b.Rest() == Concat(old(waiting)) && b.sent == [] && b.iovecOff == 0 && b.iovec.Length == |old(waiting)|
    {
      assert waiting[0] in waiting;
      NonEmpty(waiting);
      b := new BufferSendMsg(waiting, hasCallback);
      waiting := [];
    }

    static lemma NonEmpty(packets: seq<seq<byte>>)
      requires packets != [] && packets[0] != []
      ensures Concat(packets) != []
    {
    }

    /** A list of `list` bytes was played against the script. */
    static predicate Went(script: seq<Answer>, list: nat, progress: Progress, left: nat, script': seq<Answer>) {
      var played := Play(script, list);
      && left == played.left && script' == played.script
      && progress == (if left == 0 then Finished else if left < list || played.error == TryAgain then Stalled else Failed)
    }

    /** The loop of flushData over the list being sent. */
    method SendList(packet: BufferSendMsg, pollerThread: bool) returns (progress: Progress)
      requires packet.Valid() && packet.remainSize > 0 && sending == null
      modifies `sendable, `writeInterest, `errEmitted, kernel, packet, packet.iovec
      ensures packet.Valid() && old(packet.sent) <= packet.sent
      ensures kernel.accepted == old(kernel.accepted) + packet.sent[|old(packet.sent)|..]
      ensures progress == Finished ==> packet.remainSize == 0
      ensures progress == Stalled ==> packet.remainSize > 0
      ensures progress == Stalled && !pollerThread ==> !sendable && writeInterest
      ensures progress != Stalled || pollerThread ==> sendable == old(sendable) && writeInterest == old(writeInterest)
      ensures progress == Failed ==> errEmitted
      ensures kernel.Budget() <= old(kernel.Budget())
      ensures old(kernel.Friendly()) ==> kernel.Friendly() && progress != Failed
      ensures kernel.refusals == old(kernel.refusals) + (if progress == Finished then 0 else 1) && packet.iovecOff >= old(packet.iovecOff)
      ensures |kernel.script| <= |old(kernel.script)| && (old(kernel.script) != [] ==> |kernel.script| < |old(kernel.script)|)
      ensures old(packet.iovec.Length - packet.iovecOff) <= IOV_MAX ==>
                Went(old(kernel.script), old(packet.remainSize), progress, packet.remainSize, kernel.script)
    {
      hide Flat, Concat, Told, AllValid, Grants, Benign, BufferSendMsg.Valid;
      var n := packet.Send(kernel);
      if n > 0 {
        if packet.remainSize == 0 {
          return Finished;
        }
        if !pollerThread {
          StartWriteAbleEvent();
        }
        return Stalled;
      }
      if kernel.error == TryAgain {
        if !pollerThread {
          StartWriteAbleEvent();
        }
        return Stalled;
      }
      EmitErr();
      return Failed;
    }

    /** What the kernel took from the list moves over; the total stays. */
    static lemma Moved(taken: seq<byte>, accepted: seq<byte>, all: seq<byte>, sent: seq<byte>, rest: seq<byte>, sent': seq<byte>,
                       rest': seq<byte>, waiting: seq<byte>)
      requires taken == accepted + rest + waiting && all == sent + rest == sent' + rest' && sent <= sent'
      ensures taken == (accepted + sent'[|sent|..]) + rest' + waiting
    {
      assert sent' == sent + sent'[|sent|..];
      assert (sent + rest)[|sent|..] == rest;
      assert (sent' + rest')[|sent|..] == sent'[|sent|..] + rest';
    }

    /** The bytes of the list to go on with. */
    ghost function NextSize(): nat
      reads this, Repr()
      requires BuffersOk()
    {
      if sending != null then |Unsent()| else Waits()
    }

    /** The list to go on with: the one being sent, or else the waiting packets. */
    method NextList() returns (packet: BufferSendMsg?)
      requires Valid()
      modifies `sending, `waiting
      ensures sending == null && (old(sending) == null ==> waiting == []) && (old(sending) != null ==> waiting == old(waiting))
      ensures packet == null <==> old(sending) == null && old(waiting) == []
      ensures packet != null ==> packet.remainSize == old(NextSize())
      ensures packet != null && old(FitsOneCall()) ==> packet.iovec.Length - packet.iovecOff <= IOV_MAX
      ensures packet != null ==> packet.Valid() && packet.remainSize > 0 && fresh({packet, packet.iovec} - old(Repr()))
      ensures packet != null && !dropped ==> Balanced(taken, kernel.accepted, packet.Rest(), Concat(waiting))
      ensures packet == null && !dropped ==> Balanced(taken, kernel.accepted, [], [])
      ensures forall p | p in waiting :: p != []
    {
      hide Concat, Flat, Told, AllValid;
      NoBytes();
      Sides(kernel.accepted, Concat(waiting));
      packet := sending;
      sending := null;
      if packet == null {
        if waiting == [] {
          return;
        }
        packet := TakeWaiting();
      }
    }

    /** SendList keeps the account. */
    method SendSome(packet: BufferSendMsg, pollerThread: bool) returns (progress: Progress)
      requires packet.Valid() && packet.remainSize > 0 && sending == null
      requires !dropped ==> Balanced(taken, kernel.accepted, packet.Rest(), Concat(waiting))
      modifies `sendable, `writeInterest, `errEmitted, kernel, packet, packet.iovec
      ensures packet.Valid() && (!dropped ==> Balanced(taken, kernel.accepted, packet.Rest(), Concat(waiting)))
      ensures progress == Finished ==> packet.remainSize == 0
      ensures progress == Stalled ==> packet.remainSize > 0
      ensures progress == Stalled && !pollerThread ==> !sendable && writeInterest
      ensures progress != Stalled || pollerThread ==> sendable == old(sendable) && writeInterest == old(writeInterest)
      ensures progress == Failed ==> errEmitted
      ensures kernel.Budget() <= old(kernel.Budget())
      ensures old(kernel.Friendly()) ==> kernel.Friendly() && progress != Failed
      ensures kernel.refusals == old(kernel.refusals) + (if progress == Finished then 0 else 1) && packet.iovecOff >= old(packet.iovecOff)
      ensures |kernel.script| <= |old(kernel.script)| && (old(kernel.script) != [] ==> |kernel.script| < |old(kernel.script)|)
      ensures old(packet.iovec.Length - packet.iovecOff) <= IOV_MAX ==>
                Went(old(kernel.script), old(packet.remainSize), progress, packet.remainSize, kernel.script)
    {
      hide Concat, Flat, Told, AllValid;
      ghost var accepted, sent, rest := kernel.accepted, packet.sent, packet.Rest();
      progress := SendList(packet, pollerThread);
      if !dropped {
        Moved(taken, accepted, Concat(packet.packets), sent, rest, packet.sent, packet.Rest(), Concat(waiting));
      }
    }

    /** flushData up to the point where it calls itself again. */
    method FlushOnce(pollerThread: bool) returns (ok: bool, finished: bool)
      requires Valid() && (pollerThread ==> writeInterest)
      modifies `sending, `waiting, `sendable, `writeInterest, `errEmitted, `dropped, kernel, Repr()
      ensures Valid() && taken == old(taken) && dropped == (old(dropped) || !ok)
      ensures finished ==> ok && sending == null && sendable == old(sendable) && writeInterest == old(writeInterest)
      ensures finished && old(sending) == null ==> waiting == []
      ensures finished ==> |waiting| < |old(waiting)| || (waiting == old(waiting) && old(sending) != null)
      ensures ok && !finished && sending == null ==> waiting == []
      ensures ok && !finished && sending == null && pollerThread ==> !writeInterest && sendable
      ensures sending != null ==> writeInterest && (pollerThread ==> sendable == old(sendable))
      ensures !ok ==> errEmitted && sending == null
      ensures fresh(Repr() - old(Repr()))
      ensures kernel.Budget() <= old(kernel.Budget())
      ensures old(kernel.Friendly()) ==> kernel.Friendly() && ok
      ensures old(NextSize()) == 0 ==>
                && ok && !finished && sending == null && waiting == [] && (!pollerThread ==> sendable == old(sendable))
                && kernel.script == old(kernel.script) && kernel.refusals == old(kernel.refusals)
      ensures |kernel.script| <= |old(kernel.script)|
      ensures old(NextSize()) > 0 ==>
                && kernel.refusals == old(kernel.refusals) + (if finished then 0 else 1)
                && (old(kernel.script) != [] ==> |kernel.script| < |old(kernel.script)|)
                && waiting == (if old(sending) == null then [] else old(waiting)) && (ok && !finished ==> sending != null)
      ensures old(NextSize()) > 0 && old(FitsOneCall()) ==>
                && FitsOneCall()
                && Went(old(kernel.script), old(NextSize()), if finished then Finished else if ok then Stalled else Failed,
                        if ok then |Unsent()| else Play(old(kernel.script), old(NextSize())).left, kernel.script)
    {
      hide Concat, Flat, Told, AllValid, Conserved, Whole, Balanced, BufferSendMsg.Valid, Grants, Benign, Play;
      NextIsThere();
      var packet := NextList();
      if packet == null {
        NothingLeft(pollerThread);
        return true, false;
      }
      var progress := SendSome(packet, pollerThread);
      Settle(packet, progress);
      return progress != Failed, progress == Finished;
    }

    /** A list has bytes, and so have waiting packets. */
    lemma NextIsThere()
      requires Valid()
      ensures NextSize() == 0 <==> sending == null && waiting == []
      ensures Unsent() == [] <==> sending == null
      ensures Waits() == 0 <==> waiting == []
    {
      if waiting != [] {
        assert waiting[0] in waiting;
        NonEmpty(waiting);
      }
    }

    /** All data is written: the poller need not call any more. */
    method NothingLeft(pollerThread: bool)
      requires sending == null && waiting == [] && (!dropped ==> Balanced(taken, kernel.accepted, [], []))
      requires !sendable ==> writeInterest
      modifies `sendable, `writeInterest
      ensures Valid() && (pollerThread ==> sendable && !writeInterest)
      ensures !pollerThread ==> sendable == old(sendable) && writeInterest == old(writeInterest)
    {
      NoBytes();
      if pollerThread {
        StopWriteAbleEvent();
      }
    }

    /** A stalled list is kept for the next write event, a failed one is dropped. */
    method Settle(packet: BufferSendMsg, progress: Progress)
      requires packet.Valid() && sending == null && (forall p | p in waiting :: p != [])
      requires !dropped ==> Balanced(taken, kernel.accepted, packet.Rest(), Concat(waiting))
      requires progress == Finished ==> packet.remainSize == 0
      requires progress == Stalled ==> packet.remainSize > 0
      modifies `sending, `dropped, packet`pktList, packet`callbacks
      ensures BuffersOk() && (!dropped ==> Conserved()) && sending == (if progress == Stalled then packet else null)
      ensures packet.iovecOff == old(packet.iovecOff) && |Unsent()| == if progress == Stalled then old(packet.remainSize) else 0
      ensures dropped == (old(dropped) || progress == Failed)
    {
      hide Concat, Flat, Told, AllValid, Whole, Balanced;
      match progress
      case Stalled =>
        sending := packet;
      case Failed =>
        packet.Destroy();
        dropped := true;
      case Finished =>
        assert packet.Rest() == [];
    }

    /** flushData. */
    method FlushData(pollerThread: bool) returns (ok: bool)
      requires Valid() && (pollerThread ==> writeInterest)
      modifies `sending, `waiting, `sendable, `writeInterest, `errEmitted, `dropped, kernel, Repr()
      ensures Valid() && taken == old(taken) && (old(Interested()) ==> Interested())
      ensures old(dropped) ==> dropped
      ensures ok && !old(dropped) ==> !dropped
      ensures ok && !pollerThread && old(Interested()) ==> writeInterest || (sending == null && waiting == [])
      ensures ok && pollerThread ==> if sending == null then waiting == [] && !writeInterest && sendable else writeInterest
      ensures !ok ==> errEmitted && sending == null
      ensures sending != null && pollerThread ==> sendable == old(sendable)
      ensures fresh(Repr() - old(Repr()))
      ensures kernel.Budget() <= old(kernel.Budget())
      ensures old(kernel.Friendly()) ==> kernel.Friendly() && ok
      ensures old(NextSize()) > 0 && old(kernel.script) != [] ==> |kernel.script| < |old(kernel.script)|
      ensures kernel.refusals >= old(kernel.refusals) && |kernel.script| <= |old(kernel.script)|
      ensures if kernel.refusals == old(kernel.refusals)
              then ok && sending == null && (pollerThread || old(sending) == null ==> waiting == []) && (!pollerThread ==> sendable == old(sendable))
              else ok ==> sending != null
      ensures old(FitsOneCall()) ==>
                FitsOneCall() && Shows(FlushPlay(old(kernel.script), |old(Unsent())|, old(Waits()), pollerThread), ok, kernel.script)
      decreases |waiting|, sending != null
    {
      hide BuffersOk, Conserved, Grants, Benign, Play, FlushPlay, Went, Concat, Flat;
      NextIsThere();
      ghost var script, unsent, waits := kernel.script, |Unsent()|, Waits();
      var finished;
      ok, finished := FlushOnce(pollerThread);
      NextIsThere();
      OncePlayed(script, unsent, waits, pollerThread, ok, finished, kernel.script, |Unsent()|, Waits());
      if finished && pollerThread {
        ok := FlushData(pollerThread);
      }
    }

    /** The caches and the answers are what was played. */
    ghost predicate Shows(f: Flushed, ok: bool, script: seq<Answer>)
      reads this, Repr()
      requires BuffersOk()
    {
      ok == f.ok && |Unsent()| == f.unsent && Waits() == f.waits && script == f.script
    }

    /** One list is one step of the play. */
    static lemma OncePlayed(script: seq<Answer>, unsent: nat, waits: nat, again: bool, ok: bool, finished: bool, script': seq<Answer>,
                            unsent': nat, waits': nat)
      ensures var list := if unsent > 0 then unsent else waits;
              if list == 0 then FlushPlay(script, unsent, waits, again) == Flushed(true, 0, 0, script)
              else Went(script, list, if finished then Finished else if ok then Stalled else Failed,
                        if ok then unsent' else Play(script, list).left, script')
                   && waits' == (if unsent > 0 then waits else 0) && (finished ==> ok && unsent' == 0) && (!ok ==> unsent' == 0) ==>
                if finished && again then FlushPlay(script, unsent, waits, again) == FlushPlay(script', 0, waits', again)
                else FlushPlay(script, unsent, waits, again) == Flushed(ok, unsent', waits', script')
    {
      hide Play;
    }

    static lemma Sides(a: seq<byte>, b: seq<byte>)
      ensures a + [] + b == a + b && a + b + [] == a + b && a + [] == a
    {
    }

    static lemma NoBytes()
      ensures Concat([]) == []
    {
    }

    /** onWriteAble, which the poller calls only while it is registered for write events. */
    method OnWriteAble()
      requires Valid() && writeInterest
      modifies `sending, `waiting, `sendable, `writeInterest, `errEmitted, `dropped, kernel, Repr()
      ensures Valid() && taken == old(taken) && (old(Interested()) ==> Interested())
      ensures old(dropped) ==> dropped
      ensures sending != null ==> writeInterest && sendable == old(sendable)
      ensures old(kernel.Friendly()) && old(kernel.Budget()) < |taken| && !old(dropped) ==> !dropped && sending != null
      ensures old(NextSize()) > 0 && old(kernel.script) != [] ==> |kernel.script| < |old(kernel.script)|
      ensures kernel.refusals == old(kernel.refusals) ==>
                sending == null && waiting == [] && !writeInterest && sendable && (!dropped ==> kernel.accepted == taken)
      ensures old(FitsOneCall()) ==>
                var f := FlushPlay(old(kernel.script), |old(Unsent())|, old(Waits()), true);
                Shows(f, f.ok, kernel.script) && (f.ok && !old(dropped) ==> !dropped)
      ensures old(FitsOneCall()) && !old(dropped) ==>
                var f := FlushPlay(old(kernel.script), |old(Unsent())|, old(Waits()), true);
                f.ok && f.unsent == 0 ==> sending == null && waiting == [] && !writeInterest && sendable && kernel.accepted == taken
    {
      hide Concat, Flat, Told, AllValid, Grants, Benign, BufferSendMsg.Valid, Play;
      NextIsThere();
      if waiting == [] && sending == null {
        EverythingTaken();
        StopWriteAbleEvent();
      } else {
        var _ := FlushData(true);
        EverythingTaken();
      }
      NextIsThere();
      EverythingAccepted();
    }

    /** Without an error, when no list is left the kernel has taken everything. */
    lemma EverythingTaken()
      requires Valid()
      ensures !dropped && sending == null && waiting == [] ==> |taken| <= kernel.Budget()
    {
      NoBytes();
    }

    /** enableRecv registers anew, for write events only when the socket is thought to be full: the
        list being sent keeps its write event exactly under this condition. */
    method EnableRecv(enabled: bool)
      requires Valid() && Interested()
      modifies `enableReceive, `writeInterest
      ensures Valid() && enableReceive == enabled
      ensures Interested() <==> enabled == old(enableReceive) || !sendable || sending == null
    {
      if enableReceive == enabled {
        return;
      }
      enableReceive := enabled;
      writeInterest := !sendable;
    }

    /** closeSock drops what is left. */
    method CloseSock(closeFd: bool)
      requires Valid()
      modifies this, Repr()
      ensures Valid() && dropped && waiting == [] && sending == null && sendable && enableReceive
    {
      hide Concat, Flat, Told, AllValid, Balanced, Whole, Conserved;
      sendable := true;
      enableReceive := true;
      waiting := [];
      if sending != null {
        sending.Destroy();
      }
      sending := null;
      dropped := true;
      if closeFd {
        errEmitted := false;
        isOpen := false;
      } else if isOpen {
        writeInterest := false;
      }
    }
  }

  /** A history in which a list that is not finished loses its write event: a packet is queued without
      a flush, the first write event finds a kernel that takes only part of it, and then reception is
      switched off. */
  method ListLosesItsEvent(packet: seq<byte>, script: seq<Answer>) returns (s: Socket)
    requires Benign(script) && Grants(script) < |packet|
    ensures fresh(s) && s.Valid() && s.isOpen && !s.dropped && s.taken == packet
    ensures s.sending != null && !s.Interested()
  {
    hide Benign, Grants, Concat, Flat, Told, AllValid, Balanced, Socket.Valid, Socket.BuffersOk, BufferSendMsg.Valid;
    var kernel := new Kernel(script);
    s := new Socket(kernel, false);
    var _ := s.Send(packet, false, false);
    assert [] + packet == packet;
    s.OnWriteAble();
    s.EnableRecv(false);
  }
}
