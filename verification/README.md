# Verified models of the toolkit's protocols and data structures

This project models the parts of a C++ network toolkit that carry its hardest promises, and proves
those promises in Dafny. `dafny verify dfyconfig.toml` checks everything.

## What is modelled

**KCP** (`KcpState` … `KcpTransport`) is a reliable transport over datagrams: messages are cut into
fragments, numbered, sent in a window, acknowledged one by one and cumulatively, and sent again.
Its operations are functions on an endpoint (`KcpState`); the class `KcpTransport.KcpTransport` has
the program's fields and loops, and each method is proved to compute such a function. A system is
two endpoints and a network that delivers any datagram either of them ever wrote, any number of
times and in any order, or never (`KcpRuns`). `KcpLink`, `KcpProtocol` and `KcpFlush` prove that
every operation keeps one invariant about both ends and everything in flight; `KcpRuns` reads the
safety theorems off it; `KcpProgress` proves that no reachable state is stuck at any time, and
`KcpStray` that a window probe with an unset field can lose data. `KcpRead` and `KcpTurn` say what
one datagram and one timer turn do, in terms of the packets read and written; `KcpHistory` lifts
that to runs: what is sent again, when, and within which window. `KcpProbe` is the probe timer,
`KcpWire` the datagram format with the pool that collects it, `KcpRtt` and `KcpCongestion` the two
estimators.

**wepoll** is epoll on Windows. `RbShape` and `RbTree` are its parent-pointer red-black tree: pure
shapes with a hole, and the heap nodes that are shown to spell such a shape after every rotation.
`WepollQueue` is the intrusive circular list. `WepollState` is the port with its sockets, poll
groups and queues, `WepollInvariant` what every operation keeps, `WepollRuns` and `WepollReports`
the theorems about all runs, `WepollInterest` those about what callers asked for, and `WepollPort`
the methods. `WepollReflock` is the reference lock
that port teardown relies on, over all interleavings of the atomic steps of any number of threads
below 2^28.

**Send path** (`SendBuffer`, `SendSocket`): scattered buffers over a kernel that takes any prefix,
with callbacks, below the two-level cache of a socket.

**GOP ring** (`RingStorage`, `RingReplicas`, `RingAttach`, `RingClear`): an evicting cache of groups
of pictures, cloned per poller thread and kept in step by queued tasks, what a new reader gets of
it, and what clearCache does to that.

**Hashes** (`Sha1Block`, `Sha1Known`, `Sha1Stream`, `Md5Stream`): optimised streaming code against
the standards.

## Hypotheses

- KCP: a fixed mtu of 50 to 1400 bytes, which is what the pool of an endpoint holds
  (`PoolSufficesIff`), and fixed windows, the receive window between 128 and 65535; no stream mode.
  The client knows its conversation id and the server learns it from the first packet.
- KCP safety holds without a bound on the number of segments: the ends of both windows are added up
  in 32 bits, so that numbering and acceptance stop short of 2^32. Progress therefore needs the
  fragments accepted so far, plus either window, to stay below 2^32 (`Small`).
- KCP window probes leave their una and wnd unset (`src/Network/Kcp.cpp:763-772`). The runs assume
  that the una they happen to carry is at most their sender's `_rcv_nxt` (`HarmlessProbes`). Without
  that the protocol can lose data: `UnaIsSafeIff` says exactly when, `StrayUnaLosesData` is a run.
- wepoll: malloc returns unused memory, and the kernel completes each poll once. Its answers and the
  events it reports are arbitrary.
- Timestamps, kernel answers, completions and results of malloc are parameters of the operations.

## Where the code differs from its documentation or evident intent

The model follows the code in each case.

- `setMtu` does not allocate the pool again, which has 1400 bytes for ever
  (`src/Network/Kcp.cpp:134,825-834`). Packets fit it for all sendable lists if and only if the mtu is
  at most 1400 (`PoolSufficesIff`); `LargeMtuOverruns` is an endpoint with a packet that does not.
- `_rcv_nxt + _rcv_wnd` and `_snd_una + cwnd` wrap around 32 bits (`src/Network/Kcp.cpp:600,413`). From
  then on the next segment is dropped unacknowledged, or never numbered: `NextIsTakenIff`, `NumbersIff`
  and, as an example, `EndsStandStill`.
- `onData` makes a new buffer, and starts again at its front, for every fragment
  (`src/Network/Kcp.cpp:329-336`). A message of several fragments therefore arrives with the right
  size but only its last fragment's bytes; `ByteIdenticalIff` is the exact condition, and
  `TwoFragmentsArriveWrong` a run.
- The header documents that the normal mode doubles the timeout on every retransmission and the other
  modes add half of it (`src/Network/Kcp.h:166-168`). The code tests
  `_delay_mode == DELAY_MODE_NORMAL == 0`, which is "not normal", so it does the reverse;
  `TimeoutDoublesIff` says exactly when a timeout doubles, `NormalModeAddsHalf` is an example.
- `decreaseCwnd` adds 2^32 - 1 when fast retransmission is off, which wraps to `_ssthresh - 1`.
- `enableRecv` registers for write events only when the socket is not marked sendable, although a new
  socket is registered and marked sendable; `EnableRecv` states exactly when a waiting list keeps its
  write event, and `ListLosesItsEvent` is a history in which it does not.
- `RingBuffer::clearCache` clears the main storage but no other: a dispatcher clears its own only
  without readers, and then it is no longer registered (`ClearTaskDoesNothing`). `ClearCacheSyncIff`
  is the exact condition for agreement later on, `ClearCacheCanDiverge` a run that ends without it.
- MD5's block loop compares `i + blocksize` in 32 bits; `LoopEndsIff` is the exact condition for it to
  stop in the right place, which `LongestInput` fails, and `Md5.Update` requires it.

## Model

| member | source | states |
|---|---|---|
| KcpRuns.NeverForgetsASegment | src/Network/Kcp.cpp:495-529 | In every state two endpoints reach over a network that loses, repeats and reorders datagrams, each numbered segment is still in its sender's buffer or the receiver has it. |
| KcpRuns.DeliversInOrder | src/Network/Kcp.cpp:317-401 | In every reachable state the i-th buffer given to onRead has the size of the i-th message given to send, so messages arrive once and in order; a message that fits one fragment arrives byte for byte. |
| KcpRuns.PopLoopIsSafe | src/Network/Kcp.cpp:317-375 | Whatever datagram of the peer arrives, in whatever reachable state, the inner loop of onData never pops an empty queue. |
| KcpRuns.WindowsHold | src/Network/Kcp.cpp:377-438 | In every reachable state the send buffer is strictly increasing within [snd_una, snd_nxt), snd_una is its head or snd_nxt, at most snd_wnd segments are in flight and the peer's rcv_nxt lies between; the receive buffer is strictly increasing within (rcv_nxt, rcv_nxt + rcv_wnd) and the advertised window stays open. |
| KcpRuns.NothingIsUndone | src/Network/Kcp.cpp:495-529 | Over every run snd_una and rcv_nxt never decrease and no delivery is taken back. |
| KcpRuns.StepKeepsInv | src/Network/Kcp.cpp:199-297 | Every send, every timer turn and every arrival of any datagram ever written keeps the two-endpoint invariant, including the truth of every acknowledgement and una still in flight. |
| KcpRuns.UnaIsSafeIff | src/Network/Kcp.cpp:495-510 | Obeying a cumulative acknowledgement u forgets no segment if and only if u is at most the peer's rcv_nxt or the peer has everything that was numbered. |
| KcpStray.StrayUnaLosesData | src/Network/Kcp.cpp:736-776 | A run from the start: the receive window fills, the announcement of the window goes out with an unset una above 128, and is read twice; every event but that announcement is enabled, and the sender has forgotten a segment that nobody received. |
| KcpStray.StrayProbeForgets | src/Network/Kcp.cpp:736-776 | The same loss from every state in which all numbered segments have arrived, nothing waits, and the receiver is about to announce its window: any unset una past snd_nxt suffices, and all events after the announcement are enabled. |
| KcpRuns.PoolIsSafe | src/Network/Kcp.cpp:891-904 | In every reachable state a timer turn writes no packet past the end of the 1400-byte pool. |
| KcpRuns.LargeMtuOverruns | src/Network/Kcp.cpp:825-834 | The failing input, for every larger mtu that setMtu accepts: an endpoint whose first message fills more than 1400 bytes in one fragment overruns the pool in its next timer turn. |
| KcpProgress.EverythingCanBeDelivered | src/Network/Kcp.cpp:199-297 | From every state of the invariant in which all accepted fragments, together with either window, stay below 2^32, and at any time, some schedule delivers every message accepted so far. Its clock never goes back, and it only moves to moments at which a segment falls due at the side that then has its turn. |
| KcpProgress.AdvanceRound | src/Network/Kcp.cpp:640-718 | While the receiver misses a numbered segment, a timer turn and an arrival make rcv_nxt grow: at once if that segment is new or overdue, and otherwise at the moment at which it falls due. |
| KcpProgress.NumberRound | src/Network/Kcp.cpp:403-438 | While fragments wait without a number and everything numbered was received, such a schedule leads to a state with a newly numbered segment on its way: a full or closed window always opens again. |
| KcpProgress.AckRound | src/Network/Kcp.cpp:720-734 | When the receiver has everything numbered and owes an acknowledgement, a timer turn and an arrival bring snd_una up to snd_nxt in no time, and the receiver stays where it is. |
| KcpLink.DropByUnaOk | src/Network/Kcp.cpp:495-510 | An una that the receiver has reached keeps the send buffer ordered and forgets nothing. |
| KcpLink.DropByAckOk | src/Network/Kcp.cpp:512-529 | An acknowledgement of a received segment keeps the send buffer ordered and forgets nothing. |
| KcpLink.SendOk | src/Network/Kcp.cpp:146-197 | Taking a message extends the stream of fragments at its end and keeps the relation between both ends. |
| KcpLink.SortSendQueueOk | src/Network/Kcp.cpp:403-438 | Numbering queued fragments gives segment sn the sn-th fragment of the stream, below the 32-bit end of the window, and keeps the relation. |
| KcpLink.NumbersIff | src/Network/Kcp.cpp:403-438 | With nothing in flight a waiting fragment gets a number if and only if snd_una + cwnd fits 32 bits. |
| KcpLink.HandlePushOk | src/Network/Kcp.cpp:595-629 | A data segment that carries its fragment of the stream keeps the receive buffer ordered; a segment that is acknowledged has been received. |
| KcpLink.NextIsTakenIff | src/Network/Kcp.cpp:595-604 | The segment the receiver waits for is received if and only if rcv_nxt + rcv_wnd fits 32 bits; otherwise it is dropped without an acknowledgement. |
| KcpLink.EndsStandStill | src/Network/Kcp.cpp:403-438 | The failing input of both: a hundred short of 2^32, with windows of 128, a waiting fragment gets no number and the awaited segment changes nothing at the receiver. |
| KcpLink.SortRecvBufOk | src/Network/Kcp.cpp:377-401 | Moving segments in order into the receive queue continues the stream there, and leaves a buffer whose head is past rcv_nxt. |
| KcpLink.DrainQueueOk | src/Network/Kcp.cpp:317-349 | Handing over complete messages keeps deliveries a prefix of what was accepted, and leaves less than a message. |
| KcpLink.OnDataOk | src/Network/Kcp.cpp:317-352 | onData as a whole re-establishes the relation between the two ends after a datagram was read. |
| KcpProtocol.InputOk | src/Network/Kcp.cpp:199-297 | Reading any datagram the peer ever wrote keeps the invariant at both ends, and the state at this end only grows. |
| KcpProtocol.HandlePacketOk | src/Network/Kcp.cpp:219-278 | Every packet in such a datagram, of any command, keeps the invariant while the datagram is read. |
| KcpRead.InputTells | src/Network/Kcp.cpp:199-297 | What a datagram changes, told by its packets of this conversation with a known command: the send buffer loses exactly the segments they acknowledge, alone or cumulatively, and _snd_una is its head; _rmt_wnd is the window of the last of them; the round-trip filter takes exactly the differences to the times the acknowledgements echo; every data packet below the end of the window is owed an acknowledgement with its own time stamp; the congestion window grows once if _snd_una did. |
| KcpRead.InputTellsAll | src/Network/Kcp.cpp:227-235 | The same for any endpoint: one without a conversation takes that of the first packet it can parse. |
| KcpRead.ForeignChangesNothing | src/Network/Kcp.cpp:230-242 | A datagram without a packet of this conversation with a known command leaves the whole endpoint as it was. |
| KcpRead.InputReceives | src/Network/Kcp.cpp:595-629 | A segment is received after a datagram if and only if it was before, or the datagram carries it below the end of the window. |
| KcpRead.TellIsOwedIff | src/Network/Kcp.cpp:317-352 | On datagrams of the peer: the window is announced if and only if that was owed before, the peer asked, or data came and the receive queue filled before complete messages were handed over. |
| KcpRead.UpdateFastAckCounts | src/Network/Kcp.cpp:531-547 | On an ordered buffer exactly the segments below the acknowledged one count a skip, and with conservation only those sent before the time it echoes. |
| KcpFlush.UpdateOk | src/Network/Kcp.cpp:640-718 | A timer turn keeps the invariant: every packet it writes tells the truth about this end for ever after. |
| KcpTurn.TurnWrites | src/Network/Kcp.cpp:640-718 | The packets of a timer turn: one acknowledgement for each one owed, with its number and time stamp; data for exactly those segments that were never sent, are overdue, or were skipped often enough within the fast limit, in order; and each probe exactly when it is due. |
| KcpTurn.TurnKeeps | src/Network/Kcp.cpp:664-694 | A segment that does not go out stays exactly as it is; one that does counts one more transmission and is overdue after its own timeout, or at first after the estimate, in the normal mode with an eighth more. |
| KcpTurn.WindowAfterTurn | src/Network/Kcp.cpp:783-823 | A turn that finds a segment overdue sets _cwnd to 1, and _ssthresh to half the send window; one that finds only segments skipped too often sets both from the segments in flight; and one with neither leaves _cwnd, _ssthresh and _incr alone. |
| KcpTurn.NumbersInOrder | src/Network/Kcp.cpp:412-436 | Waiting fragments are numbered from the front, in order and without a gap, and the rest keeps waiting. |
| KcpTurn.TurnNumbers | src/Network/Kcp.cpp:403-438 | A turn numbers no fragment at or past _snd_una + max(1, _rmt_wnd), and leaves one waiting only when the window has no room. |
| KcpTurn.SendWindowIs | src/Network/Kcp.cpp:403-410 | The window is the least of _snd_wnd, _rmt_wnd and, unless switched off, _cwnd, but at least 1. |
| KcpTurn.TurnParses | src/Network/Kcp.cpp:891-909 | What a turn writes, behind the datagrams already written, parses to exactly its packets. |
| KcpHistory.CounterIsExact | src/Network/Kcp.cpp:646-718 | In every reachable state the datagrams written hold a segment in flight exactly as often as its counter of transmissions says. |
| KcpHistory.NotSentBeforeItsTime | src/Network/Kcp.cpp:672-698 | In every run a segment that was sent is not sent again, and keeps its time, while the timer turns of its side come before that time and find it skipped too seldom. |
| KcpHistory.SentAgainInItsTime | src/Network/Kcp.cpp:664-698 | In every run a segment that goes out at time t is written once, and not again before t plus its timeout unless enough later segments are acknowledged. |
| KcpHistory.AcknowledgedIsNeverSentAgain | src/Network/Kcp.cpp:495-529 | In every run a numbered segment that left the send buffer is never written again. |
| KcpHistory.NumbersWithinAdvertisedWindow | src/Network/Kcp.cpp:583-587 | In every run a turn numbers nothing at or past _snd_una + max(1, w), where w is the window that the datagrams read so far advertised last. |
| KcpHistory.AcksEchoTransmissions | src/Network/Kcp.cpp:589-606 | In every reachable state each acknowledgement written carries number and time stamp of a data packet that the peer did write. |
| KcpHistory.WindowsAreTold | src/Network/Kcp.cpp:631-637 | In every reachable state each acknowledgement and data packet written advertises a window between 1 and _rcv_wnd. |
| KcpProbe.AsksWhenDue | src/Network/Kcp.cpp:736-766 | While the window is closed the question goes out at the first turn when the wait is over, also across the wrap of the clock, and the next wait is half as long again, at most two minutes. |
| KcpProbe.QuestionsAreSpaced | src/Network/Kcp.cpp:739-756 | Over any turns less than 2^30 ms apart the questions are at least those growing waits apart, and turns over two minutes never pass without one. |
| KcpProbe.OpenWindowIsNotAsked | src/Network/Kcp.cpp:757-760 | An open window is not asked about, and turns the timer off. |
| KcpFlush.SendAcceptsIff | src/Network/Kcp.cpp:146-197 | A message is accepted if and only if the conversation is known, and it is neither empty nor as long as 128 full fragments; it then is the next accepted message. |
| KcpFlush.SubmitOk | src/Network/Kcp.cpp:146-197 | A send keeps the invariant. |
| KcpFlush.TimeoutDoublesIff | src/Network/Kcp.cpp:670-690 | A timeout at least doubles a segment's own timeout if and only if the mode is not the normal one or the estimate is already twice as large; the normal mode adds half the estimate. |
| KcpFlush.NormalModeAddsHalf | src/Network/Kcp.cpp:670-690 | The failing input: in the normal mode a timeout of 200 ms with an estimate of 200 ms grows to 300 ms. |
| KcpStream.ByteIdenticalIff | src/Network/Kcp.cpp:326-349 | What onRead is given is sure to hold the message if and only if the message fits one fragment, because each fragment is copied to the front of a new buffer. |
| KcpProgress.SplitMessageIsSpoiled | src/Network/Kcp.cpp:326-349 | For every message of several fragments there is a run from the start that hands over a buffer of its size with the bytes of its last fragment in front. |
| KcpProgress.TwoFragmentsArriveWrong | src/Network/Kcp.cpp:326-349 | The failing input: a message of two fragments for which no buffer that can be handed over equals the message. |
| KcpStream.DrainPrefix | src/Network/Kcp.cpp:317-349 | Merging any received prefix of the fragment stream hands over exactly the complete messages in it, with their sizes, and keeps the rest. |
| KcpStream.FragmentAt | src/Network/Kcp.cpp:177-188 | Fragment i of a message is its i-th block of mss bytes, and the fragment numbers count down to 0. |
| KcpStream.FragmentsFit | src/Network/Kcp.cpp:146-197 | A message that send accepts has at most 128 fragments, each at most mss bytes long, so that the fragment number fits its byte. |
| KcpSegments.DropBelowKeeps | src/Network/Kcp.cpp:495-510 | On an ordered buffer exactly the segments below una leave. |
| KcpSegments.EraseSnKeeps | src/Network/Kcp.cpp:512-529 | On an ordered buffer exactly the acknowledged segment leaves. |
| KcpSegments.InsertSortedKeeps | src/Network/Kcp.cpp:595-629 | A new segment is inserted at its place and a repeated one changes nothing, so the buffer stays strictly increasing. |
| KcpSegments.OrderedLength | src/Network/Kcp.cpp:403-438 | An ordered buffer holds at most as many segments as its window has numbers. |
| KcpWire.PackingRoundTrip | src/Network/Kcp.cpp:891-909 | For every mtu up to the pool capacity and every list of packets that fit the mtu, no packet overruns the pool, the datagrams written are at most mtu bytes long, and parsing them yields the same packets in the same order. |
| KcpWire.ParseAllOfEncodeAll | src/Network/Kcp.cpp:219-226 | The packet loop of input reads back every sequence of encoded packets. |
| KcpWire.ParseOfEncode | src/Network/Kcp.cpp:97-125 | Parsing undoes storing for every packet, whatever follows it in the datagram. |
| KcpWire.Parse | src/Network/Kcp.cpp:97-119 | A packet is accepted only where its own encoding stands at the front of the data. |
| KcpWire.ParseIsExact | src/Network/Kcp.cpp:40-64 | Every header that announces no more than is there re-encodes to the very bytes it was read from. |
| KcpWire.PackedParse | src/Network/Kcp.cpp:891-909 | The same for a flush behind earlier datagrams: those stay as they are, nothing overruns the pool, and what is parsed grows by the packets sent. |
| KcpWire.PoolSufficesIff | src/Network/Kcp.cpp:127-140 | Packets that fit the mtu never overrun the pool, which is allocated once with 1400 bytes, if and only if the mtu is at most 1400. |
| KcpWire.StoreHeader | src/Network/Kcp.cpp:66-92 | The 24 header bytes are written in their layout and the bytes behind them stay; a buffer that is too short is refused unchanged. |
| LittleEndian.GetOfLe4 | src/Util/Byte.hpp:127-152 | Reading four bytes undoes storing four, up to the truncation to 32 bits. |
| LittleEndian.LeOfGet4 | src/Util/Byte.hpp:127-152 | Storing what was read restores the same four bytes. |
| LittleEndian.GetOfLe2 | src/Util/Byte.hpp:119-139 | Reading two bytes undoes storing two, up to the truncation to 16 bits. |
| LittleEndian.Set4BytesLE | src/Util/Byte.hpp:147-152 | Four bytes change to the value's little-endian form and no other byte does. |
| KcpRtt.FilterTracksExact | src/Network/Kcp.cpp:470-493 | For every run of samples, from the first positive one on, srtt stays within 8 ms and rttval within 11 ms of the exact estimate of sections 2.2 and 2.3 of RFC 6298. |
| KcpRtt.TimerTracksExact | src/Network/Kcp.cpp:470-493 | From the first positive sample on, the retransmission timer stays within 52 ms of the bounded timer of the exact estimate, whatever samples follow. |
| KcpRtt.TimerBounds | src/Network/Kcp.cpp:470-493 | In every run of samples the timer lies in [minrto, 60000] unless it was never set. |
| KcpRtt.NoOverflowIff | src/Network/Kcp.cpp:470-493 | A bound on the samples keeps every sum of every run within 32 bits if and only if it is below 2^28 ms. |
| KcpCongestion.RunIsSound | src/Network/Kcp.cpp:549-581 | Over every run of acknowledgements and flushes: the window is at least 1, the threshold at least 2, and _incr is below one segment past the window. |
| KcpCongestion.IncreaseStep | src/Network/Kcp.cpp:549-581 | One increase adds at most two segments, and ends within the peer's window or changes nothing. |
| KcpCongestion.SlowStartAddsOne | src/Network/Kcp.cpp:555-558 | Below the threshold and the window of the peer each new acknowledgement adds exactly one segment. |
| KcpCongestion.AvoidanceFollowsBytes | src/Network/Kcp.cpp:559-579 | Above the threshold _incr grows by mss^2/_incr and mss/16, and the window follows it in whole segments up to the peer's. |
| KcpCongestion.WindowGrows | src/Network/Kcp.cpp:549-581 | After n acknowledgements below the window of the peer, _cwnd has grown, or _incr by n sixteenths of a segment, so that a bounded number of acknowledgements always adds a segment. |
| KcpCongestion.DecreaseStep | src/Network/Kcp.cpp:783-823 | A decrease keeps the same bounds, also where the sum with the disabled fast-resend limit wraps around 32 bits. |
| KcpCongestion.DecreaseIs | src/Network/Kcp.cpp:783-823 | A loss leaves one segment and half the send window as threshold; a fast retransmission sets the threshold to half the flight and the window to _fastresend more, or to one less where fast resend is off; and without either nothing changes. |
| KcpCongestion.AvoidStep | src/Network/Kcp.cpp:549-581 | The avoidance branch never shrinks the window and adds at most two segments, although it divides and rounds. |
| KcpCongestion.ReducedWindow | src/Network/Kcp.cpp:783-823 | After a fast retransmission the window is at least 1 in both settings: with fast resend off the addition wraps to one below the threshold. |
| KcpTransport.KcpTransport.constructor | src/Network/Kcp.cpp:127-140 | A new endpoint is in the initial state from which all runs start, with an empty pool of 1400 bytes. |
| KcpTransport.KcpTransport.Send | src/Network/Kcp.cpp:146-197 | The message is refused, taken as empty, or appended to the queue as its fragments, as the verified transition says; nothing else changes. |
| KcpTransport.KcpTransport.Input | src/Network/Kcp.cpp:199-297 | Reading a datagram from the byte level up is the verified input transition on the whole endpoint, the one of InputTells; it needs only what PopLoopIsSafe proves of every reachable state. |
| KcpTransport.KcpTransport.ReadPackets | src/Network/Kcp.cpp:219-278 | The packet loop stops at the first packet it cannot parse and treats the others in order, with the effect that InputTells adds up. |
| KcpTransport.KcpTransport.OnData | src/Network/Kcp.cpp:317-352 | Ordering and handing over agree with the transition that OnDataOk and InputReceives are about, and the window is announced again as TellIsOwedIff says. |
| KcpTransport.KcpTransport.TakeMessage | src/Network/Kcp.cpp:329-348 | The inner pop loop ends with one message handed over and a shorter queue, and never pops an empty queue. |
| KcpTransport.KcpTransport.PeekSize | src/Network/Kcp.cpp:354-375 | The size of the message at the front of the queue, 0 while it is incomplete. |
| KcpTransport.KcpTransport.SortRecvBuf | src/Network/Kcp.cpp:377-401 | The loop that moves segments while they continue rcv_nxt computes the transition of SortRecvBufOk. |
| KcpTransport.KcpTransport.SortSendQueue | src/Network/Kcp.cpp:403-438 | The loop that numbers fragments below the 32-bit end of the window computes the transition of SortSendQueueOk, NumbersInOrder and SendWindowIs. |
| KcpTransport.KcpTransport.UpdateRtt | src/Network/Kcp.cpp:470-493 | The fields change as the filter of FilterTracksExact says. |
| KcpTransport.KcpTransport.DropCacheByUna | src/Network/Kcp.cpp:495-510 | The loop over the list drops exactly what DropBelowKeeps says and moves snd_una to the new head. |
| KcpTransport.KcpTransport.DropCacheByAck | src/Network/Kcp.cpp:512-529 | The search with early exit removes exactly what EraseSnKeeps says and moves snd_una. |
| KcpTransport.KcpTransport.UpdateFastAck | src/Network/Kcp.cpp:531-547 | The loop with its early exit counts skips exactly as UpdateFastAckCounts says. |
| KcpTransport.KcpTransport.IncreaseCwnd | src/Network/Kcp.cpp:549-581 | The loop-free code with its 32-bit wrap-arounds computes the step of IncreaseStep, SlowStartAddsOne and AvoidanceFollowsBytes. |
| KcpTransport.KcpTransport.HandleCmdPush | src/Network/Kcp.cpp:595-629 | The forward search for the place inserts as InsertSortedKeeps says, and every segment below the 32-bit end of the window is acknowledged, new or repeated. |
| KcpTransport.KcpTransport.DecreaseCwnd | src/Network/Kcp.cpp:783-823 | The code computes the step of DecreaseIs. |
| KcpTransport.KcpTransport.SendAckList | src/Network/Kcp.cpp:720-734 | The list is emptied into acknowledgement packets that carry rcv_nxt and the free window, in order. |
| KcpTransport.KcpTransport.SendProbePacket | src/Network/Kcp.cpp:736-776 | The probe timer advances by its own reading of the clock as AsksWhenDue says, and the requested probes go out with whatever their unset fields hold. |
| KcpTransport.KcpTransport.SendSendQueue | src/Network/Kcp.cpp:646-718 | Exactly the segments that are new, overdue or skipped often enough go out, the others stay as they are, and the window reacts: TurnWrites, TurnKeeps and WindowAfterTurn say which. |
| KcpTransport.KcpTransport.SendPacket | src/Network/Kcp.cpp:891-904 | The packet is copied into the fixed pool behind what is there, or behind a flush when the mtu would be exceeded, as in PackingRoundTrip; it must fit the 1400 bytes, as it does exactly for the mtus of PoolSufficesIff. |
| KcpTransport.KcpTransport.Update | src/Network/Kcp.cpp:640-644 | The timer turn, with one clock reading for the probe timer and one for the segments, is the verified update transition on the whole endpoint, the one of TurnWrites and TurnKeeps, and leaves no packet in the pool; it needs only what PoolIsSafe proves of every reachable state. |
| RbTree.Tree.Add | src/win32/wepoll.c:1825-1885 | The node is added exactly when its key was absent; the heap is again a red-black tree in search order with correct parent links, its key set grown by that key. Otherwise nothing changes. |
| RbTree.Tree.Remove | src/win32/wepoll.c:1887-1982 | Exactly that node leaves; the other nodes keep their order and keys, and the heap is again a red-black tree with correct parent links. |
| RbTree.Tree.Find | src/win32/wepoll.c:1984-1995 | Returns the node with the key if and only if the key is in the tree. |
| RbTree.Tree.RotateLeft | src/win32/wepoll.c:1796-1823 | The pointers of the whole tree, parent links included, change to those of the rotated shape at that place. |
| RbTree.Tree.RotateRight | src/win32/wepoll.c:1796-1823 | The mirror image of the same. |
| RbTree.Tree.RebalanceInsert | src/win32/wepoll.c:1833-1882 | The pointer loop after an insertion ends in the tree that the verified fix-up of the shape gives. |
| RbTree.Tree.Detach | src/win32/wepoll.c:1911-1960 | The node, or its successor in its place, is unlinked: the heap shows the tree with the hole where a black node may be missing. |
| RbTree.Tree.RebalanceRemove | src/win32/wepoll.c:1968-1981 | The pointer loop after a removal ends in the tree that the verified fix-up of the shape gives. |
| RbTree.Tree.Rebalance | src/win32/wepoll.c:1961-1982 | Colours are repaired exactly when a black node went missing, and the tree is that of the shape without the node. |
| RbShape.AddIsCorrect | src/win32/wepoll.c:1825-1885 | Adding keeps the red-black rules and search order, inserts exactly one item, and does nothing when the key is there. |
| RbShape.RemoveIsCorrect | src/win32/wepoll.c:1887-1982 | Removing keeps the red-black rules and exactly the other items in their order. |
| RbShape.InsertFixRedBlack | src/win32/wepoll.c:1833-1882 | The insertion fix-up turns one red-red edge anywhere into a red-black tree. |
| RbShape.RemoveFixRedBlack | src/win32/wepoll.c:1887-1909 | The removal fix-up turns a subtree that is one black node short into a red-black tree with the same items. |
| RbShape.DetachKeepsBalance | src/win32/wepoll.c:1911-1960 | After the node is unlinked, the only damage is one missing black node at the hole. |
| RbShape.RotationKeepsItems | src/win32/wepoll.c:1796-1823 | Rotations keep the items in order. |
| RbShape.HeightIsLogarithmic | src/win32/wepoll.c:1796-1995 | The height is at most twice the binary logarithm of the number of nodes plus one. |
| WepollRuns.NoInterestLost | src/win32/wepoll.c:1538-1551 | In every state of every run each registered socket has a pending poll that covers, and can report, all events it wants (but for EPOLLMSG), or waits in the update queue, or has a cancelled poll whose completion requeues it; which events those are says InterestIsTheLastRequest. |
| WepollInterest.InterestIsTheLastRequest | src/win32/wepoll.c:1538-1551 | In every run a registered socket has the data of its last EPOLL_CTL_ADD or EPOLL_CTL_MOD and wants exactly its events, EPOLLERR and EPOLLHUP, or nothing once a one-shot report came. |
| WepollInterest.NoRequestLost | src/win32/wepoll.c:1594-1653 | In every run, unless a one-shot report came since, a registered socket is queued, or its cancelled poll will requeue it, or its pending poll monitors and can report all that the last epoll_ctl asked for (but for EPOLLMSG). |
| WepollInterest.EveryRequestIsMonitored | src/win32/wepoll.c:1594-1653 | Every run can be continued so that each registered socket has a pending poll for all that its last epoll_ctl asked for, unless a one-shot report came since. |
| WepollInterest.SetEventStores | src/win32/wepoll.c:1538-1551 | Setting events stores every bit that was asked for, EPOLLERR, EPOLLHUP, no other bit, and the data, and touches no other socket. |
| WepollInterest.RegistrationIsExact | src/win32/wepoll.c:1180-1216 | A successful EPOLL_CTL_ADD registers its socket, EPOLL_CTL_DEL and the report of a closed socket end that, and no other step changes who is registered while the system refuses no poll for a closed handle. |
| WepollInterest.UpdateRegisters | src/win32/wepoll.c:1616-1640 | An update ends a registration if and only if it starts a poll and the system finds the handle closed. |
| WepollInterest.NewSockIff | src/win32/wepoll.c:1462-1501 | sock_new succeeds if and only if the handle is valid, has a base socket and is not registered, malloc succeeds, and there is a group with room or a new one. |
| WepollInterest.WaitingThreadsAreServed | src/win32/wepoll.c:1062-1092 | While a thread waits, a successful epoll_ctl leaves no socket waiting for its poll, if the system takes every request; and a wait begins only after the update queue is empty. |
| WepollEvents.MessageIsNeverReported | src/win32/wepoll.c:1553-1592 | The one known event that a covering poll cannot report: no set of AFD events maps to EPOLLMSG. |
| WepollEvents.EventsComeFrom | src/win32/wepoll.c:1574-1592 | For each epoll event, the exact set of AFD events it comes from, and nothing else is ever reported. |
| WepollEvents.MonitorsOnlyUseful | src/win32/wepoll.c:1553-1572 | Besides the closing of the socket, an AFD event is monitored only if some event it yields is wanted. |
| WepollRuns.LifetimesAreSound | src/win32/wepoll.c:1503-1528 | In every run a sock_state is never in both queues, every outstanding poll belongs to one that is still allocated, and a deleted one is kept exactly while its poll is outstanding. |
| WepollRuns.FreedWithoutPoll | src/win32/wepoll.c:1503-1528 | A step frees a sock_state only when no poll of it remains: if it had one, that poll completes in that very step. |
| WepollRuns.BornByMalloc | src/win32/wepoll.c:1462-1501 | Memory that is not a live sock_state becomes one only when malloc returns it, so nothing is freed twice. |
| WepollRuns.GroupsAreSound | src/win32/wepoll.c:838-912 | In every run the group sizes add up to the number of live sock_states, none exceeds 32, and full groups form a prefix of the queue. |
| WepollRuns.EveryInterestIsMonitored | src/win32/wepoll.c:1594-1653 | From every reachable state some continuation leads to a state in which each registered socket has a pending poll for everything it wants. |
| WepollRuns.UpdateShrinks | src/win32/wepoll.c:1044-1060 | A successful update takes its socket out of the queue and keeps the invariant, and a failing one changes nothing: the update loop ends. |
| WepollRuns.OneShotDisarms | src/win32/wepoll.c:1655-1704 | A report carries the user's data and only wanted events, and a one-shot report leaves the socket wanting nothing. |
| WepollRuns.ForceDeleteOk | src/win32/wepoll.c:1503-1536 | A forced deletion frees exactly that sock_state, in any state of a port that is being torn down. |
| WepollRuns.NothingIsLeft | src/win32/wepoll.c:1013-1042 | When tree and deleted queue are empty no sock_state is live, the update queue is empty and every group has size 0, as the assertions of port_delete and poll_group_delete demand. |
| WepollReports.ReportsAreIndependent | src/win32/wepoll.c:1067-1080 | The reports of a wait are those each completion gives for its sock_state as it was before the wait, in order: no completion changes what another reports. |
| WepollReports.CompletionTells | src/win32/wepoll.c:1663-1684 | A cancelled or empty completion brings no event, a failed one EPOLLERR and a successful one the events of its AFD mask; only a successful one can report a close. |
| WepollReports.ReportTells | src/win32/wepoll.c:1655-1704 | In every state of the invariant a completion reports the data and the wanted ones of its events, and nothing if there are none, or the socket was deleted or is reported closed. |
| WepollReports.OneShotReportsOnce | src/win32/wepoll.c:1655-1704 | After a one-shot report no run reports the socket again before epoll_ctl modifies it or its memory is given out anew. |
| WepollInvariant.AcquireIsSound | src/win32/wepoll.c:885-900 | A group with room is found when there is one, a new one is made only when all are full, and full groups stay in front. |
| WepollInvariant.ReleaseIsSound | src/win32/wepoll.c:902-912 | Releasing keeps full groups in front and takes one from that group's count. |
| WepollInvariant.SetEventOk | src/win32/wepoll.c:1538-1551 | Setting events restores coverage of that socket for the mask of SetEventStores, in any state in which only that socket may be uncovered. |
| WepollInvariant.UpdateOk | src/win32/wepoll.c:1594-1653 | An update keeps the invariant whatever the system answers. |
| WepollInvariant.FeedOk | src/win32/wepoll.c:1655-1704 | A completion reaches a live sock_state, frees it exactly when it was deleted or closed, and queues it otherwise. |
| WepollInvariant.DeleteOk | src/win32/wepoll.c:1503-1528 | An unforced deletion keeps the invariant: it frees at once or parks the sock_state until its poll completes. |
| WepollInvariant.SockNewOk | src/win32/wepoll.c:1462-1501 | A new sock_state joins tree and group without disturbing any other, and every error path leaves sockets, tree, update queue and polls as they were. |
| WepollPort.PortState.AcquireGroup | src/win32/wepoll.c:885-900 | The code that looks only at the last group of the queue computes the step of AcquireIsSound. |
| WepollPort.PortState.ReleaseGroup | src/win32/wepoll.c:902-912 | The code computes the step of ReleaseIsSound. |
| WepollPort.PortState.NewSock | src/win32/wepoll.c:1462-1501 | sock_new with all its error paths computes the step of SockNewOk. |
| WepollPort.PortState.DeleteSock | src/win32/wepoll.c:1503-1528 | sock__delete computes the steps of DeleteOk and ForceDeleteOk. |
| WepollPort.PortState.SetEventOf | src/win32/wepoll.c:1538-1551 | sock_set_event computes the step of SetEventOk and SetEventStores. |
| WepollPort.PortState.UpdateSock | src/win32/wepoll.c:1594-1653 | sock_update computes the step of UpdateOk for every state of the poll and every answer of the system. |
| WepollPort.PortState.FeedEvent | src/win32/wepoll.c:1655-1704 | sock_feed_event computes the step of FeedOk, with its report. |
| WepollPort.PortState.UpdateAll | src/win32/wepoll.c:1044-1060 | The update loop ends, and does what the verified recursion over the queue does. |
| WepollPort.PortState.ControlAdd | src/win32/wepoll.c:1180-1193 | EPOLL_CTL_ADD is the verified step on the whole port, keeps the invariant, and succeeds exactly when NewSockIff says. |
| WepollPort.PortState.ControlMod | src/win32/wepoll.c:1195-1206 | EPOLL_CTL_MOD is the verified step on the whole port, keeps the invariant, and succeeds exactly for a registered socket. |
| WepollPort.PortState.ControlDel | src/win32/wepoll.c:1208-1216 | EPOLL_CTL_DEL is the verified step on the whole port, keeps the invariant, and succeeds exactly for a registered socket. |
| WepollPort.PortState.BeginPoll | src/win32/wepoll.c:1082-1092 | The part of port__poll that runs before it releases the lock is the step BeginWait of the runs. |
| WepollPort.PortState.EndPoll | src/win32/wepoll.c:1097-1105 | The part behind the wait feeds every completion, so that port and reports are those of ReportsAreIndependent. |
| WepollPort.PortState.FeedEvents | src/win32/wepoll.c:1067-1080 | The loop over the completions appends each report behind the earlier ones. |
| WepollPort.PortState.DeletePort | src/win32/wepoll.c:1013-1042 | Tearing a port down frees every sock_state and leaves tree, queues and groups empty; its assertions hold. |
| WepollQueue.Queue.Append | src/win32/wepoll.c:1326-1331 | The node stands last, and the pointers form one circle through the head and all nodes. |
| WepollQueue.Queue.Prepend | src/win32/wepoll.c:1319-1324 | The node stands first, with the same circle. |
| WepollQueue.Queue.Remove | src/win32/wepoll.c:1343-1346 | Exactly that node leaves, the others keep their order, and the node forms a circle of its own again. |
| WepollQueue.Queue.MoveToStart | src/win32/wepoll.c:1333-1336 | The node moves to the front and the others keep their order, although its own pointers are stale in between. |
| WepollQueue.Queue.MoveToEnd | src/win32/wepoll.c:1338-1341 | The node moves to the end and the others keep their order. |
| WepollQueue.Queue.First | src/win32/wepoll.c:1311-1313 | The first node, or null exactly when the queue is empty. |
| WepollQueue.Queue.Last | src/win32/wepoll.c:1315-1317 | The last node, or null exactly when the queue is empty. |
| WepollQueue.IsEnqueued | src/win32/wepoll.c:1352-1354 | One pointer comparison decides whether a node is in a circle with others. |
| WepollQueue.RingInserted | src/win32/wepoll.c:1319-1331 | Linking a node in at any place gives a circle through all of them. |
| WepollQueue.RingDropped | src/win32/wepoll.c:1306-1309 | Linking the neighbours of a node gives a circle through the others. |
| WepollReflock.TeardownIsSafe | src/win32/wepoll.c:1387-1417 | In every interleaving: when reflock_unref_and_destroy is done no thread holds a reference, exactly one signal was sent if it had to wait and none otherwise, no assertion fails, and nobody touches the freed node. |
| WepollReflock.NoReferenceAfterDelete | src/win32/wepoll.c:1750-1786 | After ts_tree_del_and_ref took the node out, no thread but the one that did gains a reference. |
| WepollReflock.TeardownCanEnd | src/win32/wepoll.c:1395-1417 | Once a thread closes, some interleaving completes the teardown from wherever the threads are: the closer never waits for a signal that nobody can send. |
| WepollReflock.StepKeeps | src/win32/wepoll.c:1387-1417 | Every atomic step of every thread keeps the relation between the lock word, the references held and the phase of the closer. |
| SendBuffer.BufferSendMsg.Send | src/Network/BufferSock.cpp:208-221 | What the kernel took is a continuation of what it had of these packets, the result is its size or -1 when it took nothing, an interrupted call never ends the loop, and it ends with bytes left only at a refusal; for up to IOV_MAX packets it takes exactly what the answers grant until then. |
| SendBuffer.GrantedIsTaken | src/Network/BufferSock.cpp:208-221 | Answers that refuse nothing and grant at least the size of a list take it whole. |
| SendBuffer.BufferSendMsg.SendOnce | src/Network/BufferSock.cpp:162-206 | One sendmsg, for any number of bytes the kernel takes: sent bytes and remaining bytes together stay the concatenated packets. |
| SendBuffer.BufferSendMsg.ReOffset | src/Network/BufferSock.cpp:223-259 | After a partial write of any size the remaining iovecs hold exactly the unsent bytes, in order, and the packet list is aligned with them again. |
| SendBuffer.BufferSendMsg.constructor | src/Network/BufferSock.cpp:261-277 | At first nothing is sent and the remaining bytes are those of all packets. |
| SendBuffer.BufferSendMsg.SendCompleted | src/Network/BufferSock.cpp:102-116 | Every packet that is left gets one callback, in order, with the given outcome. |
| SendBuffer.BufferSendMsg.Destroy | src/Network/BufferSock.cpp:98-100 | Over the whole life of a list each packet has exactly one callback, in order: success for those that were done, failure for the rest. |
| SendBuffer.BufferSendMsg.DoneIffSent | src/Network/BufferSock.cpp:223-259 | A packet reported as done was sent completely; a packet that has bytes and was not done was not. |
| SendBuffer.FlatOfWhole | src/Network/BufferSock.cpp:261-277 | The iovecs of whole packets hold the concatenation of the packets. |
| SendSocket.Socket.Send | src/Network/Socket.cpp:422-440 | Until an error drops data, the bytes the kernel accepted, then the list being sent, then the waiting packets are exactly all bytes send accepted; an unsent list waits for a write event. A flush of a sendable socket asks the kernel, and if it refuses nothing, or its answers grant what waits, everything is accepted and both caches are empty. |
| SendSocket.Socket.FlushAll | src/Network/Socket.cpp:442-465 | A flush keeps that account; when it succeeds, everything is sent or write interest is registered. On a sendable socket it asks the kernel, leaves a list behind only after a refusal, and for lists that fit one call ends exactly where the answers lead; a socket that is closed or not sendable gives the kernel nothing. |
| SendSocket.Socket.FlushData | src/Network/Socket.cpp:778-898 | The same for the recursive core: bytes move from waiting to sending to the kernel without loss, repetition or reordering, as far as the answers of the kernel grant, and the poller thread goes on until both caches are empty or the kernel refuses. |
| SendSocket.Socket.OnWriteAble | src/Network/Socket.cpp:900-922 | A write event keeps the account, and an unfinished list stays registered. It asks the kernel; without a refusal, or when the answers grant all that is left, both caches end empty, write interest ends and the kernel has everything. |
| SendSocket.Socket.EnableRecv | src/Network/Socket.cpp:940-950 | Switching reception keeps write interest for an unfinished list if and only if nothing changes, the socket is not marked sendable, or there is no such list. |
| SendSocket.ListLosesItsEvent | src/Network/Socket.cpp:940-950 | A history from a new socket in which EnableRecv loses the event: a send without flush, a write event on which the kernel takes a part, and a list is left without write interest. |
| SendSocket.Socket.CloseSock | src/Network/Socket.cpp:478-504 | Closing drops both lists and resets the flags, and the account is marked as broken. |
| SendSocket.Socket.constructor | src/Network/Socket.cpp:277-312 | A new socket has sent nothing and is registered for write events. |
| RingReplicas.ReadersSeeARun | src/Util/RingBuffer.h:286-337 | In every run, clearCache included, what a reader has seen is one gap-free, duplicate-free stretch of the written stream up to its poller's position; what it got from the cache starts at a key frame, or before the first key frame ever. |
| RingAttach.AttachTells | src/Util/RingBuffer.h:315-337 | A reader attached with cache has seen the whole cache of its dispatcher if the GOP limit allows, and otherwise exactly max_gop_size key frames up to the end; it starts at or before the last key frame while that is cached and the limit is at least 1; one attached without cache has seen nothing and starts at the position of the dispatcher. |
| RingAttach.ReadersAreExact | src/Util/RingBuffer.h:320-335 | In every state a step makes a reader known if and only if it attaches it, and removes it if and only if it detaches it. |
| RingReplicas.ReplicasAgree | src/Util/RingBuffer.h:390-437 | In every run without clearCache, running a dispatcher's pending writes on its storage yields the main storage. |
| RingReplicas.NextKeeps | src/Util/RingBuffer.h:286-345 | Every write, task, attach, detach and clearCache keeps all storages and readers true to the written stream. |
| RingReplicas.NextKeepsSync | src/Util/RingBuffer.h:390-437 | Every step other than clearCache keeps every replica in step. |
| RingReplicas.FlushedIsRun | src/Util/RingBuffer.h:105-118 | The GOPs handed to a new reader are the end of the stream, from the start of a GOP on, and as many as FlushedIsEnough says. |
| RingAttach.FlushedIsEnough | src/Util/RingBuffer.h:105-118 | A new reader is handed the whole cache, _size frames, if it has at most max_gop_size GOPs, and otherwise frames with exactly max_gop_size key frames, a key frame first. |
| RingClear.ClearCacheSyncIff | src/Util/RingBuffer.h:341-345 | clearCache comes while a dispatcher, with its pending writes, is in step, and then any writes, tasks, attaches and detaches in any order. While the dispatcher stays registered, its pending writes lead to the main storage again if and only if that was clear, or neither of the two reaches back before the first key frame written since. |
| RingClear.ClearTaskDoesNothing | src/Util/RingBuffer.h:341-345 | In every run a clear task leaves the storage of a registered dispatcher as it is, because a dispatcher without readers is no longer registered. |
| RingClear.NextKeepsOccupied | src/Util/RingBuffer.h:494-499 | Every event keeps each registered dispatcher with at least one reader. |
| RingClear.LedByWrites | src/Util/RingBuffer.h:286-300 | Along every run, clearCache included, a dispatcher that stays is led to exactly what the frames written make of its earlier storage. |
| RingClear.ClearedMeetsIff | src/Util/RingBuffer.h:165-221 | A storage and its cleared copy that are given the same frames are equal in the end if and only if the storage was clear, or neither holds a frame from before the first key frame among them, through every eviction by size and by GOP count. |
| RingClear.ClearCacheCanDiverge | src/Util/RingBuffer.h:441-450 | A run from the new ring, with a reader and one key frame, that ends with no task pending and the dispatcher still holding what the main storage has cleared. |
| RingStorage.WriteKeeps | src/Util/RingBuffer.h:165-201 | After any sequence of writes the cache is a suffix of everything written, a key frame stands only at the head of a GOP, _size is the number of cached frames and at most _max_size, and there are at most max(1, _max_gop_size) GOPs. |
| RingStorage.PopFrontKeeps | src/Util/RingBuffer.h:226-234 | Dropping the oldest GOP leaves a suffix and at least one GOP. |
| RingStorage.EvictKeeps | src/Util/RingBuffer.h:165-201 | Eviction ends within the size limit and only forgets the oldest frames. |
| RingStorage.EvictIsMinimal | src/Util/RingBuffer.h:187-200 | Eviction drops whole GOPs from the front until the size fits and not one more; only a newest GOP that is itself too long clears all. |
| RingStorage.WriteForgetsLittle | src/Util/RingBuffer.h:165-201 | A write ignores its frame exactly while no key frame came since a clear, and otherwise appends it and drops no GOP that the limits on frames and GOPs would let it keep; only a newest GOP that is itself too long clears all. |
| RingStorage.ClearKeeps | src/Util/RingBuffer.h:216-221 | Clearing leaves the empty suffix. |
| RingStorage.RingStorageObject.WriteFrame | src/Util/RingBuffer.h:165-201 | The code keeps the invariant of WriteKeeps for the stream extended by this frame. |
| RingStorage.RingStorageObject.Clone | src/Util/RingBuffer.h:203-212 | A clone has the same cache, flags and limits. |
| RingStorage.RingStorageObject.PopFrontGop | src/Util/RingBuffer.h:226-234 | The code computes the step of PopFrontKeeps. |
| RingStorage.RingStorageObject.constructor | src/Util/RingBuffer.h:140-149 | A new storage holds the empty stream and has at least the minimum size. |
| Sha1Block.TransformBlock | src/Util/SHA1.cpp:104-204 | The sixteen-word circular block with rotated registers computes the compression function of section 6.1.2 of FIPS 180-4, which is defined on the 80-word schedule. |
| Sha1Block.NextSlot | src/Util/SHA1.cpp:51-54 | The word made from four circular slots is the next word of the 80-word schedule (section 6.1.3 refines 6.1.2). |
| Sha1Block.StoreSlot | src/Util/SHA1.cpp:68-97 | Overwriting the oldest slot keeps the last sixteen schedule words in their slots. |
| Sha1Block.ChIsMux | src/Util/SHA1.cpp:61-73 | The program's selection function is Ch. |
| Sha1Block.MajIsOr | src/Util/SHA1.cpp:84-89 | The program's majority function is Maj. |
| Sha1Known.RolMovesBits | src/Util/SHA1.cpp:45-48 | Rotation moves the bit at i to i + n modulo 32, for the three rotations in use. |
| Sha1Known.RoundFunctionsByBit | src/Util/SHA1.cpp:61-97 | Bit by bit Ch selects, Maj is the majority and Parity the sum. |
| Sha1Known.ConstantsAreRoots | src/Util/SHA1.cpp:61-97 | The round constants are the square roots of 2, 3, 5 and 10 in units of 2^-30, rounded down, and the initial value is the standard one. |
| Sha1Block.Transform.R0 | src/Util/SHA1.cpp:61-66 | One round of the standard, with the registers renamed instead of moved. |
| Sha1Block.Transform.R1 | src/Util/SHA1.cpp:68-74 | One round with Ch that also extends the schedule in place. |
| Sha1Block.Transform.R3 | src/Util/SHA1.cpp:84-90 | One round with Maj that also extends the schedule in place. |
| Sha1Stream.Sha1.Update | src/Util/SHA1.cpp:234-250 | Whatever the pieces, the state stands for the whole message: all full blocks are in the digest and the buffer holds the rest. |
| Sha1Stream.Sha1.FinalBin | src/Util/SHA1.cpp:273-316 | The result is the digest of the padded whole message (section 5.1.1 of FIPS 180-4), whatever way it was split, and the object is new again. |
| Sha1Stream.FinalBlocks | src/Util/SHA1.cpp:275-301 | The one or two blocks built at the end are exactly the rest of the message with its padding. |
| Sha1Stream.LengthWords | src/Util/SHA1.cpp:298-300 | Writing the two length words into the block is appending the length in bytes. |
| Md5Stream.Md5.Update | src/Util/MD5.cpp:255-290 | Whatever the pieces, the state stands for the whole message, wherever the block loop ends as LoopEndsIff says. |
| Md5Stream.Md5.Finalize | src/Util/MD5.cpp:302-334 | The digest is that of the padded whole message (sections 3.1 and 3.2 of RFC 1321), and a second call changes nothing. |
| Md5Stream.CounterAdds | src/Util/MD5.cpp:260-263 | The two-word counter stays eight times the length modulo 2^64, through a carry seen by comparison. |
| Md5Stream.IndexOfCount | src/Util/MD5.cpp:257-258 | The position in the buffer can be read off the bit counter. |
| Md5Stream.LoopEndsIff | src/Util/MD5.cpp:270-284 | The 32-bit guard of the block loop stops it behind the last whole block if and only if the last sum does not wrap; only inputs of 2^32 - 64 bytes and more can make it wrap. |
| Md5Stream.LongestInput | src/Util/MD5.cpp:270-284 | The failing input: 2^32 - 1 bytes into an empty buffer, behind whose last whole block the guard still holds. |
| Md5Stream.Md5.AddToCount | src/Util/MD5.cpp:260-263 | The counter words hold eight times the new length. |

## Left out

- KCP stream mode (`mergeSendQueue`), which appends through a buffer operation that does not keep old bytes.
- KCP: an mtu above 1400 (what then happens behind the end of the pool), and `setMtu` or `setWndSize` in the middle of a run.
- KCP `getPacketSize` wrap-around for payloads within 24 bytes of 2^32, the dead-link callback `onErr`, and the retransmission statistic `_xmit`.
- KCP empty datagrams, whose size `BufferRaw::assign` takes from `strlen`.
- KCP `send` with its flush flag is two steps of a run, Submit and then Tick; the hand-over to the poller thread and the timer itself are events of the run.
- KCP datagrams are values once they are given to onWrite; reuse of the pool buffer by the callee is not modelled.
- KCP round-trip samples of 2^28 ms and more: the sums of the filter can then leave 32 bits (NoOverflowIff), and what the wrapped sums give is not modelled.
- KcpProgress.EverythingCanBeDelivered: says that delivery stays possible from every state, not that a fair network makes it happen, because the program gives no bound on losses.
- KCP clock: an event may carry any 32-bit time, also an earlier one than the event before; the safety theorems hold for all of them.
- wepoll: memory layout. The port's tree is a map and its queues are sequences of addresses in `WepollPort`; the heap structures are `RbTree` and `WepollQueue`. One queue node per sock_state is modelled by removal from whichever queue holds it.
- wepoll: `tree_del` and the rotations perform independent pointer assignments in another order in some branches.
- wepoll: the base-socket lookup of Winsock, the completion port itself, time-outs of `port_wait`, and reuse of handle values in the tree of ports.
- WepollRuns.EveryInterestIsMonitored: says that full monitoring stays reachable when the system takes every request, not that it comes about.
- WepollReflock: the lock word is an integer and the keyed event is a rendezvous of two threads; one node, and no spurious failure of system calls.
- WepollReflock.TeardownCanEnd: says that the end of the teardown stays reachable, because nothing bounds how long other threads keep their references.
- Send path: `WSASend` on Windows (which passes the whole vector from its first entry), UDP senders, `sendmmsg`, and discarding of UDP data on errors.
- Send path: interleavings of several threads inside `flushData`, callbacks that call send again, and the clock of the send time-out (a parameter).
- SendBuffer.BufferSendMsg.Send: the kernel's answers are a finite script, behind which it answers "try again".
- SendSocket.Socket.Send: says exactly how much the kernel takes for lists of at most IOV_MAX packets; a longer list goes out in several calls, each of which is offered less than all, and what grants beyond an offer are worth is not modelled. Conservation, and that only a refusal stops it, hold for all lists.
- Send path: `count()` of a completed list, which stays stale, and the asynchronous part of `emitErr`, which is `CloseSock`.
- GOP ring: tasks of a dispatcher that is no longer registered, delegates, messages, reader information and reader-count callbacks; attaching a reader and setting its callback are one step.
- SHA-1: hexadecimal output and reading from files; lengths count modulo 2^64 bits as in the program.
- MD5: the 64 rounds of `transform` (a parameter of the model), the zeroised context after `finalize`, and hexadecimal output.
- Md5Stream.Md5.Update: is proved under the exact loop condition of LoopEndsIff only, because outside it the loop does not stop at the last whole block.
- base64 and the timer queue of EventPoller, which would add easy members only.
- System calls, event loops, DNS, files, TLS, MySQL, the logger, and the glue of sessions and servers.
