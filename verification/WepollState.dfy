/** The state of a wepoll port and, as functions, what each operation does to it. A sock_state or
    poll_group lives at an address: freeing it takes the address out of the map, so that every
    access below also shows that the memory is still allocated. */
module WepollState {
  import opened WepollEvents

  const MAX_GROUP_SIZE: nat := 32
  const INVALID_SOCKET: nat := 0xffff_ffff_ffff_ffff

  datatype Option<T> = None | Some(value: T)

  datatype PollStatus = Idle | Pending | Cancelled

  datatype Sock = Sock(socket: nat, group: nat, data: nat, userEvents: bv32, pendingEvents: bv32, status: PollStatus, deletePending: bool)

  /** `polls` are the requests the kernel still owes a completion for, with the AFD events they monitor. */
  datatype Port = Port(socks: map<nat, Sock>, tree: map<nat, nat>, updates: seq<nat>, deleted: seq<nat>,
                       groups: seq<nat>, sizes: map<nat, nat>, polls: map<nat, bv32>, active: nat)

  const NewPort: Port := Port(map[], map[], [], [], [], map[], map[], 0)

  /** The answers of the operating system to afd_poll and afd_cancel_poll. */
  datatype PollAnswer = Submitted | SocketClosed | PollFailed
  datatype Answer = Answer(poll: PollAnswer, cancelled: bool)

  // ---- Intrusive queues: one node per sock_state ----

  function Position(s: seq<nat>, a: nat): (i: nat)
    requires a in s
    ensures i < |s| && s[i] == a
  {
    if s[0] == a then 0 else 1 + Position(s[1..], a)
  }

  function DropAt(s: seq<nat>, i: nat): seq<nat>
    requires i < |s|
  {
    s[..i] + s[i + 1..]
  }

  function Without(s: seq<nat>, a: nat): seq<nat> {
    if a in s then DropAt(s, Position(s, a)) else s
  }

  predicate Enqueued(p: Port, a: nat) { a in p.updates || a in p.deleted }

  /** queue_remove takes the node out of whichever queue it is in. */
  function Dequeue(p: Port, a: nat): Port {
    p.(updates := Without(p.updates, a), deleted := Without(p.deleted, a))
  }

  function RequestUpdate(p: Port, a: nat): Port {
    if Enqueued(p, a) then p else p.(updates := p.updates + [a])
  }

  function AddDeleted(p: Port, a: nat): Port {
    if Enqueued(p, a) then p else p.(deleted := p.deleted + [a])
  }

  // ---- Poll groups ----

  predicate GroupsAllocated(p: Port) { forall g | g in p.groups :: g in p.sizes }

  /** poll_group_acquire; `created` is what creating a group would return. */
  function Acquire(p: Port, created: Option<nat>): (Port, Option<nat>)
    requires GroupsAllocated(p)
  {
    if p.groups != [] && p.sizes[p.groups[|p.groups| - 1]] < MAX_GROUP_SIZE then
      Join(p, p.groups[|p.groups| - 1])
    else match created
      case None => (p, None)
      case Some(g) => Join(p.(groups := p.groups + [g], sizes := p.sizes[g := 0]), g)
  }

  function Join(p: Port, g: nat): (Port, Option<nat>)
    requires g in p.sizes
  {
    var n := p.sizes[g] + 1;
    var p' := p.(sizes := p.sizes[g := n]);
    (if n == MAX_GROUP_SIZE then p'.(groups := [g] + Without(p.groups, g)) else p', Some(g))
  }

  function Release(p: Port, g: nat): Port
    requires g in p.sizes && p.sizes[g] > 0
  {
    p.(sizes := p.sizes[g := p.sizes[g] - 1], groups := Without(p.groups, g) + [g])
  }

  // ---- sock_state operations ----

  /** sock_new: the new sock_state's address, if everything went well. */
  function SockNew(p: Port, socket: nat, base: bool, newGroup: Option<nat>, memory: Option<nat>): (Port, Option<nat>)
    requires GroupsAllocated(p) && (forall g | g in p.sizes :: p.sizes[g] >= 0)
  {
    if socket == 0 || socket == INVALID_SOCKET || !base then (p, None) else
      match Acquire(p, newGroup)
      case (p1, None) => (p1, None)
      case (p1, Some(g)) =>
        if memory == None || socket in p1.tree then (Release(p1, g), None)
        else
          var a := memory.value;
          (p1.(socks := p1.socks[a := Sock(socket, g, 0, 0, 0, Idle, false)], tree := p1.tree[socket := a]), Some(a))
  }

  function CancelPoll(p: Port, a: nat, ok: bool): Port
    requires a in p.socks && p.socks[a].status == Pending
  {
    if ok then p.(socks := p.socks[a := p.socks[a].(status := Cancelled, pendingEvents := 0)]) else p
  }

  /** The first half of sock__delete: out of the update queue and the tree. */
  function Unregister(p: Port, a: nat, cancelled: bool): (p': Port)
    requires a in p.socks
    ensures a in p'.socks
  {
    if p.socks[a].deletePending then p else
      var p1 := Dequeue(if p.socks[a].status == Pending then CancelPoll(p, a, cancelled) else p, a);
      p1.(tree := p1.tree - {p.socks[a].socket}, socks := p1.socks[a := p1.socks[a].(deletePending := true)])
  }

  predicate GroupOfSock(p: Port, a: nat) {
    a in p.socks && p.socks[a].group in p.sizes && p.sizes[p.socks[a].group] > 0
  }

  function Free(p: Port, a: nat): Port
    requires GroupOfSock(p, a)
  {
    var p1 := Release(Dequeue(p, a), p.socks[a].group);
    p1.(socks := p1.socks - {a})
  }

  /** sock__delete. */
  function Delete(p: Port, a: nat, force: bool, cancelled: bool): Port
    requires GroupOfSock(p, a)
  {
    var p1 := Unregister(p, a, cancelled);
    if force || p1.socks[a].status == Idle then Free(p1, a) else AddDeleted(p1, a)
  }

  /** sock_set_event: EPOLLERR and EPOLLHUP are always wanted. */
  function SetEvent(p: Port, a: nat, events: bv32, data: nat): Port
    requires a in p.socks
  {
    var wanted := events | EPOLLERR | EPOLLHUP;
    var p1 := p.(socks := p.socks[a := p.socks[a].(userEvents := wanted, data := data)]);
    if Missing(wanted, p.socks[a].pendingEvents) != 0 then RequestUpdate(p1, a) else p1
  }

  /** sock_update; false when an error of the system is passed on. */
  function Update(p: Port, a: nat, answer: Answer): (Port, bool)
    requires GroupOfSock(p, a)
  {
    var s := p.socks[a];
    match s.status
    case Pending =>
      if Missing(s.userEvents, s.pendingEvents) == 0 then (Dequeue(p, a), true)
      else if answer.cancelled then (Dequeue(CancelPoll(p, a, true), a), true)
      else (p, false)
    case Cancelled => (Dequeue(p, a), true)
    case Idle =>
      match answer.poll
      case PollFailed => (p, false)
      case SocketClosed => (Delete(p, a, false, false), true)
      case Submitted =>
        var p1 := p.(socks := p.socks[a := s.(status := Pending, pendingEvents := s.userEvents)],
                     polls := p.polls[a := ToAfd(s.userEvents)]);
        (Dequeue(p1, a), true)
  }

  /** The I/O status block and poll info of a completed poll. */
  datatype Status = Success | WasCancelled | Failure
  datatype Completion = Completion(status: Status, handles: nat, events: bv32)
  datatype Report = Report(data: nat, events: bv32)

  predicate ReportsClose(c: Completion) {
    c.status == Success && c.handles >= 1 && ClosedLocally(c.events)
  }

  predicate ClosedLocally(events: bv32) { events & AFD_LOCAL_CLOSE != 0 }

  /** The events a completion yields. */
  function Occurred(c: Completion): bv32 {
    match c.status
    case WasCancelled => 0
    case Failure => EPOLLERR
    case Success => if c.handles < 1 then 0 else ToEpoll(c.events)
  }

  /** Those of them that the user asked for. */
  function Reported(wanted: bv32, c: Completion): bv32 { Common(wanted, Occurred(c)) }

  function Common(wanted: bv32, occurred: bv32): bv32 { wanted & occurred }

  /** EPOLLONESHOT turns off all events once one is reported. */
  function Rearmed(wanted: bv32): bv32 { if wanted & EPOLLONESHOT != 0 then 0 else wanted }

  /** The last part of sock_feed_event: the report, after which EPOLLONESHOT disarms the socket. */
  function Deliver(p: Port, a: nat, occurred: bv32): (Port, Option<Report>)
    requires a in p.socks
  {
    var s := p.socks[a];
    var events := Common(s.userEvents, occurred);
    if events == 0 then (p, None)
    else (p.(socks := p.socks[a := s.(userEvents := Rearmed(s.userEvents))]), Some(Report(s.data, events)))
  }

  /** sock_feed_event on the completion of the poll of the sock_state at a. */
  function Feed(p: Port, a: nat, c: Completion): (Port, Option<Report>)
    requires GroupOfSock(p, a)
  {
    var p1 := p.(polls := p.polls - {a}, socks := p.socks[a := p.socks[a].(status := Idle, pendingEvents := 0)]);
    if p1.socks[a].deletePending || ReportsClose(c) then (Delete(p1, a, false, false), None)
    else Deliver(RequestUpdate(p1, a), a, Occurred(c))
  }
}
