/** The wepoll port in its own form: an object whose methods update its queues, its tree, its poll
    groups and the sock_states. Each method is specified by the function of WepollState or WepollRuns
    that says what the operation does. */
module WepollPort {
  import opened WepollEvents
  import opened WepollState
  import opened WepollInvariant
  import opened WepollRuns
  import opened WepollReports
  import opened WepollInterest

  class PortState {
    var socks: map<nat, Sock>
    var sockTree: map<nat, nat>
    var updateQueue: seq<nat>
    var deletedQueue: seq<nat>
    var groupQueue: seq<nat>
    var groupSizes: map<nat, nat>
    ghost var polls: map<nat, bv32>
    var activePollCount: nat

    ghost function View(): Port
      reads this
    {
      Port(socks, sockTree, updateQueue, deletedQueue, groupQueue, groupSizes, polls, activePollCount)
    }

    constructor ()
      ensures View() == NewPort
    {
      socks, sockTree, updateQueue, deletedQueue, groupQueue, groupSizes, activePollCount := map[], map[], [], [], [], map[], 0;
      polls := map[];
    }

    // ---- queues ----

    method QueueRemove(a: nat)
      modifies `updateQueue, `deletedQueue
      ensures View() == Dequeue(old(View()), a)
    {
      updateQueue := Without(updateQueue, a);
      deletedQueue := Without(deletedQueue, a);
    }

    method RequestSocketUpdate(a: nat)
      modifies `updateQueue
      ensures View() == RequestUpdate(old(View()), a)
    {
      if a in updateQueue || a in deletedQueue {
        return;
      }
      updateQueue := updateQueue + [a];
    }

    method CancelSocketUpdate(a: nat)
      modifies `updateQueue, `deletedQueue
      ensures View() == Dequeue(old(View()), a)
    {
      if a !in updateQueue && a !in deletedQueue {
        return;
      }
      QueueRemove(a);
    }

    method AddDeletedSocket(a: nat)
      modifies `deletedQueue
      ensures View() == AddDeleted(old(View()), a)
    {
      if a in updateQueue || a in deletedQueue {
        return;
      }
      deletedQueue := deletedQueue + [a];
    }

    // ---- poll groups ----

    method AcquireGroup(created: Option<nat>) returns (group: Option<nat>)
      requires GroupsAllocated(View())
      modifies `groupQueue, `groupSizes
      ensures (View(), group) == Acquire(old(View()), created)
    {
      group := if groupQueue != [] then Some(groupQueue[|groupQueue| - 1]) else None;
      if group == None || groupSizes[group.value] >= MAX_GROUP_SIZE {
        group := created;
        if group == None {
          return;
        }
        groupQueue := groupQueue + [group.value];
        groupSizes := groupSizes[group.value := 0];
      }
      var g := group.value;
      groupSizes := groupSizes[g := groupSizes[g] + 1];
      if groupSizes[g] == MAX_GROUP_SIZE {
        groupQueue := [g] + Without(groupQueue, g);
      }
    }

    method ReleaseGroup(g: nat)
      requires g in groupSizes && groupSizes[g] > 0
      modifies `groupQueue, `groupSizes
      ensures View() == Release(old(View()), g)
    {
      groupSizes := groupSizes[g := groupSizes[g] - 1];
      groupQueue := Without(groupQueue, g) + [g];
    }

    // ---- sock_state operations ----

    method NewSock(socket: nat, base: bool, newGroup: Option<nat>, memory: Option<nat>) returns (a: Option<nat>)
      requires GroupsAllocated(View())
      modifies `socks, `sockTree, `groupQueue, `groupSizes
      ensures (View(), a) == SockNew(old(View()), socket, base, newGroup, memory)
    {
      hide Acquire, Release;
      if socket == 0 || socket == INVALID_SOCKET || !base {
        return None;
      }
      AcquireKeeps(View(), newGroup);
      var group := AcquireGroup(newGroup);
      if group == None {
        return None;
      }
      a := memory;
      if a != None {
        if socket !in sockTree {
          socks := socks[a.value := Sock(socket, group.value, 0, 0, 0, Idle, false)];
          sockTree := sockTree[socket := a.value];
          return;
        }
        a := None;
      }
      ReleaseGroup(group.value);
    }

    static lemma AcquireKeeps(p: Port, created: Option<nat>)
      requires GroupsAllocated(p)
      ensures var (p', g) := Acquire(p, created); p'.tree == p.tree && p'.socks == p.socks
      ensures var (p', g) := Acquire(p, created); g != None ==> g.value in p'.sizes && p'.sizes[g.value] > 0
    {
    }

    method CancelPollOf(a: nat, ok: bool)
      requires a in socks && socks[a].status == Pending
      modifies `socks
      ensures View() == CancelPoll(old(View()), a, ok)
    {
      if ok {
        socks := socks[a := socks[a].(status := Cancelled, pendingEvents := 0)];
      }
    }

    /** sock__delete. */
    method DeleteSock(a: nat, force: bool, cancelled: bool)
      requires GroupOfSock(View(), a)
      modifies `socks, `sockTree, `updateQueue, `deletedQueue, `groupQueue, `groupSizes
      ensures View() == Delete(old(View()), a, force, cancelled)
    {
      hide Without, Release;
      if !socks[a].deletePending {
        if socks[a].status == Pending {
          CancelPollOf(a, cancelled);
        }
        CancelSocketUpdate(a);
        sockTree := sockTree - {socks[a].socket};
        socks := socks[a := socks[a].(deletePending := true)];
      }
      assert View() == Unregister(old(View()), a, cancelled);
      if force || socks[a].status == Idle {
        CancelSocketUpdate(a);
        ReleaseGroup(socks[a].group);
        socks := socks - {a};
      } else {
        AddDeletedSocket(a);
      }
    }

    method SetEventOf(a: nat, events: bv32, data: nat)
      requires a in socks
      modifies `socks, `updateQueue
      ensures View() == SetEvent(old(View()), a, events, data)
    {
      hide Missing;
      var wanted := events | EPOLLERR | EPOLLHUP;
      socks := socks[a := socks[a].(userEvents := wanted, data := data)];
      if Missing(wanted, socks[a].pendingEvents) != 0 {
        RequestSocketUpdate(a);
      }
    }

    /** sock_update. */
    method UpdateSock(a: nat, answer: Answer) returns (ok: bool)
      requires GroupOfSock(View(), a)
      modifies this
      ensures (View(), ok) == Update(old(View()), a, answer)
    {
      hide Missing, ToAfd, Without, Delete;
      if socks[a].status == Pending && Missing(socks[a].userEvents, socks[a].pendingEvents) == 0 {
      } else if socks[a].status == Pending {
        if !answer.cancelled {
          return false;
        }
        CancelPollOf(a, true);
      } else if socks[a].status == Cancelled {
      } else {
        match answer.poll
        case SocketClosed =>
          DeleteSock(a, false, false);
          return true;
        case PollFailed =>
          return false;
        case Submitted =>
          polls := polls[a := ToAfd(socks[a].userEvents)];
        socks := socks[a := socks[a].(status := Pending, pendingEvents := socks[a].userEvents)];
      }
      CancelSocketUpdate(a);
      return true;
    }

    /** The last part of sock_feed_event. */
    method DeliverEvents(a: nat, occurred: bv32) returns (report: Option<Report>)
      requires a in socks
      modifies `socks
      ensures (View(), report) == Deliver(old(View()), a, occurred)
    {
      hide Common, Rearmed;
      var events := Common(socks[a].userEvents, occurred);
      if events == 0 {
        return None;
      }
      var s := socks[a];
      socks := socks[a := s.(userEvents := Rearmed(s.userEvents))];
      return Some(Report(s.data, events));
    }

    /** sock_feed_event. */
    method FeedEvent(a: nat, c: Completion) returns (report: Option<Report>)
      requires GroupOfSock(View(), a)
      modifies this
      ensures (View(), report) == Feed(old(View()), a, c)
    {
      hide Feed, Without, Delete, Deliver, Enqueued, RequestUpdate, Occurred, ReportsClose;
      FeedParts(View(), a, c);
      polls := polls - {a};
      socks := socks[a := socks[a].(status := Idle, pendingEvents := 0)];
      if socks[a].deletePending {
        DeleteSock(a, false, false);
        return None;
      }
      var closed, events := Classify(c);
      if closed {
        DeleteSock(a, false, false);
        return None;
      }
      RequestSocketUpdate(a);
      report := DeliverEvents(a, events);
    }

    /** The middle of sock_feed_event: what the status of a completion says. */
    method Classify(c: Completion) returns (closed: bool, events: bv32)
      ensures closed == ReportsClose(c) && (!closed ==> events == Occurred(c))
    {
      hide ToEpoll, EPOLLERR, ClosedLocally;
      closed, events := false, 0;
      if c.status == WasCancelled {
      } else if c.status == Failure {
        events := EPOLLERR;
      } else if c.handles < 1 {
      } else if ClosedLocally(c.events) {
        closed := true;
      } else {
        events := ToEpoll(c.events);
      }
    }

    static lemma FeedParts(p: Port, a: nat, c: Completion)
      requires GroupOfSock(p, a)
      ensures var p1 := p.(polls := p.polls - {a}, socks := p.socks[a := p.socks[a].(status := Idle, pendingEvents := 0)]);
              && GroupOfSock(p1, a)
              && Feed(p, a, c) == if p.socks[a].deletePending || ReportsClose(c) then (Delete(p1, a, false, false), None)
                                  else Deliver(RequestUpdate(p1, a), a, Occurred(c))
    {
      hide Delete, Deliver, Occurred, ReportsClose, Enqueued;
    }

    // ---- port operations ----

    /** port__update_events. */
    method UpdateAll(kernel: nat -> Answer) returns (ok: bool)
      requires Inv(View())
      modifies this
      ensures (View(), ok) == UpdateEvents(old(View()), kernel)
    {
      hide Inv, Update;
      while updateQueue != []
        invariant Inv(View()) && UpdateEvents(View(), kernel) == UpdateEvents(old(View()), kernel)
        decreases |updateQueue|
      {
        var a := updateQueue[0];
        UpdateShrinks(View(), a, kernel(a));
        var done := UpdateSock(a, kernel(a));
        if !done {
          return false;
        }
      }
      return true;
    }

    method UpdateAllIfPolling(kernel: nat -> Answer)
      requires Inv(View())
      modifies this
      ensures View() == UpdateIfPolling(old(View()), kernel)
    {
      hide Inv, UpdateEvents;
      if activePollCount > 0 {
        var _ := UpdateAll(kernel);
      }
    }

    method ControlAdd(socket: nat, base: bool, newGroup: Option<nat>, memory: Option<nat>, events: bv32, data: nat, kernel: nat -> Answer)
      returns (ok: bool)
      requires Inv(View()) && (newGroup.Some? ==> newGroup.value !in groupSizes) && (memory.Some? ==> memory.value !in socks)
      modifies this
      ensures Inv(View()) && View() == CtlAdd(old(View()), socket, base, newGroup, memory, events, data, kernel)
      ensures ok <==> AddSucceeds(old(View()), socket, base, newGroup, memory)
    {
      hide Inv, SockNew, SetEvent, UpdateIfPolling, Core, FineBut, AddSucceeds;
      AddSucceedsIff(View(), socket, base, newGroup, memory);
      WepollRuns.NewSock(View(), socket, base, newGroup, memory);
      ghost var p := View();
      var a := NewSock(socket, base, newGroup, memory);
      ghost var p1 := View();
      if a == None {
        return false;
      }
      SetEventOk(p1, a.value, events, data);
      SetEventOf(a.value, events, data);
      UpdateAllIfPolling(kernel);
      return true;
    }

    static lemma AddSucceedsIff(p: Port, socket: nat, base: bool, newGroup: Option<nat>, memory: Option<nat>)
      requires Inv(p) && (newGroup.Some? ==> newGroup.value !in p.sizes) && (memory.Some? ==> memory.value !in p.socks)
      ensures GroupsAllocated(p) && (SockNew(p, socket, base, newGroup, memory).1 != None <==> AddSucceeds(p, socket, base, newGroup, memory))
    {
      hide Inv, SockNew;
      NewSockIff(p, socket, base, newGroup, memory);
    }

    method ControlMod(socket: nat, events: bv32, data: nat, kernel: nat -> Answer) returns (ok: bool)
      requires Inv(View())
      modifies this
      ensures Inv(View()) && View() == CtlMod(old(View()), socket, events, data, kernel)
      ensures ok <==> socket in old(sockTree)
    {
      hide Inv, SetEvent, UpdateIfPolling;
      if socket !in sockTree {
        return false;
      }
      ModIsSetEvent(View(), socket, events, data);
      SetEventOf(sockTree[socket], events, data);
      UpdateAllIfPolling(kernel);
      return true;
    }

    method ControlDel(socket: nat, cancelled: bool) returns (ok: bool)
      requires Inv(View())
      modifies this
      ensures Inv(View()) && View() == CtlDel(old(View()), socket, cancelled)
      ensures ok <==> socket in old(sockTree)
    {
      hide Inv, Delete;
      if socket !in sockTree {
        return false;
      }
      DelIsDelete(View(), socket, cancelled);
      DeleteSock(sockTree[socket], false, cancelled);
      return true;
    }

    /** The part of port__poll before it waits for completions. */
    method BeginPoll(kernel: nat -> Answer) returns (ok: bool)
      requires Inv(View())
      modifies this
      ensures View() == Next(old(View()), BeginWait(kernel)) && ok == UpdateEvents(old(View()), kernel).1
    {
      hide Inv, UpdateEvents;
      ok := UpdateAll(kernel);
      if ok {
        activePollCount := activePollCount + 1;
      }
    }

    /** The port after a wait that got these completions, and what they report. */
    static ghost function Waited(p: Port, completions: seq<(nat, Completion)>): (r: (Port, seq<Report>))
      requires Inv(p) && p.active > 0 && Outstanding(p, completions)
      ensures Inv(r.0) && r.0.polls.Keys == p.polls.Keys - Owners(completions)
    {
      WaitEnds(p);
      SamePolls(p, Next(p, EndWait), completions);
      FeedAllOk(Next(p, EndWait), completions);
      FeedAll(Next(p, EndWait), completions)
    }

    /** The part of port__poll after the wait: what the completions report, in order. */
    method EndPoll(completions: seq<(nat, Completion)>) returns (reports: seq<Report>)
      requires Inv(View()) && activePollCount > 0 && Outstanding(View(), completions)
      modifies this
      ensures var r := Waited(old(View()), completions); View() == r.0 && reports == r.1
    {
      hide Inv, Owners, FeedAll, Outstanding, Next;
      WaitEnds(View());
      activePollCount := activePollCount - 1;
      SamePolls(old(View()), View(), completions);
      reports := FeedEvents(completions);
    }

    /** port__feed_events. */
    method FeedEvents(completions: seq<(nat, Completion)>) returns (reports: seq<Report>)
      requires Inv(View()) && Outstanding(View(), completions)
      modifies this
      ensures var r := FeedAll(old(View()), completions); View() == r.0 && reports == r.1
    {
      hide Inv, Owners, FeedAll, Outstanding;
      ghost var start := View();
      reports := [];
      assert completions[0..] == completions;
      for i := 0 to |completions|
        invariant Inv(View()) && Outstanding(View(), completions[i..])
        invariant FeedAll(start, completions).0 == FeedAll(View(), completions[i..]).0
        invariant FeedAll(start, completions).1 == reports + FeedAll(View(), completions[i..]).1
      {
        reports := FeedHead(completions[i].0, completions[i].1, reports, completions[i..]);
        assert completions[i..][1..] == completions[i + 1..];
      }
      assert completions[|completions|..] == [];
      NothingToFeed(View());
    }

    /** One turn of port__feed_events: a report, if there is one, goes behind the others. */
    method FeedHead(a: nat, c: Completion, earlier: seq<Report>, ghost rest: seq<(nat, Completion)>) returns (reports: seq<Report>)
      requires Inv(View()) && Outstanding(View(), rest) && rest != [] && rest[0] == (a, c)
      modifies this
      ensures Inv(View()) && Outstanding(View(), rest[1..])
      ensures FeedAll(old(View()), rest).0 == FeedAll(View(), rest[1..]).0
      ensures earlier + FeedAll(old(View()), rest).1 == reports + FeedAll(View(), rest[1..]).1
    {
      hide Inv, Owners, FeedAll, Outstanding, Feed;
      FeedFirst(View(), rest);
      var report := FeedEvent(a, c);
      reports := earlier;
      if report != None {
        reports := reports + [report.value];
      }
    }

    static lemma WaitEnds(p: Port)
      requires Inv(p) && p.active > 0
      ensures Next(p, EndWait) == p.(active := p.active - 1)
    {
    }

    static lemma SamePolls(p: Port, q: Port, completions: seq<(nat, Completion)>)
      requires Outstanding(p, completions) && q.polls == p.polls
      ensures Outstanding(q, completions)
    {
    }

    static lemma FeedFirst(p: Port, completions: seq<(nat, Completion)>)
      requires Inv(p) && Outstanding(p, completions) && completions != []
      ensures GroupOfSock(p, completions[0].0)
      ensures var (p1, report) := Feed(p, completions[0].0, completions[0].1);
              && Inv(p1) && Outstanding(p1, completions[1..])
              && FeedAll(p, completions) == (FeedAll(p1, completions[1..]).0, Listed(report) + FeedAll(p1, completions[1..]).1)
    {
      hide Inv, Feed, Owners;
      FeedOk(p, completions[0].0, completions[0].1);
      RestIsPending(p, completions, FeedOne(p, completions[0].0, completions[0].1).0);
    }

    static lemma NothingToFeed(p: Port)
      requires Inv(p)
      ensures Outstanding(p, []) && FeedAll(p, []) == (p, [])
    {
    }

    /** port_delete, once the completion port is closed: everything is freed and its assertions hold. */
    method DeletePort(cancelled: nat -> bool)
      requires Inv(View())
      modifies this
      ensures socks == map[] && sockTree == map[] && updateQueue == [] && deletedQueue == [] && groupQueue == []
    {
      hide TreeOk, QueuesOk, GroupsOk, PollsOk, FineBut, Delete;
      while sockTree != map[]
        invariant Closing(View())
        decreases |socks|
      {
        var socket :| socket in sockTree;
        RegisteredInTree(View(), socket);
        var a := sockTree[socket];
        ForceDeleteOk(View(), a, cancelled(a));
        DeleteSock(a, true, cancelled(a));
      }
      while deletedQueue != []
        invariant Closing(View()) && sockTree == map[]
        decreases |socks|
      {
        var a := deletedQueue[0];
        DeletedIsLive(View(), a);
        ForceDeleteOk(View(), a, cancelled(a));
        DeleteSock(a, true, cancelled(a));
      }
      NothingIsLeft(View());
      while groupQueue != []
        invariant socks == map[] && sockTree == map[] && updateQueue == [] && deletedQueue == []
        invariant forall g | g in groupQueue :: g in groupSizes && groupSizes[g] == 0
      {
        var g := groupQueue[0];
        assert groupSizes[g] == 0;
        groupQueue := groupQueue[1..];
      }
      assert updateQueue == [];
    }

    static lemma RegisteredInTree(p: Port, socket: nat)
      requires TreeOk(p) && socket in p.tree
      ensures Registered(p, p.tree[socket])
    {
    }

    static lemma DeletedIsLive(p: Port, a: nat)
      requires QueuesOk(p) && a in p.deleted
      ensures a in p.socks && p.socks[a].deletePending
    {
    }
  }
}
