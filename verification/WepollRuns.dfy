/** The operations of a wepoll port, and what holds in every run of them. */
module WepollRuns {
  import opened WepollEvents
  import opened WepollState
  import opened WepollInvariant

  // ---- port operations ----

  /** port__update_events: sock_update for the head of the queue until the queue is empty or an
      update fails. `kernel` holds the answers of the system. */
  ghost function UpdateEvents(p: Port, kernel: nat -> Answer): (r: (Port, bool))
    requires Inv(p)
    ensures Inv(r.0) && (r.1 ==> r.0.updates == [])
    decreases |p.updates|
  {
    if p.updates == [] then (p, true)
    else
      var a := p.updates[0];
      UpdateShrinks(p, a, kernel(a));
      var (p', ok) := Update(p, a, kernel(a));
      if ok then UpdateEvents(p', kernel) else (p', false)
  }

  /** A successful update shortens the queue, which is why the loop ends. */
  lemma UpdateShrinks(p: Port, a: nat, answer: Answer)
    requires Inv(p) && a in p.updates
    ensures GroupOfSock(p, a)
    ensures var (p', ok) := Update(p, a, answer);
            && Inv(p') && (ok ==> |p'.updates| == |p.updates| - 1) && (!ok ==> p' == p)
            && (forall b | b in p.polls :: b in p'.polls) && p'.socks.Keys <= p.socks.Keys
  {
    hide Inv, Without;
    assert Distinct(p.updates) by { InvQueues(p); }
    UpdateOk(p, a, answer);
    WithoutKeeps(p.updates, a);
  }

  lemma InvQueues(p: Port)
    requires Inv(p)
    ensures Distinct(p.updates)
  {
  }

  ghost function UpdateIfPolling(p: Port, kernel: nat -> Answer): (p': Port)
    requires Inv(p)
    ensures Inv(p')
  {
    if p.active > 0 then UpdateEvents(p, kernel).0 else p
  }

  ghost function CtlAdd(p: Port, socket: nat, base: bool, newGroup: Option<nat>, memory: Option<nat>, events: bv32, data: nat,
                        kernel: nat -> Answer): (p': Port)
    requires Inv(p) && (newGroup.Some? ==> newGroup.value !in p.sizes) && (memory.Some? ==> memory.value !in p.socks)
    ensures Inv(p')
  {
    SockNewOk(p, socket, base, newGroup, memory);
    var (p1, a) := SockNew(p, socket, base, newGroup, memory);
    if a == None then p1
    else
      SetEventOk(p1, a.value, events, data);
      UpdateIfPolling(SetEvent(p1, a.value, events, data), kernel)
  }

  ghost function CtlMod(p: Port, socket: nat, events: bv32, data: nat, kernel: nat -> Answer): (p': Port)
    requires Inv(p)
    ensures Inv(p')
  {
    if socket !in p.tree then p
    else
      SetEventOk(p, p.tree[socket], events, data);
      UpdateIfPolling(SetEvent(p, p.tree[socket], events, data), kernel)
  }

  ghost function CtlDel(p: Port, socket: nat, cancelled: bool): (p': Port)
    requires Inv(p)
    ensures Inv(p')
  {
    if socket !in p.tree then p
    else
      DeleteOk(p, p.tree[socket], cancelled);
      Delete(p, p.tree[socket], false, cancelled)
  }

  // ---- runs ----

  /** port_ctl with its three commands, and port_wait cut where it lets go of the port's lock: before
      and after the wait for completions. Every thread does any of these at any time. */
  datatype Event =
    | Add(socket: nat, base: bool, newGroup: Option<nat>, memory: Option<nat>, events: bv32, data: nat, kernel: nat -> Answer)
    | Mod(socket: nat, events: bv32, data: nat, kernel: nat -> Answer)
    | Del(socket: nat, cancelled: bool)
    | BeginWait(kernel: nat -> Answer)
    | EndWait
    | Complete(a: nat, c: Completion)
    | LeaveWait(kernel: nat -> Answer)

  /** Memory that malloc returns is not in use, and a poll completes once. */
  ghost predicate Enabled(p: Port, e: Event) {
    match e
    case Add(_, _, newGroup, memory, _, _, _) =>
      (newGroup.Some? ==> newGroup.value !in p.sizes) && (memory.Some? ==> memory.value !in p.socks)
    case EndWait => p.active > 0
    case Complete(a, _) => a in p.polls
    case _ => true
  }

  ghost function Next(p: Port, e: Event): (p': Port)
    requires Inv(p) && Enabled(p, e)
    ensures Inv(p')
  {
    match e
    case Add(socket, base, newGroup, memory, events, data, kernel) => CtlAdd(p, socket, base, newGroup, memory, events, data, kernel)
    case Mod(socket, events, data, kernel) => CtlMod(p, socket, events, data, kernel)
    case Del(socket, cancelled) => CtlDel(p, socket, cancelled)
    case BeginWait(kernel) =>
      var (p1, ok) := UpdateEvents(p, kernel);
      if ok then Counted(p1, p1.active + 1) else p1
    case EndWait => Counted(p, p.active - 1)
    case Complete(a, c) => FeedOk(p, a, c); Feed(p, a, c).0
    case LeaveWait(kernel) => UpdateIfPolling(p, kernel)
  }

  ghost function Counted(p: Port, active: nat): (p': Port)
    requires Inv(p)
    ensures Inv(p')
  {
    var p' := p.(active := active);
    ActiveFrame(p, p');
    p'
  }

  lemma ActiveFrame(p: Port, p': Port)
    requires Inv(p) && p' == p.(active := p'.active)
    ensures Inv(p')
  {
    hide TreeOk, PollsOk, GroupsOk, QueuesOk, Missing;
    IdentityFrame(p, p');
    QueueFrame(p, p.(updates := p.updates, deleted := p.deleted));
    assert PollsOk(p') by { PollsFrame(p, p'); }
  }

  /** What a step reports to the user. */
  ghost function Told(p: Port, e: Event): Option<Report>
    requires Inv(p) && Enabled(p, e)
  {
    if e.Complete? then FeedOk(p, e.a, e.c); Feed(p, e.a, e.c).1 else None
  }

  ghost predicate Possible(p: Port, es: seq<Event>)
    requires Inv(p)
    decreases |es|
  {
    es == [] || (Enabled(p, es[0]) && Possible(Next(p, es[0]), es[1..]))
  }

  ghost function Run(p: Port, es: seq<Event>): (p': Port)
    requires Inv(p) && Possible(p, es)
    ensures Inv(p')
    decreases |es|
  {
    if es == [] then p else Run(Next(p, es[0]), es[1..])
  }

  lemma NewPortIsFine()
    ensures Inv(NewPort)
  {
  }

  /** The states of all runs from a new port. */
  ghost predicate Reachable(p: Port) {
    NewPortIsFine();
    exists es :: Possible(NewPort, es) && p == Run(NewPort, es)
  }

  /** In every run no interest is lost: a registered socket is queued for an update, or its cancelled
      poll will requeue it, or the kernel monitors every AFD event that its events need, and what it
      monitors can report every known event that the user wants, except EPOLLMSG. */
  lemma NoInterestLost(p: Port, a: nat)
    requires Reachable(p) && Registered(p, a)
    ensures || a in p.updates
            || (p.socks[a].status == Cancelled && a in p.polls)
            || (a in p.polls && ToAfd(p.socks[a].userEvents) & !p.polls[a] == 0 && Reportable(p.socks[a].userEvents, p.polls[a]))
  {
    hide ToAfd, Reportable, Run, Possible, TreeOk, QueuesOk, GroupsOk, KNOWN, Missing;
    NewPortIsFine();
    assert Fine(p, a) && PollsOk(p);
    if a !in p.updates && p.socks[a].status == Pending {
      CoveredPollMonitors(p.socks[a].userEvents, p.socks[a].pendingEvents);
      CoveredPollReports(p.socks[a].userEvents, p.socks[a].pendingEvents);
    }
  }

  /** In every run: a sock_state is in the deleted queue exactly when it is deleted but not yet freed,
      then it waits for its poll, and it is in no other queue; polls belong to live sock_states. */
  lemma LifetimesAreSound(p: Port, a: nat)
    requires Reachable(p)
    ensures && !(a in p.updates && a in p.deleted)
            && (a in p.polls ==> a in p.socks)
            && (a in p.deleted <==> a in p.socks && p.socks[a].deletePending)
            && (a in p.deleted ==> a in p.polls)
  {
    hide ToAfd, Run, Possible, Missing, TreeOk, GroupsOk;
    NewPortIsFine();
    assert a in p.socks ==> Fine(p, a);
  }

  ghost function Sum(groups: seq<nat>, sizes: map<nat, nat>): nat
    requires forall g | g in groups :: g in sizes
  {
    if groups == [] then 0 else sizes[groups[0]] + Sum(groups[1..], sizes)
  }

  ghost function InGroups(p: Port, groups: seq<nat>): set<nat> { set a | a in p.socks && p.socks[a].group in groups }

  lemma {:induction false} SizesCount(p: Port, groups: seq<nat>)
    requires Distinct(groups) && (forall g | g in groups :: g in p.sizes && p.sizes[g] == |Members(p, g)|)
    ensures Sum(groups, p.sizes) == |InGroups(p, groups)|
  {
    if groups == [] {
      assert InGroups(p, groups) == {};
    } else {
      var g, rest := groups[0], groups[1..];
      assert forall h | h in rest :: h in groups;
      SizesCount(p, rest);
      OneGroupMore(p, groups);
    }
  }

  lemma OneGroupMore(p: Port, groups: seq<nat>)
    requires Distinct(groups) && groups != []
    ensures InGroups(p, groups) == Members(p, groups[0]) + InGroups(p, groups[1..])
    ensures Members(p, groups[0]) !! InGroups(p, groups[1..])
  {
  }

  /** In every run the group sizes add up to the number of live sock_states, no group has more than
      32 of them, and full groups come first. */
  lemma GroupsAreSound(p: Port)
    requires Reachable(p)
    ensures GroupsAllocated(p) && Sum(p.groups, p.sizes) == |p.socks| && FullFirst(p.groups, p.sizes)
    ensures forall g | g in p.groups :: p.sizes[g] <= MAX_GROUP_SIZE
  {
    hide Run, Possible, TreeOk, QueuesOk, PollsOk;
    NewPortIsFine();
    SizesCount(p, p.groups);
    assert InGroups(p, p.groups) == p.socks.Keys;
  }

  // ---- when memory is freed ----

  /** A step frees a sock_state only when its poll, if it had one, completes in that very step. */
  lemma FreedWithoutPoll(p: Port, e: Event, a: nat)
    requires Inv(p) && Enabled(p, e) && a in p.socks && a !in Next(p, e).socks
    ensures a !in Next(p, e).polls && (a in p.polls ==> e.Complete? && e.a == a)
  {
    hide Next, Run, Possible, TreeOk, QueuesOk, GroupsOk, FineBut, ToAfd;
    StepEffect(p, e, a);
    assert PollsOk(Next(p, e));
  }

  /** Memory that is not a live sock_state becomes one only when malloc returns it. */
  lemma BornByMalloc(p: Port, e: Event, a: nat)
    requires Inv(p) && Enabled(p, e) && a !in p.socks && a in Next(p, e).socks
    ensures e.Add? && e.memory == Some(a)
  {
    hide Next;
    StepEffect(p, e, a);
  }

  /** Only its completion ends a poll, and only malloc brings new memory into use. */
  lemma StepEffect(p: Port, e: Event, a: nat)
    requires Inv(p) && Enabled(p, e)
    ensures a in p.polls && !(e.Complete? && e.a == a) ==> a in Next(p, e).polls
    ensures a in Next(p, e).socks ==> a in p.socks || (e.Add? && e.memory == Some(a))
  {
    hide Inv, CtlAdd, CtlMod, CtlDel, Feed, UpdateEvents;
    match e
    case Add(socket, base, newGroup, memory, events, data, kernel) => AddEffect(p, socket, base, newGroup, memory, events, data, kernel, a);
    case Mod(socket, events, data, kernel) => ModEffect(p, socket, events, data, kernel, a);
    case Del(socket, cancelled) => DelEffect(p, socket, cancelled);
    case BeginWait(kernel) => UpdatesKeepPolls(p, kernel, a);
    case EndWait =>
    case Complete(b, c) => FeedKeys(p, b, c);
    case LeaveWait(kernel) => UpdatesKeepPolls(p, kernel, a);
  }

  lemma AddEffect(p: Port, socket: nat, base: bool, newGroup: Option<nat>, memory: Option<nat>, events: bv32, data: nat,
                  kernel: nat -> Answer, a: nat)
    requires Inv(p) && (newGroup.Some? ==> newGroup.value !in p.sizes) && (memory.Some? ==> memory.value !in p.socks)
    ensures var p' := CtlAdd(p, socket, base, newGroup, memory, events, data, kernel);
            (a in p.polls ==> a in p'.polls) && (a in p'.socks ==> a in p.socks || memory == Some(a))
  {
    hide Inv, SockNew, SetEvent, UpdateEvents, Core, FineBut;
    NewSock(p, socket, base, newGroup, memory);
    var (p1, b) := SockNew(p, socket, base, newGroup, memory);
    if b != None {
      SetEventOk(p1, b.value, events, data);
      SetEventPolls(p1, b.value, events, data);
      UpdatesKeepPolls(SetEvent(p1, b.value, events, data), kernel, a);
    }
  }

  lemma ModEffect(p: Port, socket: nat, events: bv32, data: nat, kernel: nat -> Answer, a: nat)
    requires Inv(p)
    ensures var p' := CtlMod(p, socket, events, data, kernel); (a in p.polls ==> a in p'.polls) && p'.socks.Keys <= p.socks.Keys
  {
    hide Inv, SetEvent, UpdateEvents;
    if socket in p.tree {
      ModIsSetEvent(p, socket, events, data);
      SetEventPolls(p, p.tree[socket], events, data);
      UpdatesKeepPolls(SetEvent(p, p.tree[socket], events, data), kernel, a);
    }
  }

  lemma DelEffect(p: Port, socket: nat, cancelled: bool)
    requires Inv(p)
    ensures CtlDel(p, socket, cancelled).polls == p.polls && CtlDel(p, socket, cancelled).socks.Keys <= p.socks.Keys
  {
    hide Inv, Delete;
    if socket in p.tree {
      DelIsDelete(p, socket, cancelled);
    }
  }

  lemma ModIsSetEvent(p: Port, socket: nat, events: bv32, data: nat)
    requires Inv(p) && socket in p.tree
    ensures p.tree[socket] in p.socks && Registered(p, p.tree[socket]) && Inv(SetEvent(p, p.tree[socket], events, data))
  {
    SetEventOk(p, p.tree[socket], events, data);
  }

  lemma DelIsDelete(p: Port, socket: nat, cancelled: bool)
    requires Inv(p) && socket in p.tree
    ensures GroupOfSock(p, p.tree[socket])
    ensures var p' := Delete(p, p.tree[socket], false, cancelled); Inv(p') && p'.polls == p.polls && p'.socks.Keys <= p.socks.Keys
  {
    DeleteOk(p, p.tree[socket], cancelled);
  }

  lemma SetEventPolls(p: Port, a: nat, events: bv32, data: nat)
    requires a in p.socks
    ensures SetEvent(p, a, events, data).polls == p.polls && SetEvent(p, a, events, data).socks.Keys == p.socks.Keys
  {
  }

  lemma {:induction false} UpdatesKeepPolls(p: Port, kernel: nat -> Answer, a: nat)
    requires Inv(p)
    ensures var p' := UpdateEvents(p, kernel).0; p'.socks.Keys <= p.socks.Keys && (a in p.polls ==> a in p'.polls)
    decreases |p.updates|
  {
    hide Inv, Update;
    if p.updates != [] {
      var b := p.updates[0];
      UpdateShrinks(p, b, kernel(b));
      var (p', ok) := Update(p, b, kernel(b));
      if ok {
        UpdatesKeepPolls(p', kernel, a);
      }
    }
  }

  lemma NewSock(p: Port, socket: nat, base: bool, newGroup: Option<nat>, memory: Option<nat>)
    requires Inv(p) && (newGroup.Some? ==> newGroup.value !in p.sizes) && (memory.Some? ==> memory.value !in p.socks)
    ensures GroupsAllocated(p)
    ensures var (p', a) := SockNew(p, socket, base, newGroup, memory);
            && p'.polls == p.polls && (a == None ==> Inv(p') && p'.socks.Keys == p.socks.Keys)
            && (a != None ==> && a == memory && Core(p') && FineBut(p', a) && Registered(p', a.value)
                              && p'.socks.Keys == p.socks.Keys + {a.value})
  {
    hide SockNew, TreeOk, QueuesOk, PollsOk, FineBut, Registered;
    SockNewOk(p, socket, base, newGroup, memory);
  }

  lemma FeedKeys(p: Port, a: nat, c: Completion)
    requires Inv(p) && a in p.polls
    ensures GroupOfSock(p, a) && Feed(p, a, c).0.socks.Keys <= p.socks.Keys && Feed(p, a, c).0.polls == p.polls - {a}
  {
    FeedOk(p, a, c);
  }


  // ---- every interest is monitored in the end ----

  ghost predicate Reaches(p: Port, q: Port)
    requires Inv(p)
  {
    exists es :: Possible(p, es) && q == Run(p, es)
  }

  lemma ReachesItself(p: Port)
    requires Inv(p)
    ensures Reaches(p, p)
  {
    assert Possible(p, []) && Run(p, []) == p;
  }

  lemma ReachesAfter(p: Port, e: Event, q: Port)
    requires Inv(p) && Enabled(p, e) && Reaches(Next(p, e), q)
    ensures Reaches(p, q)
  {
    hide Next, Inv, Enabled;
    var es :| Possible(Next(p, e), es) && q == Run(Next(p, e), es);
    var all := [e] + es;
    assert all[0] == e && all[1..] == es;
    assert Possible(p, all) && Run(p, all) == q;
  }

  /** The system takes every request. */
  ghost function Willing(a: nat): Answer { Answer(Submitted, true) }

  ghost predicate Polled(s: Sock) { s.status == Pending && Missing(s.userEvents, s.pendingEvents) == 0 }

  ghost predicate AllPolled(p: Port) { forall a | a in p.socks && !p.socks[a].deletePending :: Polled(p.socks[a]) }

  /** No pending poll lacks a wanted event. */
  ghost predicate NoStale(p: Port) {
    forall a | a in p.socks && !p.socks[a].deletePending && p.socks[a].status == Pending :: Polled(p.socks[a])
  }

  ghost function CancelledOnes(p: Port): set<nat> { set a | a in p.socks && !p.socks[a].deletePending && p.socks[a].status == Cancelled }

  /** What sock_update does to the sock_state when the system is willing. */
  ghost function Updated(s: Sock): Sock {
    match s.status
    case Idle => s.(status := Pending, pendingEvents := s.userEvents)
    case Pending => if Missing(s.userEvents, s.pendingEvents) == 0 then s else s.(status := Cancelled, pendingEvents := 0)
    case Cancelled => s
  }

  lemma WillingEffect(p: Port, a: nat)
    requires GroupOfSock(p, a)
    ensures var (p', ok) := Update(p, a, Willing(a));
            ok && p'.tree == p.tree && p'.socks == p.socks[a := Updated(p.socks[a])]
  {
    hide Missing, ToAfd, Without, Delete;
  }

  lemma UpdatedKeeps(p: Port, a: nat, p': Port)
    requires a in p.socks && p'.socks == p.socks[a := Updated(p.socks[a])] && NoStale(p) && CancelledOnes(p) == {}
    requires !p.socks[a].deletePending
    ensures NoStale(p') && CancelledOnes(p') == {}
  {
    NothingMissing(p.socks[a].userEvents);
    hide Missing;
    assert forall b | b in p.socks :: b !in CancelledOnes(p);
  }

  lemma WillingUpdate(p: Port, a: nat)
    requires Inv(p) && a in p.updates
    ensures GroupOfSock(p, a)
    ensures var (p', ok) := Update(p, a, Willing(a));
            && ok && p'.tree == p.tree && (NoStale(p) && CancelledOnes(p) == {} ==> NoStale(p') && CancelledOnes(p') == {})
  {
    hide NoStale, CancelledOnes, Update, TreeOk, PollsOk, GroupsOk, QueuesOk;
    QueuedIsRegistered(p, a);
    GroupCounts(p, a);
    WillingEffect(p, a);
    if NoStale(p) && CancelledOnes(p) == {} {
      UpdatedKeeps(p, a, Update(p, a, Willing(a)).0);
    }
  }

  lemma {:induction false} WillingUpdates(p: Port)
    requires Inv(p)
    ensures var (p', ok) := UpdateEvents(p, Willing);
            && ok && p'.tree == p.tree && NoStale(p')
            && (NoStale(p) && CancelledOnes(p) == {} ==> CancelledOnes(p') == {} && AllPolled(p'))
    decreases |p.updates|
  {
    hide Update, Inv, NoStale, CancelledOnes, AllPolled;
    if p.updates == [] {
      NothingQueued(p);
    } else {
      var a := p.updates[0];
      WillingUpdate(p, a);
      UpdateShrinks(p, a, Willing(a));
      WillingUpdates(Update(p, a, Willing(a)).0);
    }
  }

  lemma NothingQueued(p: Port)
    requires Inv(p) && p.updates == []
    ensures NoStale(p) && (CancelledOnes(p) == {} ==> AllPolled(p))
  {
    hide TreeOk, QueuesOk, PollsOk, GroupsOk, Missing;
    assert forall a | a in p.socks && !p.socks[a].deletePending :: Fine(p, a) && (p.socks[a].status == Cancelled ==> a in CancelledOnes(p));
  }

  /** sock_feed_event on a sock_state that stays. */
  lemma FeedEffect(p: Port, a: nat, c: Completion)
    requires Inv(p) && a in p.polls
    ensures GroupOfSock(p, a)
    ensures var (p', r) := Feed(p, a, c);
            var s, events := p.socks[a], Reported(p.socks[a].userEvents, c);
            if s.deletePending || ReportsClose(c) then r == None && a !in p'.socks
            else
              var left := if events != 0 then Rearmed(s.userEvents) else s.userEvents;
              && p'.tree == p.tree && p'.socks == p.socks[a := s.(status := Idle, pendingEvents := 0, userEvents := left)]
              && r == if events == 0 then None else Some(Report(s.data, events))
  {
    hide Inv, Reported, ReportsClose, Feed;
    FeedOk(p, a, c);
    FeedShape(p, a, c);
  }

  lemma FeedShape(p: Port, a: nat, c: Completion)
    requires GroupOfSock(p, a)
    ensures var (p', r) := Feed(p, a, c);
            var s, events := p.socks[a], Reported(p.socks[a].userEvents, c);
            if s.deletePending || ReportsClose(c) then r == None
            else
              var left := if events != 0 then Rearmed(s.userEvents) else s.userEvents;
              && p'.tree == p.tree && p'.socks == p.socks[a := s.(status := Idle, pendingEvents := 0, userEvents := left)]
              && r == if events == 0 then None else Some(Report(s.data, events))
  {
    hide Common, Rearmed, Occurred, ReportsClose, Delete;
  }

  /** The completion of a cancelled poll makes its sock_state idle and queued. */
  lemma CompleteCancelled(p: Port, a: nat)
    requires Inv(p) && a in CancelledOnes(p) && NoStale(p)
    ensures var e := Complete(a, Completion(WasCancelled, 0, 0));
            && Enabled(p, e) && NoStale(Next(p, e)) && Next(p, e).tree == p.tree
            && CancelledOnes(Next(p, e)) == CancelledOnes(p) - {a}
  {
    hide TreeOk, QueuesOk, PollsOk, GroupsOk, FineBut, Missing, Reported, Feed;
    var c := Completion(WasCancelled, 0, 0);
    PollOf(p, a);
    NothingReported(p.socks[a].userEvents, c);
    FeedEffect(p, a, c);
  }

  lemma NothingReported(wanted: bv32, c: Completion)
    requires c.status == WasCancelled
    ensures Reported(wanted, c) == 0
  {
  }

  lemma {:induction false} AllCancelledComplete(p: Port)
    requires Inv(p) && NoStale(p)
    ensures exists q :: Reaches(p, q) && q.tree == p.tree && AllPolled(q)
    decreases |CancelledOnes(p)|
  {
    hide Inv, NoStale, AllPolled, UpdateEvents, Reaches;
    if CancelledOnes(p) == {} {
      var e := BeginWait(Willing);
      WillingUpdates(p);
      var q := Next(p, e);
      assert AllPolled(q) by { SameSocks(UpdateEvents(p, Willing).0, q); }
      ReachesItself(q);
      ReachesAfter(p, e, q);
    } else {
      hide Next, Enabled;
      var a :| a in CancelledOnes(p);
      var e := Complete(a, Completion(WasCancelled, 0, 0));
      CompleteCancelled(p, a);
      AllCancelledComplete(Next(p, e));
      var q :| Reaches(Next(p, e), q) && q.tree == p.tree && AllPolled(q);
      ReachesAfter(p, e, q);
    }
  }

  lemma SameSocks(p: Port, q: Port)
    requires q.socks == p.socks
    ensures AllPolled(p) ==> AllPolled(q)
    ensures NoStale(p) ==> NoStale(q)
  {
  }

  /** From every reachable state, when the system takes the requests and completes the cancelled
      polls, every registered socket ends with a poll that covers all its events, and none is dropped. */
  lemma EveryInterestIsMonitored(p: Port)
    requires Reachable(p)
    ensures Inv(p) && exists q :: Reaches(p, q) && q.tree == p.tree && AllPolled(q)
  {
    hide Run, Possible, NoStale, AllPolled, UpdateEvents, Reaches;
    NewPortIsFine();
    hide Inv;
    var e := BeginWait(Willing);
    WillingUpdates(p);
    var p1 := Next(p, e);
    SameSocks(UpdateEvents(p, Willing).0, p1);
    AllCancelledComplete(p1);
    var q :| Reaches(p1, q) && q.tree == p1.tree && AllPolled(q);
    ReachesAfter(p, e, q);
  }

  // ---- one-shot interest ----

  predicate Within(events: bv32, wanted: bv32) { events & !wanted == 0 }
  predicate OneShot(wanted: bv32) { wanted & EPOLLONESHOT != 0 }

  /** A report carries the user's data and only wanted events. Once a one-shot event was reported,
      the socket reports nothing more until epoll_ctl arms it again. */
  lemma OneShotDisarms(p: Port, a: nat, c: Completion)
    requires Inv(p) && a in p.polls
    ensures GroupOfSock(p, a)
    ensures var (p', r) := Feed(p, a, c);
            && (r != None ==> a in p'.socks && r.value.data == p.socks[a].data && Within(r.value.events, p.socks[a].userEvents))
            && (r != None && OneShot(p.socks[a].userEvents) ==> p'.socks[a].userEvents == 0)
            && (p.socks[a].userEvents == 0 ==> r == None && (a in p'.socks ==> p'.socks[a].userEvents == 0))
  {
    hide Inv, Reported, Feed, ReportsClose, Rearmed, Within, OneShot;
    FeedEffect(p, a, c);
    ReportedIsWanted(p.socks[a].userEvents, c);
  }

  lemma ReportedIsWanted(wanted: bv32, c: Completion)
    ensures Within(Reported(wanted, c), wanted) && (wanted == 0 ==> Reported(wanted, c) == 0)
    ensures (OneShot(wanted) ==> Rearmed(wanted) == 0) && (!OneShot(wanted) ==> Rearmed(wanted) == wanted)
  {
    hide Occurred;
  }

  // ---- port_delete ----

  /** What is left of the invariant while a closed port is torn down: polls no longer complete. */
  ghost predicate Closing(p: Port) { TreeOk(p) && QueuesOk(p) && GroupsOk(p) }

  lemma ForceDeleteOk(p: Port, a: nat, cancelled: bool)
    requires Closing(p) && a in p.socks
    ensures GroupOfSock(p, a)
    ensures var p' := Delete(p, a, true, cancelled); Closing(p') && p'.socks.Keys == p.socks.Keys - {a}
    ensures Delete(p, a, true, cancelled).tree == if p.socks[a].deletePending then p.tree else p.tree - {p.socks[a].socket}
  {
    hide TreeOk, QueuesOk, QueuesBut, GroupsOk, Without, Release;
    GroupCounts(p, a);
    var p1 := Unregister(p, a, cancelled);
    ForcedOut(p, a, cancelled);
    hide Unregister;
    var p2 := Dequeue(p1, a);
    QueueFrame(p1, p2);
    GroupsAfterFree(p2, a);
    ForgetInTree(p2, a, Free(p1, a));
    ForgetInQueues(p1, a, Free(p1, a));
  }

  lemma ForcedOut(p: Port, a: nat, cancelled: bool)
    requires Closing(p) && a in p.socks
    ensures var p' := Unregister(p, a, cancelled);
            && TreeOk(p') && QueuesBut(p', a) && GroupsOk(p') && p'.socks[a].deletePending && p'.socks.Keys == p.socks.Keys
            && p'.socks[a].group == p.socks[a].group
  {
    hide TreeOk, QueuesOk, QueuesBut, GroupsOk, Without, Dequeue, FineBut;
    if p.socks[a].deletePending {
      DeletedQueues(p, a);
    } else {
      var p0 := if p.socks[a].status == Pending then CancelPoll(p, a, cancelled) else p;
      MaybeCancelled(p, a, cancelled);
      hide CancelPoll;
      DequeueOk(p0, a);
      QueueFrame(p0, Dequeue(p0, a));
      Deregistered(Dequeue(p0, a), a);
    }
  }

  lemma MaybeCancelled(p: Port, a: nat, cancelled: bool)
    requires Closing(p) && Registered(p, a)
    ensures var p0 := if p.socks[a].status == Pending then CancelPoll(p, a, cancelled) else p;
            && Closing(p0) && Registered(p0, a) && p0.socks.Keys == p.socks.Keys && p0.tree == p.tree
            && p0.socks[a].group == p.socks[a].group && p0.socks[a].socket == p.socks[a].socket
  {
    hide TreeOk, QueuesOk, GroupsOk, FineBut;
    var p0 := if p.socks[a].status == Pending then CancelPoll(p, a, cancelled) else p;
    SockChange(p, a, p0.socks[a]);
    assert p0 == p.(socks := p.socks[a := p0.socks[a]]);
  }

  lemma Deregistered(p: Port, a: nat)
    requires Closing(p) && Registered(p, a) && a !in p.updates
    ensures var p' := p.(tree := p.tree - {p.socks[a].socket}, socks := p.socks[a := p.socks[a].(deletePending := true)]);
            TreeOk(p') && QueuesBut(p', a) && GroupsOk(p')
  {
    hide TreeOk, QueuesOk, QueuesBut, GroupsOk, FineBut;
    var p' := p.(tree := p.tree - {p.socks[a].socket}, socks := p.socks[a := p.socks[a].(deletePending := true)]);
    GroupsFrame(p, p');
    LeaveTree(p, a, p');
    LeaveQueues(p, a, p');
  }

  lemma ForgetInQueues(p: Port, a: nat, p': Port)
    requires QueuesBut(p, a) && a in p.socks && p.socks[a].deletePending
    requires p'.socks == p.socks - {a} && p'.updates == Without(p.updates, a) && p'.deleted == Without(p.deleted, a)
    ensures QueuesOk(p')
  {
    hide Without;
    WithoutKeeps(p.updates, a);
    WithoutKeeps(p.deleted, a);
  }

  lemma NoElements(s: seq<nat>)
    ensures (forall a :: a !in s) ==> s == []
  {
    if s != [] {
      assert s[0] in s;
    }
  }

  /** The assertions at the end of port_delete hold. */
  lemma NothingIsLeft(p: Port)
    requires Closing(p) && p.tree == map[] && p.deleted == []
    ensures p.socks == map[] && p.updates == [] && GroupsAllocated(p) && forall g | g in p.sizes :: p.sizes[g] == 0
  {
    assert forall a | a in p.socks :: p.socks[a].deletePending;
    assert forall a :: a in p.socks ==> a in p.deleted;
    NoElements(p.updates);
    forall g | g in p.sizes ensures p.sizes[g] == 0 {
      assert Members(p, g) == {};
    }
  }
}
