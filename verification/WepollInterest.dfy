/** What the user asked a wepoll port for, and that the port goes by it: every registered socket wants the
    events of its last epoll_ctl, until a one-shot report disarms it. */
module WepollInterest {
  import opened WepollEvents
  import opened WepollState
  import opened WepollInvariant
  import opened WepollRuns
  import opened WepollReports

  // ---- what a mask asks for ----

  /** The mask holds these events, error and hang-up, and nothing else. */
  predicate Asks(mask: bv32, events: bv32) { events & !mask == 0 && 0x18 & !mask == 0 && mask & !events & !0x18 == 0 }

  lemma AsksOnce(mask: bv32, other: bv32, events: bv32)
    requires Asks(mask, events) && Asks(other, events)
    ensures mask == other
  {
    assert mask == events | 0x18;
    assert other == events | 0x18;
  }

  /** The last request for a socket, and whether a one-shot report has used it up. */
  datatype Ask = Ask(events: bv32, data: nat, spent: bool)

  ghost predicate Meets(s: Sock, k: Ask) { s.data == k.data && if k.spent then s.userEvents == 0 else Asks(s.userEvents, k.events) }

  // ---- what each operation does to the interests ----

  /** Whoever is registered afterwards was so before, with the same interest. */
  ghost predicate Keeps(p: Port, p': Port) {
    forall a | Registered(p', a) ::
      Registered(p, a) && p'.socks[a].socket == p.socks[a].socket
      && p'.socks[a].userEvents == p.socks[a].userEvents && p'.socks[a].data == p.socks[a].data
  }

  lemma KeepsOnward(p: Port, q: Port, r: Port)
    requires Keeps(p, q) && Keeps(q, r)
    ensures Keeps(p, r)
  {
  }

  lemma UnregisterKeeps(p: Port, a: nat, cancelled: bool)
    requires a in p.socks
    ensures Keeps(p, Unregister(p, a, cancelled))
  {
    hide Without, Enqueued;
  }

  lemma DeleteKeeps(p: Port, a: nat, force: bool, cancelled: bool)
    requires GroupOfSock(p, a)
    ensures Keeps(p, Delete(p, a, force, cancelled))
  {
    hide Without, Enqueued, Unregister;
    UnregisterKeeps(p, a, cancelled);
    UnregisterLeaves(p, a, cancelled, a);
  }

  lemma UpdateKeeps(p: Port, a: nat, answer: Answer)
    requires GroupOfSock(p, a)
    ensures Keeps(p, Update(p, a, answer).0)
  {
    hide Without, ToAfd, Missing, Delete;
    DeleteKeeps(p, a, false, false);
  }

  lemma {:induction false} UpdatesKeep(p: Port, kernel: nat -> Answer)
    requires Inv(p)
    ensures Keeps(p, UpdateEvents(p, kernel).0)
    decreases |p.updates|
  {
    hide Inv, Update, Keeps;
    if p.updates == [] {
      KeepsItself(p);
    } else {
      var a := p.updates[0];
      UpdateShrinks(p, a, kernel(a));
      UpdateKeeps(p, a, kernel(a));
      var (p', ok) := Update(p, a, kernel(a));
      if ok {
        UpdatesKeep(p', kernel);
        KeepsOnward(p, p', UpdateEvents(p', kernel).0);
      }
    }
  }

  lemma KeepsItself(p: Port)
    ensures Keeps(p, p)
  {
  }

  lemma UpdateIfPollingKeeps(p: Port, kernel: nat -> Answer)
    requires Inv(p)
    ensures Keeps(p, UpdateIfPolling(p, kernel))
  {
    hide Inv, UpdateEvents, Keeps;
    UpdatesKeep(p, kernel);
    KeepsItself(p);
  }

  /** sock_set_event stores what was asked for at this sock_state and leaves the others alone. */
  lemma SetEventStores(p: Port, a: nat, events: bv32, data: nat)
    requires a in p.socks
    ensures var p' := SetEvent(p, a, events, data);
            && p'.tree == p.tree && p'.socks.Keys == p.socks.Keys
            && p'.socks[a] == p.socks[a].(userEvents := p'.socks[a].userEvents, data := data) && Asks(p'.socks[a].userEvents, events)
            && forall b | b in p.socks && b != a :: p'.socks[b] == p.socks[b]
  {
    AsksFor(events);
    hide Missing, Enqueued, Asks, EPOLLERR, EPOLLHUP;
  }

  lemma AsksFor(events: bv32)
    ensures Asks(events | EPOLLERR | EPOLLHUP, events)
  {
  }

  /** sock_new succeeds for a valid socket that is not registered yet, when the system and memory allow. */
  lemma NewSockIff(p: Port, socket: nat, base: bool, newGroup: Option<nat>, memory: Option<nat>)
    requires Inv(p) && (newGroup.Some? ==> newGroup.value !in p.sizes) && (memory.Some? ==> memory.value !in p.socks)
    ensures GroupsAllocated(p)
    ensures SockNew(p, socket, base, newGroup, memory).1 != None <==>
            && socket != 0 && socket != INVALID_SOCKET && base && memory != None && socket !in p.tree
            && (newGroup != None || exists g :: g in p.sizes && p.sizes[g] < MAX_GROUP_SIZE)
  {
    hide TreeOk, QueuesOk, PollsOk, FineBut, Acquire, Release, GroupsOk, AcquiredFrom;
    GroupsThere(p);
    AcquireIsSound(p, newGroup);
    AcquiresIff(p, newGroup);
    AcquireLeavesTree(p, newGroup);
  }

  lemma AcquiresIff(p: Port, created: Option<nat>)
    requires GroupsOk(p)
    ensures Acquire(p, created).1 != None <==> created != None || exists g :: g in p.sizes && p.sizes[g] < MAX_GROUP_SIZE
  {
    hide Members, Without;
    var n := |p.groups|;
    if n == 0 || p.sizes[p.groups[n - 1]] == MAX_GROUP_SIZE {
      AllFull(p);
    } else {
      assert p.groups[n - 1] in p.sizes;
    }
  }

  lemma AcquireLeavesTree(p: Port, created: Option<nat>)
    requires GroupsAllocated(p)
    ensures Acquire(p, created).0.tree == p.tree
  {
  }

  // ---- the requests of a run ----

  /** A step asks, uses a request up, or leaves the requests alone. */
  ghost function Asked(k: map<nat, Ask>, p: Port, e: Event): map<nat, Ask>
    requires Inv(p) && Enabled(p, e)
  {
    match e
    case Add(socket, base, newGroup, memory, events, data, _) =>
      if AddSucceeds(p, socket, base, newGroup, memory) then k[socket := Ask(events, data, false)] else k
    case Mod(socket, events, data, _) => if socket in p.tree then k[socket := Ask(events, data, false)] else k
    case Complete(a, _) =>
      PolledIsLive(p, a);
      var socket := p.socks[a].socket;
      if Told(p, e) != None && socket in k && k[socket].events & EPOLLONESHOT != 0 then k[socket := k[socket].(spent := true)] else k
    case _ => k
  }

  ghost predicate AddSucceeds(p: Port, socket: nat, base: bool, newGroup: Option<nat>, memory: Option<nat>) {
    && socket != 0 && socket != INVALID_SOCKET && base && memory != None && socket !in p.tree
    && (newGroup != None || exists g :: g in p.sizes && p.sizes[g] < MAX_GROUP_SIZE)
  }

  /** Every registered socket has a request, and its sock_state meets it. */
  ghost predicate AllMeet(k: map<nat, Ask>, p: Port) {
    forall a | Registered(p, a) :: p.socks[a].socket in k && Meets(p.socks[a], k[p.socks[a].socket])
  }

  lemma KeepsMeet(k: map<nat, Ask>, p: Port, p': Port)
    requires AllMeet(k, p) && Keeps(p, p')
    ensures AllMeet(k, p')
  {
    hide Asks;
  }

  /** A request for the sock_state at a, which is the only one of its socket. */
  lemma SetMeets(k: map<nat, Ask>, p: Port, a: nat, events: bv32, data: nat)
    requires Core(p) && Registered(p, a) && AllMeetBut(k, p, a)
    ensures AllMeet(k[p.socks[a].socket := Ask(events, data, false)], SetEvent(p, a, events, data))
  {
    hide QueuesOk, PollsOk, GroupsOk, SetEvent, Asks;
    SetEventStores(p, a, events, data);
  }

  ghost predicate AllMeetBut(k: map<nat, Ask>, p: Port, x: nat) {
    forall a | Registered(p, a) && a != x :: p.socks[a].socket in k && Meets(p.socks[a], k[p.socks[a].socket])
  }

  lemma AddMeets(k: map<nat, Ask>, p: Port, e: Event)
    requires Inv(p) && Enabled(p, e) && e.Add? && AllMeet(k, p)
    ensures AllMeet(Asked(k, p, e), Next(p, e))
  {
    hide Inv, SockNew, SetEvent, UpdateEvents, Core, FineBut, Meets, AllMeet, AllMeetBut, UpdateIfPolling, Registered;
    NewSockIff(p, e.socket, e.base, e.newGroup, e.memory);
    SockNewOk(p, e.socket, e.base, e.newGroup, e.memory);
    var (p1, a) := SockNew(p, e.socket, e.base, e.newGroup, e.memory);
    if a == None {
      KeepsOfSame(p, p1);
      KeepsMeet(k, p, p1);
    } else {
      NewMeetsBut(k, p, p1, a.value);
      SetMeets(k, p1, a.value, e.events, e.data);
      SetEventOk(p1, a.value, e.events, e.data);
      var p2 := SetEvent(p1, a.value, e.events, e.data);
      UpdateIfPollingKeeps(p2, e.kernel);
      KeepsMeet(Asked(k, p, e), p2, UpdateIfPolling(p2, e.kernel));
    }
  }

  lemma KeepsOfSame(p: Port, p': Port)
    requires p'.socks == p.socks
    ensures Keeps(p, p')
  {
  }

  lemma NewMeetsBut(k: map<nat, Ask>, p: Port, p': Port, a: nat)
    requires AllMeet(k, p) && a in p'.socks && p'.socks == p.socks[a := p'.socks[a]]
    ensures AllMeetBut(k, p', a)
  {
    hide Meets;
  }

  lemma ModMeets(k: map<nat, Ask>, p: Port, e: Event)
    requires Inv(p) && e.Mod? && AllMeet(k, p)
    ensures AllMeet(Asked(k, p, e), Next(p, e))
  {
    hide Inv, SetEvent, UpdateEvents, Meets, AllMeetBut, AllMeet, UpdateIfPolling;
    if e.socket in p.tree {
      var a := p.tree[e.socket];
      ModIsSetEvent(p, e.socket, e.events, e.data);
      TreeSocket(p, e.socket);
      InvCore(p);
      MeetBut(k, p, a);
      SetMeets(k, p, a, e.events, e.data);
      var p2 := SetEvent(p, a, e.events, e.data);
      UpdateIfPollingKeeps(p2, e.kernel);
      KeepsMeet(Asked(k, p, e), p2, UpdateIfPolling(p2, e.kernel));
    }
  }

  lemma InvCore(p: Port)
    requires Inv(p)
    ensures Core(p)
  {
  }

  lemma MeetBut(k: map<nat, Ask>, p: Port, a: nat)
    requires AllMeet(k, p)
    ensures AllMeetBut(k, p, a)
  {
    hide Meets;
  }

  /** A report uses up a one-shot request, and only that changes what a socket wants. */
  lemma DeliveredMeets(s: Sock, k: Ask, c: Completion)
    requires Meets(s, k)
    ensures var events := Reported(s.userEvents, c);
            var left := if events != 0 then Rearmed(s.userEvents) else s.userEvents;
            var k' := if events != 0 && k.events & EPOLLONESHOT != 0 then k.(spent := true) else k;
            Meets(s.(status := Idle, pendingEvents := 0, userEvents := left), k')
  {
    hide Occurred, Asks;
    if k.spent {
      NothingReported(s.userEvents, c);
    } else {
      OneShotAsked(s.userEvents, k.events);
    }
  }

  lemma NothingReported(wanted: bv32, c: Completion)
    requires wanted == 0
    ensures Reported(wanted, c) == 0
  {
    hide Occurred;
  }

  lemma OneShotAsked(mask: bv32, events: bv32)
    requires Asks(mask, events)
    ensures mask & EPOLLONESHOT != 0 <==> events & EPOLLONESHOT != 0
  {
  }

  lemma FeedMeets(k: map<nat, Ask>, p: Port, a: nat, c: Completion)
    requires Inv(p) && a in p.polls && AllMeet(k, p)
    ensures AllMeet(Asked(k, p, Complete(a, c)), Next(p, Complete(a, c)))
  {
    hide Inv, Feed, Reported, ReportsClose, Rearmed, Meets, TreeOk, QueuesOk, PollsOk, GroupsOk;
    InvCore(p);
    FeedOk(p, a, c);
    FeedEffect(p, a, c);
    PolledIsLive(p, a);
    var p', k' := Next(p, Complete(a, c)), Asked(k, p, Complete(a, c));
    forall b | Registered(p', b) ensures p'.socks[b].socket in k' && Meets(p'.socks[b], k'[p'.socks[b].socket]) {
      if b != a {
        FeedLeavesBack(p, a, c, b);
        OtherSocket(p, a, b);
      } else {
        DeliveredMeets(p.socks[a], k[p.socks[a].socket], c);
      }
    }
  }

  /** A sock_state that is there after a completion for another one was the same before. */
  lemma FeedLeavesBack(p: Port, a: nat, c: Completion, b: nat)
    requires Inv(p) && a in p.polls && b != a && GroupOfSock(p, a) && b in Feed(p, a, c).0.socks
    ensures b in p.socks && Feed(p, a, c).0.socks[b] == p.socks[b]
  {
    hide Inv, Feed;
    FeedKeys(p, a, c);
    FeedLeaves(p, a, c, b);
  }

  lemma OtherSocket(p: Port, a: nat, b: nat)
    requires Core(p) && a != b && Registered(p, b) && a in p.socks
    ensures Registered(p, a) ==> p.socks[a].socket != p.socks[b].socket
  {
    hide QueuesOk, PollsOk, GroupsOk;
  }

  lemma DelMeets(k: map<nat, Ask>, p: Port, socket: nat, cancelled: bool)
    requires Inv(p) && AllMeet(k, p)
    ensures AllMeet(k, CtlDel(p, socket, cancelled))
  {
    hide Inv, Delete, Keeps, AllMeet;
    KeepsItself(p);
    if socket in p.tree {
      DelIsDelete(p, socket, cancelled);
      DeleteKeeps(p, p.tree[socket], false, cancelled);
    }
    KeepsMeet(k, p, CtlDel(p, socket, cancelled));
  }

  /** Every step keeps the interests true to the requests. */
  lemma StepMeets(k: map<nat, Ask>, p: Port, e: Event)
    requires Inv(p) && Enabled(p, e) && AllMeet(k, p)
    ensures AllMeet(Asked(k, p, e), Next(p, e))
  {
    hide Inv, UpdateEvents, AllMeet, Keeps, CtlAdd, CtlMod, CtlDel;
    match e
    case Add(_, _, _, _, _, _, _) => AddMeets(k, p, e);
    case Mod(_, _, _, _) => ModMeets(k, p, e);
    case Del(socket, cancelled) => DelMeets(k, p, socket, cancelled);
    case Complete(a, c) => FeedMeets(k, p, a, c);
    case BeginWait(kernel) =>
      UpdatesKeep(p, kernel);
      var p1 := UpdateEvents(p, kernel).0;
      KeepsMeet(k, p, p1);
      KeepsOfSame(p1, Next(p, e));
      KeepsMeet(k, p1, Next(p, e));
    case EndWait =>
      KeepsOfSame(p, Next(p, e));
      KeepsMeet(k, p, Next(p, e));
    case LeaveWait(kernel) =>
      UpdateIfPollingKeeps(p, kernel);
      KeepsMeet(k, p, Next(p, e));
  }

  /** The requests after a run. */
  ghost function AskedAll(k: map<nat, Ask>, p: Port, es: seq<Event>): map<nat, Ask>
    requires Inv(p) && Possible(p, es)
    decreases |es|
  {
    if es == [] then k else AskedAll(Asked(k, p, es[0]), Next(p, es[0]), es[1..])
  }

  lemma {:induction false} RunMeets(k: map<nat, Ask>, p: Port, es: seq<Event>)
    requires Inv(p) && Possible(p, es) && AllMeet(k, p)
    ensures AllMeet(AskedAll(k, p, es), Run(p, es))
    decreases |es|
  {
    hide Inv, Next, Asked, Enabled, AllMeet;
    if es != [] {
      StepMeets(k, p, es[0]);
      RunMeets(Asked(k, p, es[0]), Next(p, es[0]), es[1..]);
    }
  }

  ghost predicate FromNew(es: seq<Event>) { NewPortIsFine(); Possible(NewPort, es) }

  ghost function After(es: seq<Event>): (p: Port)
    requires FromNew(es)
    ensures Inv(p) && Reachable(p)
  {
    NewPortIsFine();
    Run(NewPort, es)
  }

  ghost function Requests(es: seq<Event>): map<nat, Ask>
    requires FromNew(es)
  {
    NewPortIsFine();
    AskedAll(map[], NewPort, es)
  }

  /** In every run a registered socket has the data and wants the events of its last epoll_ctl, error and
      hang-up included, and nothing once a one-shot report came. */
  lemma InterestIsTheLastRequest(es: seq<Event>, a: nat)
    requires FromNew(es) && Registered(After(es), a)
    ensures var s, k := After(es).socks[a], Requests(es);
            s.socket in k && Meets(s, k[s.socket])
  {
    hide Inv, Possible, Run, AskedAll, Asks, Reachable;
    NewPortIsFine();
    RunMeets(map[], NewPort, es);
  }

  /** In every run no requested event is lost: the socket is queued for an update, or its cancelled poll will
      requeue it, or its poll monitors every AFD event that the last request needs and can report every
      event of that request, EPOLLMSG excepted. */
  lemma NoRequestLost(es: seq<Event>, a: nat)
    requires FromNew(es) && Registered(After(es), a)
    ensures var p := After(es);
            var socket := p.socks[a].socket;
            && socket in Requests(es)
            && var k := Requests(es)[socket];
            || a in p.updates
            || (p.socks[a].status == Cancelled && a in p.polls)
            || k.spent
            || (a in p.polls && Monitors(p.polls[a], k.events))
  {
    hide Inv, After, Requests, Asks, Reachable, Reportable, ToAfd, FromNew;
    InterestIsTheLastRequest(es, a);
    NoInterestLost(After(es), a);
    var s := After(es).socks[a];
    var k := Requests(es)[s.socket];
    if !k.spent && a in After(es).polls {
      MonitorsRequest(s.userEvents, k.events, After(es).polls[a]);
    }
  }

  /** A poll for these AFD events tells all that a request for these events, error and hang-up needs. */
  predicate Monitors(afd: bv32, events: bv32) {
    var wanted := events | 0x18;
    ToAfd(wanted) & !afd == 0 && Reportable(wanted, afd)
  }

  lemma MonitorsRequest(mask: bv32, events: bv32, afd: bv32)
    requires Asks(mask, events)
    ensures ToAfd(mask) & !afd == 0 && Reportable(mask, afd) ==> Monitors(afd, events)
  {
    hide ToAfd, Reportable;
    assert mask == events | 0x18;
  }

  lemma {:induction false} RunsJoin(p: Port, es: seq<Event>, more: seq<Event>)
    requires Inv(p) && Possible(p, es) && Possible(Run(p, es), more)
    ensures Possible(p, es + more) && Run(p, es + more) == Run(Run(p, es), more)
    decreases |es|
  {
    hide Inv, Next, Enabled;
    if es == [] {
      assert es + more == more;
    } else {
      RunsJoin(Next(p, es[0]), es[1..], more);
      assert (es + more)[0] == es[0] && (es + more)[1..] == es[1..] + more;
    }
  }

  /** From the end of every run some continuation leads to a state in which each registered socket has a
      pending poll for all that its last request needs. */
  lemma EveryRequestIsMonitored(es: seq<Event>) returns (more: seq<Event>)
    requires FromNew(es)
    ensures FromNew(es + more)
    ensures var p, k := After(es + more), Requests(es + more);
            forall a | Registered(p, a) ::
              && p.socks[a].socket in k && a in p.polls
              && (k[p.socks[a].socket].spent || Monitors(p.polls[a], k[p.socks[a].socket].events))
  {
    hide Inv, Run, AskedAll, Asks, Reachable, Monitors, AllPolled, Possible, Meets;
    NewPortIsFine();
    var p := After(es);
    EveryInterestIsMonitored(p);
    var q :| Reaches(p, q) && q.tree == p.tree && AllPolled(q);
    more :| Possible(p, more) && q == Run(p, more);
    RunsJoin(NewPort, es, more);
    forall a | Registered(q, a)
      ensures q.socks[a].socket in Requests(es + more) && a in q.polls
      ensures Requests(es + more)[q.socks[a].socket].spent || Monitors(q.polls[a], Requests(es + more)[q.socks[a].socket].events)
    {
      InterestIsTheLastRequest(es + more, a);
      PolledMonitors(q, a);
      PolledMeets(q.socks[a], Requests(es + more)[q.socks[a].socket], q.polls[a]);
    }
  }

  lemma PolledMonitors(p: Port, a: nat)
    requires Inv(p) && AllPolled(p) && Registered(p, a)
    ensures a in p.polls && ToAfd(p.socks[a].userEvents) & !p.polls[a] == 0 && Reportable(p.socks[a].userEvents, p.polls[a])
  {
    hide ToAfd, Missing, Reportable, TreeOk, QueuesOk, GroupsOk, Covered;
    CoveredPollMonitors(p.socks[a].userEvents, p.socks[a].pendingEvents);
    CoveredPollReports(p.socks[a].userEvents, p.socks[a].pendingEvents);
  }

  lemma PolledMeets(s: Sock, k: Ask, afd: bv32)
    requires Meets(s, k) && ToAfd(s.userEvents) & !afd == 0 && Reportable(s.userEvents, afd)
    ensures k.spent || Monitors(afd, k.events)
  {
    hide ToAfd, Reportable, Asks, Monitors;
    if !k.spent {
      MonitorsRequest(s.userEvents, k.events, afd);
    }
  }

  // ---- who is registered ----

  /** The system finds no closed socket. */
  ghost predicate Steady(kernel: nat -> Answer) { forall a :: kernel(a).poll != SocketClosed }

  /** An update ends the registration of a socket only when the system finds it closed. */
  lemma UpdateRegisters(p: Port, a: nat, answer: Answer)
    requires GroupOfSock(p, a) && !p.socks[a].deletePending
    ensures Update(p, a, answer).0.tree
            == if p.socks[a].status == Idle && answer.poll == SocketClosed then p.tree - {p.socks[a].socket} else p.tree
  {
    hide Without, ToAfd, Missing, Enqueued;
  }

  lemma {:induction false} UpdatesRegister(p: Port, kernel: nat -> Answer)
    requires Inv(p) && Steady(kernel)
    ensures UpdateEvents(p, kernel).0.tree == p.tree
    decreases |p.updates|
  {
    hide Inv, Update;
    if p.updates != [] {
      var a := p.updates[0];
      UpdateShrinks(p, a, kernel(a));
      QueuedNotDeleted(p, a);
      UpdateRegisters(p, a, kernel(a));
      var (p', ok) := Update(p, a, kernel(a));
      if ok {
        UpdatesRegister(p', kernel);
      }
    }
  }

  lemma QueuedNotDeleted(p: Port, a: nat)
    requires Inv(p) && a in p.updates
    ensures Registered(p, a)
  {
  }

  lemma DeleteRegisters(p: Port, a: nat, force: bool, cancelled: bool)
    requires GroupOfSock(p, a) && !p.socks[a].deletePending
    ensures Delete(p, a, force, cancelled).tree == p.tree - {p.socks[a].socket}
  {
    hide Without, Enqueued;
  }

  ghost predicate SteadyEvent(e: Event) {
    match e
    case Add(_, _, _, _, _, _, kernel) => Steady(kernel)
    case Mod(_, _, _, kernel) => Steady(kernel)
    case BeginWait(kernel) => Steady(kernel)
    case LeaveWait(kernel) => Steady(kernel)
    case _ => true
  }

  /** The tree of registered sockets after a step in which the system finds no closed socket. */
  ghost function Registration(p: Port, e: Event): map<nat, nat>
    requires Inv(p) && Enabled(p, e)
  {
    match e
    case Add(socket, base, newGroup, memory, _, _, _) =>
      if AddSucceeds(p, socket, base, newGroup, memory) then p.tree[socket := memory.value] else p.tree
    case Del(socket, _) => p.tree - {socket}
    case Complete(a, c) =>
      PolledIsLive(p, a);
      if !p.socks[a].deletePending && ReportsClose(c) then p.tree - {p.socks[a].socket} else p.tree
    case _ => p.tree
  }

  /** EPOLL_CTL_ADD registers its socket, EPOLL_CTL_DEL and the report of a closed socket end that, and no
      other step changes who is registered. */
  lemma RegistrationIsExact(p: Port, e: Event)
    requires Inv(p) && Enabled(p, e) && SteadyEvent(e)
    ensures Next(p, e).tree == Registration(p, e)
  {
    hide Inv, SockNew, SetEvent, UpdateEvents, Core, FineBut, Delete, Feed, ReportsClose, Steady;
    match e
    case Add(_, _, _, _, _, _, _) => AddRegistration(p, e);
    case Mod(socket, events, data, kernel) =>
      if socket in p.tree {
        ModIsSetEvent(p, socket, events, data);
        SetEventStores(p, p.tree[socket], events, data);
        UpdatesRegister(SetEvent(p, p.tree[socket], events, data), kernel);
      }
    case Del(socket, cancelled) =>
      if socket in p.tree {
        DelIsDelete(p, socket, cancelled);
        TreeSocket(p, socket);
        TreeRegistered(p, socket);
        DeleteRegisters(p, p.tree[socket], false, cancelled);
      }
    case BeginWait(kernel) => UpdatesRegister(p, kernel);
    case LeaveWait(kernel) => UpdatesRegister(p, kernel);
    case EndWait =>
    case Complete(a, c) => FeedRegistration(p, a, c);
  }

  lemma TreeRegistered(p: Port, socket: nat)
    requires Inv(p) && socket in p.tree
    ensures Registered(p, p.tree[socket])
  {
  }

  lemma AddRegistration(p: Port, e: Event)
    requires Inv(p) && Enabled(p, e) && e.Add? && Steady(e.kernel)
    ensures Next(p, e).tree == Registration(p, e)
  {
    hide Inv, SockNew, SetEvent, UpdateEvents, Core, FineBut, Steady, Registered;
    NewSockIff(p, e.socket, e.base, e.newGroup, e.memory);
    SockNewOk(p, e.socket, e.base, e.newGroup, e.memory);
    var (p1, a) := SockNew(p, e.socket, e.base, e.newGroup, e.memory);
    if a != None {
      assert a.value in p1.socks by { RegisteredIsThere(p1, a.value); }
      SetEventOk(p1, a.value, e.events, e.data);
      SetEventStores(p1, a.value, e.events, e.data);
      UpdatesRegister(SetEvent(p1, a.value, e.events, e.data), e.kernel);
    }
  }

  lemma RegisteredIsThere(p: Port, a: nat)
    requires Registered(p, a)
    ensures a in p.socks
  {
  }

  lemma FeedRegistration(p: Port, a: nat, c: Completion)
    requires Inv(p) && a in p.polls
    ensures Next(p, Complete(a, c)).tree == Registration(p, Complete(a, c))
  {
    hide Inv, ReportsClose, Feed, Reported, Rearmed;
    FeedOk(p, a, c);
    FeedEffect(p, a, c);
    InvCore(p);
    FeedTree(p, a, c);
  }

  /** A completion for a deleted socket finds it out of the tree. */
  lemma FeedTree(p: Port, a: nat, c: Completion)
    requires Inv(p) && GroupOfSock(p, a)
    ensures p.socks[a].deletePending ==> Feed(p, a, c).0.tree == p.tree
    ensures !p.socks[a].deletePending && ReportsClose(c) ==> Feed(p, a, c).0.tree == p.tree - {p.socks[a].socket}
  {
    hide Inv, Without, Enqueued, Occurred, Common, Rearmed, ReportsClose;
  }

  // ---- threads that wait ----

  /** The system takes every request. */
  ghost predicate Takes(kernel: nat -> Answer) { forall a :: kernel(a).poll != PollFailed && kernel(a).cancelled }

  lemma {:induction false} TakenUpdates(p: Port, kernel: nat -> Answer)
    requires Inv(p) && Takes(kernel)
    ensures UpdateEvents(p, kernel).1
    decreases |p.updates|
  {
    hide Inv;
    if p.updates != [] {
      var a := p.updates[0];
      UpdateShrinks(p, a, kernel(a));
      UpdateTaken(p, a, kernel(a));
      TakenUpdates(Update(p, a, kernel(a)).0, kernel);
    }
  }

  lemma UpdateTaken(p: Port, a: nat, answer: Answer)
    requires GroupOfSock(p, a) && answer.poll != PollFailed && answer.cancelled
    ensures Update(p, a, answer).1
  {
    hide Without, ToAfd, Missing, Delete;
  }

  /** While a thread waits, epoll_ctl and the end of another wait leave no socket without its poll, when the
      system takes every request; and a wait begins only after that. */
  lemma WaitingThreadsAreServed(p: Port, e: Event)
    requires Inv(p) && Enabled(p, e)
    ensures e.Mod? && p.active > 0 && e.socket in p.tree && Takes(e.kernel) ==> Next(p, e).updates == []
    ensures e.Add? && p.active > 0 && AddSucceeds(p, e.socket, e.base, e.newGroup, e.memory) && Takes(e.kernel) ==> Next(p, e).updates == []
    ensures e.LeaveWait? && p.active > 0 && Takes(e.kernel) ==> Next(p, e).updates == []
    ensures e.BeginWait? ==> Next(p, e).active == p.active + 1 || !Takes(e.kernel)
    ensures e.BeginWait? && Next(p, e).active != p.active ==> Next(p, e).active == p.active + 1 && Next(p, e).updates == []
  {
    hide Inv, SockNew, SetEvent, UpdateEvents, Core, FineBut, Delete, Feed, Takes, Registered;
    match e
    case Add(_, _, _, _, _, _, _) => AddServes(p, e);
    case Mod(socket, events, data, kernel) =>
      if socket in p.tree && Takes(kernel) {
        ModIsSetEvent(p, socket, events, data);
        SetEventActive(p, p.tree[socket], events, data);
        TakenUpdates(SetEvent(p, p.tree[socket], events, data), kernel);
      }
    case BeginWait(kernel) =>
      UpdatesActive(p, kernel);
      if Takes(kernel) {
        TakenUpdates(p, kernel);
      }
    case LeaveWait(kernel) =>
      if Takes(kernel) {
        TakenUpdates(p, kernel);
      }
    case _ =>
  }

  lemma AddServes(p: Port, e: Event)
    requires Inv(p) && Enabled(p, e) && e.Add?
    ensures p.active > 0 && AddSucceeds(p, e.socket, e.base, e.newGroup, e.memory) && Takes(e.kernel) ==> Next(p, e).updates == []
  {
    hide Inv, SockNew, SetEvent, UpdateEvents, Core, FineBut, Takes, Registered;
    NewSockIff(p, e.socket, e.base, e.newGroup, e.memory);
    SockNewOk(p, e.socket, e.base, e.newGroup, e.memory);
    var (p1, a) := SockNew(p, e.socket, e.base, e.newGroup, e.memory);
    if a != None && Takes(e.kernel) {
      assert a.value in p1.socks by { RegisteredIsThere(p1, a.value); }
      SetEventOk(p1, a.value, e.events, e.data);
      SetEventActive(p1, a.value, e.events, e.data);
      TakenUpdates(SetEvent(p1, a.value, e.events, e.data), e.kernel);
    }
  }

  lemma SetEventActive(p: Port, a: nat, events: bv32, data: nat)
    requires a in p.socks
    ensures SetEvent(p, a, events, data).active == p.active
  {
    hide Missing, Enqueued;
  }

  lemma {:induction false} UpdatesActive(p: Port, kernel: nat -> Answer)
    requires Inv(p)
    ensures UpdateEvents(p, kernel).0.active == p.active
    decreases |p.updates|
  {
    hide Inv;
    if p.updates != [] {
      var a := p.updates[0];
      UpdateShrinks(p, a, kernel(a));
      UpdateActive(p, a, kernel(a));
      if Update(p, a, kernel(a)).1 {
        UpdatesActive(Update(p, a, kernel(a)).0, kernel);
      }
    }
  }

  lemma UpdateActive(p: Port, a: nat, answer: Answer)
    requires GroupOfSock(p, a)
    ensures Update(p, a, answer).0.active == p.active
  {
    hide Without, ToAfd, Missing, Enqueued;
  }
}
