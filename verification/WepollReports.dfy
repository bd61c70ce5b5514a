/** What a wepoll port reports to the user. */
module WepollReports {
  import opened WepollEvents
  import opened WepollState
  import opened WepollInvariant
  import opened WepollRuns

  // ---- one wait ----

  ghost function Owners(completions: seq<(nat, Completion)>): set<nat> { set x | x in completions :: x.0 }

  /** Completions that one wait can get: outstanding polls, each once. */
  ghost predicate Outstanding(p: Port, completions: seq<(nat, Completion)>) {
    && (forall i :: 0 <= i < |completions| ==> completions[i].0 in p.polls)
    && (forall i, j :: 0 <= i < j < |completions| ==> completions[i].0 != completions[j].0)
  }

  /** port__feed_events. */
  ghost function FeedAll(p: Port, completions: seq<(nat, Completion)>): (Port, seq<Report>)
    requires Inv(p) && Outstanding(p, completions)
    decreases |completions|
  {
    if completions == [] then (p, [])
    else
      var (p1, report) := FeedOne(p, completions[0].0, completions[0].1);
      RestIsPending(p, completions, p1);
      var (p2, reports) := FeedAll(p1, completions[1..]);
      (p2, Listed(report) + reports)
  }

  /** It keeps the invariant, and exactly the completed polls are gone. */
  lemma {:induction false} FeedAllOk(p: Port, completions: seq<(nat, Completion)>)
    requires Inv(p) && Outstanding(p, completions)
    ensures var p' := FeedAll(p, completions).0; Inv(p') && p'.polls.Keys == p.polls.Keys - Owners(completions)
    decreases |completions|
  {
    hide Inv, Feed;
    if completions != [] {
      var p1 := FeedOne(p, completions[0].0, completions[0].1).0;
      RestIsPending(p, completions, p1);
      FeedAllOk(p1, completions[1..]);
    }
  }

  ghost function FeedOne(p: Port, a: nat, c: Completion): (r: (Port, Option<Report>))
    requires Inv(p) && a in p.polls
    ensures Inv(r.0) && r.0.polls.Keys == p.polls.Keys - {a}
  {
    FeedOk(p, a, c);
    Feed(p, a, c)
  }

  function Listed(report: Option<Report>): seq<Report> { if report == None then [] else [report.value] }

  lemma RestIsPending(p: Port, completions: seq<(nat, Completion)>, p1: Port)
    requires Outstanding(p, completions) && completions != [] && p1.polls.Keys == p.polls.Keys - {completions[0].0}
    ensures Outstanding(p1, completions[1..]) && Owners(completions) == {completions[0].0} + Owners(completions[1..])
    ensures completions[0].0 !in Owners(completions[1..])
  {
    assert completions == [completions[0]] + completions[1..];
    forall i | 0 <= i < |completions[1..]| ensures completions[1..][i].0 in p1.polls {
      assert completions[1..][i].0 in p1.polls.Keys;
    }
  }

  /** What a completion tells about a sock_state as it was before the wait. */
  ghost function Answered(s: Sock, c: Completion): Option<Report> {
    var events := Reported(s.userEvents, c);
    if s.deletePending || ReportsClose(c) || events == 0 then None else Some(Report(s.data, events))
  }

  ghost function Answers(socks: map<nat, Sock>, completions: seq<(nat, Completion)>): seq<Report>
    requires forall i :: 0 <= i < |completions| ==> completions[i].0 in socks
    decreases |completions|
  {
    if completions == [] then []
    else Listed(Answered(socks[completions[0].0], completions[0].1)) + Answers(socks, completions[1..])
  }

  lemma {:induction false} SameAnswers(socks: map<nat, Sock>, socks': map<nat, Sock>, completions: seq<(nat, Completion)>)
    requires forall i :: 0 <= i < |completions| ==>
               completions[i].0 in socks && completions[i].0 in socks' && socks'[completions[i].0] == socks[completions[i].0]
    ensures Answers(socks', completions) == Answers(socks, completions)
    decreases |completions|
  {
    if completions != [] {
      SameAnswers(socks, socks', completions[1..]);
    }
  }

  /** Feeding a completion leaves every other sock_state alone. */
  lemma FeedLeaves(p: Port, a: nat, c: Completion, b: nat)
    requires GroupOfSock(p, a) && b in p.socks && b != a
    ensures var p' := Feed(p, a, c).0; b in p'.socks && p'.socks[b] == p.socks[b]
  {
    hide Reported, ReportsClose, Rearmed, Common, Occurred, Without;
  }

  lemma FeedAnswers(p: Port, a: nat, c: Completion)
    requires Inv(p) && a in p.polls
    ensures a in p.socks && GroupOfSock(p, a) && Feed(p, a, c).1 == Answered(p.socks[a], c)
  {
    hide Inv, Reported, Feed, ReportsClose, Rearmed;
    FeedEffect(p, a, c);
  }

  /** No completion of a wait changes what another one reports: the reports are those that each
      completion gives for its sock_state as it was before the wait, in order. */
  lemma {:induction false} ReportsAreIndependent(p: Port, completions: seq<(nat, Completion)>)
    requires Inv(p) && Outstanding(p, completions)
    ensures forall i :: 0 <= i < |completions| ==> completions[i].0 in p.socks
    ensures FeedAll(p, completions).1 == Answers(p.socks, completions)
    decreases |completions|
  {
    hide Inv, Feed, Listed, Answered, Owners;
    forall i | 0 <= i < |completions| ensures completions[i].0 in p.socks {
      FeedAnswers(p, completions[i].0, completions[i].1);
    }
    if completions != [] {
      var (a, c) := completions[0];
      var (p1, report) := FeedOne(p, a, c);
      RestIsPending(p, completions, p1);
      ReportsAreIndependent(p1, completions[1..]);
      FeedAnswers(p, a, c);
      forall i | 0 <= i < |completions[1..]| ensures p1.socks[completions[1..][i].0] == p.socks[completions[1..][i].0] {
        FeedLeaves(p, a, c, completions[1..][i].0);
      }
      SameAnswers(p.socks, p1.socks, completions[1..]);
    }
  }

  /** What a completion tells, by its status: nothing when it was cancelled or has no handle, an error when it
      failed, and else the epoll events of its AFD events. It closes the socket only if it succeeded and
      says that the socket was closed. */
  lemma CompletionTells(c: Completion)
    ensures c.status == WasCancelled || (c.status == Success && c.handles < 1) ==> Occurred(c) == 0
    ensures c.status == Failure ==> Occurred(c) == 0x8
    ensures c.status == Success && c.handles >= 1 ==> Occurred(c) == ToEpoll(c.events)
    ensures ReportsClose(c) <==> c.status == Success && c.handles >= 1 && c.events & 0x20 != 0
  {
    hide ToEpoll;
  }

  /** The user gets the wanted ones of those events with the data of the socket, and no report without any,
      or when the socket was deleted or closed. */
  lemma ReportTells(p: Port, a: nat, c: Completion)
    requires Inv(p) && a in p.polls
    ensures a in p.socks
    ensures var s := p.socks[a];
            var events := Common(s.userEvents, Occurred(c));
            Told(p, Complete(a, c)) == if s.deletePending || ReportsClose(c) || events == 0 then None else Some(Report(s.data, events))
  {
    hide Inv, Feed, Common, Occurred, ReportsClose;
    FeedAnswers(p, a, c);
  }

  /** Common events are in both masks, and every event of both is common. */
  lemma CommonIsBoth(wanted: bv32, occurred: bv32, bit: bv32)
    ensures Common(wanted, occurred) & !wanted == 0 && Common(wanted, occurred) & !occurred == 0
    ensures Common(wanted, occurred) & bit == (wanted & bit) & (occurred & bit)
  {
    WithinLeft(wanted, occurred);
    WithinLeft(occurred, wanted);
    assert wanted & occurred == occurred & wanted;
    Distributes(wanted, occurred, bit);
  }

  lemma WithinLeft(x: bv32, y: bv32)
    ensures x & y & !x == 0
  {
  }

  lemma Distributes(x: bv32, y: bv32, bit: bv32)
    ensures x & y & bit == (x & bit) & (y & bit)
  {
  }

  // ---- one-shot interest over runs ----

  /** The sock_state at a, if it is alive, is that of `socket` and wants nothing. */
  ghost predicate Disarmed(p: Port, a: nat, socket: nat) {
    a in p.socks ==> p.socks[a].userEvents == 0 && p.socks[a].socket == socket
  }

  /** The user does not modify the socket, and malloc does not reuse the memory. */
  ghost predicate Untouched(e: Event, a: nat, socket: nat) {
    match e
    case Mod(s, _, _, _) => s != socket
    case Add(_, _, _, memory, _, _, _) => memory != Some(a)
    case _ => true
  }

  lemma UpdateStaysDisarmed(p: Port, b: nat, answer: Answer, a: nat, socket: nat)
    requires GroupOfSock(p, b) && Disarmed(p, a, socket)
    ensures Disarmed(Update(p, b, answer).0, a, socket)
  {
    hide Without, ToAfd, Missing;
  }

  lemma {:induction false} UpdatesStayDisarmed(p: Port, kernel: nat -> Answer, a: nat, socket: nat)
    requires Inv(p) && Disarmed(p, a, socket)
    ensures Disarmed(UpdateEvents(p, kernel).0, a, socket)
    decreases |p.updates|
  {
    hide Inv, Update, Disarmed;
    if p.updates != [] {
      var b := p.updates[0];
      UpdateShrinks(p, b, kernel(b));
      UpdateStaysDisarmed(p, b, kernel(b), a, socket);
      if Update(p, b, kernel(b)).1 {
        UpdatesStayDisarmed(Update(p, b, kernel(b)).0, kernel, a, socket);
      }
    }
  }

  lemma AddStaysDisarmed(p: Port, e: Event, a: nat, socket: nat)
    requires Inv(p) && Enabled(p, e) && e.Add? && e.memory != Some(a) && Disarmed(p, a, socket)
    ensures Disarmed(Next(p, e), a, socket)
  {
    hide Inv, SetEvent, SockNew, UpdateEvents, Core, FineBut;
    NewSock(p, e.socket, e.base, e.newGroup, e.memory);
    var (p1, b) := SockNew(p, e.socket, e.base, e.newGroup, e.memory);
    NewLeaves(p, e.socket, e.base, e.newGroup, e.memory, a);
    if b != None {
      SetEventOk(p1, b.value, e.events, e.data);
      SetLeaves(p1, b.value, e.events, e.data, a);
      UpdatesStayDisarmed(SetEvent(p1, b.value, e.events, e.data), e.kernel, a, socket);
    }
  }

  lemma NewLeaves(p: Port, socket: nat, base: bool, newGroup: Option<nat>, memory: Option<nat>, a: nat)
    requires GroupsAllocated(p) && memory != Some(a)
    ensures var p' := SockNew(p, socket, base, newGroup, memory).0;
            a in p'.socks ==> a in p.socks && p'.socks[a] == p.socks[a]
  {
    hide Without;
  }

  lemma SetLeaves(p: Port, b: nat, events: bv32, data: nat, a: nat)
    requires b in p.socks && a != b
    ensures var p' := SetEvent(p, b, events, data); a in p'.socks ==> a in p.socks && p'.socks[a] == p.socks[a]
  {
    hide Missing;
  }

  lemma ModStaysDisarmed(p: Port, e: Event, a: nat, socket: nat)
    requires Inv(p) && e.Mod? && e.socket != socket && Disarmed(p, a, socket)
    ensures Disarmed(Next(p, e), a, socket)
  {
    hide Inv, SetEvent, UpdateEvents;
    if e.socket in p.tree {
      ModIsSetEvent(p, e.socket, e.events, e.data);
      TreeSocket(p, e.socket);
      SetLeaves(p, p.tree[e.socket], e.events, e.data, a);
      UpdatesStayDisarmed(SetEvent(p, p.tree[e.socket], e.events, e.data), e.kernel, a, socket);
    }
  }

  lemma TreeSocket(p: Port, socket: nat)
    requires Inv(p) && socket in p.tree
    ensures p.tree[socket] in p.socks && p.socks[p.tree[socket]].socket == socket
  {
  }

  lemma DelStaysDisarmed(p: Port, b: nat, cancelled: bool, a: nat, socket: nat)
    requires GroupOfSock(p, b) && Disarmed(p, a, socket)
    ensures Disarmed(Delete(p, b, false, cancelled), a, socket)
  {
    hide Unregister, Without, Enqueued;
    UnregisterLeaves(p, b, cancelled, a);
  }

  lemma UnregisterLeaves(p: Port, b: nat, cancelled: bool, a: nat)
    requires GroupOfSock(p, b)
    ensures var p' := Unregister(p, b, cancelled);
            && GroupOfSock(p', b) && p'.socks.Keys == p.socks.Keys
            && (a in p.socks ==> p'.socks[a].userEvents == p.socks[a].userEvents && p'.socks[a].socket == p.socks[a].socket)
  {
    hide Without, Enqueued;
  }

  lemma FeedStaysDisarmed(p: Port, b: nat, c: Completion, a: nat, socket: nat)
    requires Inv(p) && b in p.polls && Disarmed(p, a, socket)
    ensures GroupOfSock(p, b) && Disarmed(Feed(p, b, c).0, a, socket) && (a == b ==> Feed(p, b, c).1 == None)
  {
    hide Inv, Feed;
    FeedKeys(p, b, c);
    OneShotDisarms(p, b, c);
    FeedAnswers(p, b, c);
    if a != b && a in p.socks {
      FeedLeaves(p, b, c, a);
    } else {
      FeedSocket(p, b, c);
    }
  }

  lemma FeedSocket(p: Port, a: nat, c: Completion)
    requires GroupOfSock(p, a)
    ensures var p' := Feed(p, a, c).0; a in p'.socks ==> p'.socks[a].socket == p.socks[a].socket
  {
    hide Reported, ReportsClose, Rearmed, Common, Occurred, Without;
  }

  lemma StepStaysDisarmed(p: Port, e: Event, a: nat, socket: nat)
    requires Inv(p) && Enabled(p, e) && Disarmed(p, a, socket) && Untouched(e, a, socket)
    ensures Disarmed(Next(p, e), a, socket) && (e.Complete? && e.a == a ==> Told(p, e) == None)
  {
    hide Inv, Feed, UpdateEvents, Delete;
    match e
    case Add(_, _, _, _, _, _, _) => AddStaysDisarmed(p, e, a, socket);
    case Mod(_, _, _, _) => ModStaysDisarmed(p, e, a, socket);
    case Del(s, cancelled) =>
      if s in p.tree {
        DelIsDelete(p, s, cancelled);
        DelStaysDisarmed(p, p.tree[s], cancelled, a, socket);
      }
    case BeginWait(kernel) => UpdatesStayDisarmed(p, kernel, a, socket);
    case EndWait =>
    case Complete(b, c) => FeedStaysDisarmed(p, b, c, a, socket);
    case LeaveWait(kernel) => UpdatesStayDisarmed(p, kernel, a, socket);
  }

  /** The reports of a run, each with the sock_state it is about. */
  ghost function Reports(p: Port, es: seq<Event>): seq<(nat, Report)>
    requires Inv(p) && Possible(p, es)
    decreases |es|
  {
    if es == [] then []
    else
      (if Told(p, es[0]) == None then [] else [(es[0].a, Told(p, es[0]).value)]) + Reports(Next(p, es[0]), es[1..])
  }

  lemma {:induction false} DisarmedIsSilent(p: Port, es: seq<Event>, a: nat, socket: nat)
    requires Inv(p) && Possible(p, es) && Disarmed(p, a, socket) && forall e | e in es :: Untouched(e, a, socket)
    ensures forall x | x in Reports(p, es) :: x.0 != a
    decreases |es|
  {
    hide Inv, Next, Told, Enabled, Disarmed, Untouched;
    if es != [] {
      assert Untouched(es[0], a, socket);
      StepStaysDisarmed(p, es[0], a, socket);
      DisarmedIsSilent(Next(p, es[0]), es[1..], a, socket);
      OnlyCompletionsTell(p, es[0]);
    }
  }

  lemma OnlyCompletionsTell(p: Port, e: Event)
    requires Inv(p) && Enabled(p, e)
    ensures Told(p, e) != None ==> e.Complete?
  {
  }

  /** Once a socket with EPOLLONESHOT was reported, no run reports it again before the user modifies
      it or it is gone. */
  lemma OneShotReportsOnce(p: Port, a: nat, c: Completion, es: seq<Event>)
    requires Inv(p) && a in p.polls && Told(p, Complete(a, c)) != None
    requires a in p.socks && OneShot(p.socks[a].userEvents) && Possible(Next(p, Complete(a, c)), es)
    requires forall e | e in es :: Untouched(e, a, p.socks[a].socket)
    ensures forall x | x in Reports(Next(p, Complete(a, c)), es) :: x.0 != a
  {
    hide Inv, Feed, OneShot;
    var socket := p.socks[a].socket;
    OneShotDisarms(p, a, c);
    FeedSocket(p, a, c);
    assert Disarmed(Next(p, Complete(a, c)), a, socket);
    DisarmedIsSilent(Next(p, Complete(a, c)), es, a, socket);
  }
}
