/** What every operation of a wepoll port keeps. */
module WepollInvariant {
  import opened WepollEvents
  import opened WepollState

  predicate Registered(p: Port, a: nat) { a in p.socks && !p.socks[a].deletePending }

  ghost predicate Distinct(s: seq<nat>) { forall i, j :: 0 <= i < j < |s| ==> s[i] != s[j] }

  /** The tree maps exactly the registered sockets to their sock_state. */
  ghost predicate TreeOk(p: Port) {
    && (forall s | s in p.tree :: Registered(p, p.tree[s]) && p.socks[p.tree[s]].socket == s)
    && (forall a | a in p.socks && !p.socks[a].deletePending :: p.socks[a].socket in p.tree && p.tree[p.socks[a].socket] == a)
  }

  /** Only registered sock_states wait for an update, and the deleted queue holds exactly the others:
      no queue node is in both. */
  ghost predicate QueuesOk(p: Port) {
    && Distinct(p.updates) && Distinct(p.deleted)
    && (forall a | a in p.updates :: Registered(p, a))
    && (forall a :: a in p.deleted <==> a in p.socks && p.socks[a].deletePending)
  }

  /** A poll is outstanding exactly when the sock_state says so, and monitors what it says. */
  ghost predicate PollsOk(p: Port) {
    && (forall a | a in p.polls :: a in p.socks)
    && (forall a | a in p.socks :: a in p.polls <==> p.socks[a].status != Idle)
    && (forall a | a in p.socks :: p.socks[a].status != Pending ==> p.socks[a].pendingEvents == 0)
    && (forall a | a in p.socks :: p.socks[a].status == Pending ==> p.polls[a] == ToAfd(p.socks[a].pendingEvents))
  }

  ghost function Members(p: Port, g: nat): set<nat> { set a | a in p.socks && p.socks[a].group == g }

  /** Full poll groups come first. */
  ghost predicate FullFirst(groups: seq<nat>, sizes: map<nat, nat>)
    requires forall g | g in groups :: g in sizes
  {
    forall i, j :: 0 <= i < j < |groups| && sizes[groups[j]] == MAX_GROUP_SIZE ==> sizes[groups[i]] == MAX_GROUP_SIZE
  }

  ghost predicate GroupsOk(p: Port) {
    && Distinct(p.groups) && GroupsAllocated(p) && (forall g | g in p.sizes :: g in p.groups)
    && FullFirst(p.groups, p.sizes)
    && (forall g | g in p.sizes :: p.sizes[g] == |Members(p, g)| && p.sizes[g] <= MAX_GROUP_SIZE)
    && (forall a | a in p.socks :: p.socks[a].group in p.sizes)
  }

  /** What the user is interested in is monitored, or the sock_state is queued for an update, or a
      cancelled poll will requeue it when it completes. */
  ghost predicate Covered(p: Port, a: nat)
    requires a in p.socks
  {
    var s := p.socks[a];
    a in p.updates || s.status == Cancelled || (s.status == Pending && Missing(s.userEvents, s.pendingEvents) == 0)
  }

  /** A deleted sock_state that is still allocated waits for its poll. */
  ghost predicate Fine(p: Port, a: nat)
    requires a in p.socks
  {
    if p.socks[a].deletePending then p.socks[a].status != Idle else Covered(p, a)
  }

  ghost predicate Core(p: Port) { TreeOk(p) && QueuesOk(p) && PollsOk(p) && GroupsOk(p) }

  ghost predicate FineBut(p: Port, x: Option<nat>) { forall a | a in p.socks && x != Some(a) :: Fine(p, a) }

  ghost predicate Inv(p: Port) { Core(p) && FineBut(p, None) }

  // ---- Sequences without repetition ----

  lemma DropAtKeeps(s: seq<nat>, i: nat)
    requires Distinct(s) && i < |s|
    ensures Distinct(DropAt(s, i)) && |DropAt(s, i)| == |s| - 1 && forall x :: x in DropAt(s, i) <==> x in s && x != s[i]
  {
    var t := DropAt(s, i);
    assert forall j | 0 <= j < |t| :: t[j] == s[if j < i then j else j + 1];
    forall x | x in s && x != s[i] ensures x in t {
      var j :| 0 <= j < |s| && s[j] == x;
      assert x == t[if j < i then j else j - 1];
    }
  }

  lemma WithoutKeeps(s: seq<nat>, a: nat)
    requires Distinct(s)
    ensures Distinct(Without(s, a)) && forall x :: x in Without(s, a) <==> x in s && x != a
    ensures |Without(s, a)| == if a in s then |s| - 1 else |s|
  {
    if a in s {
      DropAtKeeps(s, Position(s, a));
    }
    hide DropAt, Position;
  }

  lemma WithoutFullFirst(s: seq<nat>, sizes: map<nat, nat>, a: nat)
    requires Distinct(s) && (forall g | g in s :: g in sizes) && FullFirst(s, sizes)
    ensures (forall g | g in Without(s, a) :: g in sizes) && FullFirst(Without(s, a), sizes)
  {
    if a in s {
      DropFullFirst(s, sizes, Position(s, a));
    }
  }

  lemma DropFullFirst(s: seq<nat>, sizes: map<nat, nat>, k: nat)
    requires (forall g | g in s :: g in sizes) && FullFirst(s, sizes) && k < |s|
    ensures (forall g | g in DropAt(s, k) :: g in sizes) && FullFirst(DropAt(s, k), sizes)
  {
    var t := DropAt(s, k);
    assert forall i | 0 <= i < |t| :: t[i] == s[if i < k then i else i + 1];
    hide DropAt;
    forall i, j | 0 <= i < j < |t| && sizes[t[j]] == MAX_GROUP_SIZE ensures sizes[t[i]] == MAX_GROUP_SIZE {
      var i', j' := if i < k then i else i + 1, if j < k then j else j + 1;
      assert s[i'] == t[i] && s[j'] == t[j];
    }
  }

  // ---- Poll groups ----

  /** A group counts its sock_states, so it has one to give up when it has a member. */
  lemma GroupCounts(p: Port, a: nat)
    requires GroupsOk(p) && a in p.socks
    ensures GroupOfSock(p, a)
  {
    assert a in Members(p, p.socks[a].group);
  }

  ghost predicate SameGroups(p: Port, p': Port) { p'.groups == p.groups && p'.sizes == p.sizes }

  ghost predicate SameMembership(p: Port, p': Port) {
    p'.socks.Keys == p.socks.Keys && forall a | a in p.socks :: p'.socks[a].group == p.socks[a].group
  }

  lemma GroupsFrame(p: Port, p': Port)
    requires GroupsOk(p) && SameGroups(p, p') && SameMembership(p, p')
    ensures GroupsOk(p')
  {
    forall g ensures Members(p', g) == Members(p, g) {
    }
  }

  /** poll_group_acquire gives a group with room, and makes a new one only when all are full. */
  lemma AcquireIsSound(p: Port, created: Option<nat>)
    requires GroupsOk(p) && (created.Some? ==> created.value !in p.sizes)
    ensures var (p', g) := Acquire(p, created);
            && p' == p.(groups := p'.groups, sizes := p'.sizes)
            && (g == None ==> p' == p && forall h | h in p.sizes :: p.sizes[h] == MAX_GROUP_SIZE)
            && (g != None ==> && AcquiredFrom(p, p', g.value)
                              && (g.value !in p.sizes ==> forall h | h in p.sizes :: p.sizes[h] == MAX_GROUP_SIZE))
  {
    hide FullFirst, Members, Distinct, Join;
    var n := |p.groups|;
    if p.groups == [] || p.sizes[p.groups[n - 1]] == MAX_GROUP_SIZE {
      AllFull(p);
      if created.Some? {
        CreatedGroup(p, created.value);
      }
    } else {
      assert p.groups == p.groups[..n - 1] + [p.groups[n - 1]];
      JoinLast(p, p.groups[..n - 1], p.groups[n - 1]);
      JoinFrame(p, p.groups[n - 1]);
    }
  }

  lemma JoinFrame(p: Port, g: nat)
    requires g in p.sizes
    ensures var p' := Join(p, g).0; p' == p.(groups := p'.groups, sizes := p'.sizes)
  {
  }

  /** When the last group is full, all are. */
  lemma AllFull(p: Port)
    requires GroupsOk(p) && (p.groups == [] || p.sizes[p.groups[|p.groups| - 1]] == MAX_GROUP_SIZE)
    ensures forall h | h in p.sizes :: p.sizes[h] == MAX_GROUP_SIZE
  {
    hide Distinct, Members;
    var n := |p.groups|;
    forall h | h in p.sizes ensures p.sizes[h] == MAX_GROUP_SIZE {
      var i :| 0 <= i < n && p.groups[i] == h;
      assert i < n - 1 ==> p.sizes[p.groups[i]] == MAX_GROUP_SIZE;
    }
  }

  lemma CreatedGroup(p: Port, g: nat)
    requires GroupsOk(p) && g !in p.sizes && forall h | h in p.sizes :: p.sizes[h] == MAX_GROUP_SIZE
    ensures var p1 := p.(groups := p.groups + [g], sizes := p.sizes[g := 0]);
            var p' := Join(p1, g).0;
            AcquiredFrom(p, p', g) && Join(p1, g).1 == Some(g) && p' == p.(groups := p'.groups, sizes := p'.sizes)
  {
    hide FullFirst, Members, Distinct;
    assert g !in p.groups;
    AppendFullFirst(p.groups, p.sizes, g);
    var p1 := p.(groups := p.groups + [g], sizes := p.sizes[g := 0]);
    assert p1.sizes[g := 1] == p.sizes[g := 1];
  }

  /** The groups after g took in one more sock_state, which is not there yet. */
  ghost predicate AcquiredFrom(p: Port, p': Port, g: nat) {
    && Distinct(p'.groups) && GroupsAllocated(p') && (forall h | h in p'.sizes :: h in p'.groups) && FullFirst(p'.groups, p'.sizes)
    && p'.sizes == p.sizes[g := (if g in p.sizes then p.sizes[g] else 0) + 1] && p'.sizes[g] <= MAX_GROUP_SIZE
  }

  lemma JoinLast(p: Port, front: seq<nat>, g: nat)
    requires Distinct(p.groups) && GroupsAllocated(p) && (forall h | h in p.sizes :: h in p.groups) && FullFirst(p.groups, p.sizes)
    requires p.groups == front + [g] && p.sizes[g] < MAX_GROUP_SIZE
    ensures AcquiredFrom(p, Join(p, g).0, g) && Join(p, g).1 == Some(g)
  {
    hide Distinct, FullFirst, Without, Position, DropAt;
    var p' := Join(p, g).0;
    WithoutLast(front, g);
    SameElements(front, g);
    assert p.groups[|front|] == g;
    if p'.sizes[g] == MAX_GROUP_SIZE {
      MovedToStart(front, g, p.sizes);
    } else {
      StaysLast(front, g, p.sizes);
    }
  }

  lemma SameElements(front: seq<nat>, g: nat)
    ensures forall h :: h in [g] + front <==> h in front + [g]
  {
  }

  lemma StaysLast(front: seq<nat>, g: nat, sizes: map<nat, nat>)
    requires (forall h | h in front + [g] :: h in sizes) && g !in front && FullFirst(front + [g], sizes)
    requires sizes[g] + 1 < MAX_GROUP_SIZE
    ensures FullFirst(front + [g], sizes[g := sizes[g] + 1])
  {
  }

  lemma WithoutLast(front: seq<nat>, g: nat)
    requires Distinct(front + [g])
    ensures g !in front && Without(front + [g], g) == front
  {
    var s := front + [g];
    assert s[|front|] == g;
    assert Position(s, g) == |front|;
    assert DropAt(s, |front|) == front;
    assert forall x | x in front :: exists i :: 0 <= i < |front| && s[i] == x;
  }

  lemma MovedToStart(front: seq<nat>, g: nat, sizes: map<nat, nat>)
    requires Distinct(front + [g]) && (forall h | h in front :: h in sizes) && g !in front
    requires g in sizes && FullFirst(front + [g], sizes) && sizes[g] + 1 == MAX_GROUP_SIZE
    ensures Distinct([g] + front) && FullFirst([g] + front, sizes[g := MAX_GROUP_SIZE])
  {
    var s, t, sizes' := front + [g], [g] + front, sizes[g := MAX_GROUP_SIZE];
    assert forall i | 0 < i < |t| :: t[i] == front[i - 1] == s[i - 1] && t[i] in front;
  }

  lemma AppendFullFirst(groups: seq<nat>, sizes: map<nat, nat>, g: nat)
    requires Distinct(groups) && (forall h | h in groups :: h in sizes && sizes[h] == MAX_GROUP_SIZE) && g !in groups
    ensures Distinct(groups + [g]) && FullFirst(groups + [g], sizes[g := 0]) && FullFirst(groups + [g], sizes[g := 1])
  {
  }

  /** poll_group_release after the sock_state at a is gone, or when it never came to be. */
  lemma ReleaseIsSound(p: Port, g: nat)
    requires Distinct(p.groups) && GroupsAllocated(p) && (forall h | h in p.sizes :: h in p.groups) && FullFirst(p.groups, p.sizes)
    requires g in p.sizes && 0 < p.sizes[g] <= MAX_GROUP_SIZE
    ensures var p' := Release(p, g);
            && Distinct(p'.groups) && GroupsAllocated(p') && (forall h | h in p'.sizes :: h in p'.groups) && FullFirst(p'.groups, p'.sizes)
            && p'.sizes == p.sizes[g := p.sizes[g] - 1] && p' == p.(groups := p'.groups, sizes := p'.sizes)
  {
    WithoutKeeps(p.groups, g);
    WithoutFullFirst(p.groups, p.sizes, g);
    hide Without;
    var rest, p' := Without(p.groups, g), Release(p, g);
    assert p'.groups == rest + [g];
    forall i, j | 0 <= i < j < |p'.groups| && p'.sizes[p'.groups[j]] == MAX_GROUP_SIZE ensures p'.sizes[p'.groups[i]] == MAX_GROUP_SIZE {
      assert j < |rest| && rest[j] in rest && rest[i] in rest;
    }
  }

  // ---- sock_state operations ----

  /** The part of a sock_state that tree, queues and groups depend on. */
  ghost predicate SameIdentity(p: Port, p': Port) {
    && p'.socks.Keys == p.socks.Keys
    && forall a | a in p.socks :: p'.socks[a].group == p.socks[a].group && p'.socks[a].socket == p.socks[a].socket
                                  && p'.socks[a].deletePending == p.socks[a].deletePending
  }

  lemma IdentityFrame(p: Port, p': Port)
    requires SameIdentity(p, p') && p'.tree == p.tree && SameGroups(p, p')
    ensures TreeOk(p) ==> TreeOk(p')
    ensures GroupsOk(p) ==> GroupsOk(p')
    ensures QueuesOk(p) && p'.updates == p.updates && p'.deleted == p.deleted ==> QueuesOk(p')
  {
    if GroupsOk(p) {
      GroupsFrame(p, p');
    }
  }

  /** Queue operations leave everything else alone. */
  lemma QueueFrame(p: Port, p': Port)
    requires p' == p.(updates := p'.updates, deleted := p'.deleted)
    ensures TreeOk(p) ==> TreeOk(p')
    ensures PollsOk(p) ==> PollsOk(p')
    ensures GroupsOk(p) ==> GroupsOk(p')
  {
    IdentityFrame(p, p');
  }

  /** The sock_state at x is in no update queue, and not necessarily in the deleted queue. */
  ghost predicate QueuesBut(p: Port, x: nat) {
    && Distinct(p.updates) && Distinct(p.deleted) && x !in p.updates
    && (forall a | a in p.updates :: Registered(p, a))
    && (forall a | a != x :: a in p.deleted <==> a in p.socks && p.socks[a].deletePending)
  }

  ghost predicate CoreBut(p: Port, x: nat) { TreeOk(p) && QueuesBut(p, x) && PollsOk(p) && GroupsOk(p) }

  lemma DequeueOk(p: Port, a: nat)
    requires QueuesOk(p) && Registered(p, a)
    ensures var p' := Dequeue(p, a);
            && p' == p.(updates := Without(p.updates, a)) && QueuesOk(p')
            && (forall x :: x in p'.updates <==> x in p.updates && x != a) && (FineBut(p, Some(a)) ==> FineBut(p', Some(a)))
  {
    hide Without;
    WithoutKeeps(p.updates, a);
    WithoutKeeps(p.deleted, a);
    assert Without(p.deleted, a) == p.deleted by { WithoutAbsent(p.deleted, a); }
  }

  lemma WithoutAbsent(s: seq<nat>, a: nat)
    requires a !in s
    ensures Without(s, a) == s
  {
  }

  lemma RequestOk(p: Port, a: nat)
    requires Core(p) && Registered(p, a)
    ensures var p' := RequestUpdate(p, a);
            && Core(p') && a in p'.updates && p' == p.(updates := p'.updates) && (FineBut(p, Some(a)) ==> Inv(p'))
            && p'.updates == if a in p.updates then p.updates else p.updates + [a]
  {
    hide TreeOk, PollsOk, GroupsOk;
    QueueFrame(p, RequestUpdate(p, a));
  }

  /** Only events and poll status of the sock_state at a change. */
  lemma SockChange(p: Port, a: nat, s: Sock)
    requires a in p.socks && s == p.socks[a].(userEvents := s.userEvents, pendingEvents := s.pendingEvents, status := s.status, data := s.data)
    ensures var p' := p.(socks := p.socks[a := s]);
            && (TreeOk(p) ==> TreeOk(p')) && (GroupsOk(p) ==> GroupsOk(p')) && (QueuesOk(p) ==> QueuesOk(p'))
            && (FineBut(p, Some(a)) ==> FineBut(p', Some(a)))
  {
    hide TreeOk, GroupsOk, QueuesOk;
    IdentityFrame(p, p.(socks := p.socks[a := s]));
  }

  lemma AlwaysWanted(events: bv32)
    ensures Missing(events | EPOLLERR | EPOLLHUP, 0) != 0
  {
    assert (events | EPOLLERR | EPOLLHUP) & EPOLLERR != 0;
  }

  /** One sock_state's poll changes. */
  lemma PollChange(p: Port, a: nat, s: Sock, polls: map<nat, bv32>)
    requires PollsOk(p) && a in p.socks && polls - {a} == p.polls - {a}
    requires (a in polls <==> s.status != Idle) && (s.status != Pending ==> s.pendingEvents == 0)
    requires s.status == Pending ==> polls[a] == ToAfd(s.pendingEvents)
    ensures PollsOk(p.(socks := p.socks[a := s], polls := polls))
  {
    hide ToAfd;
    OtherPolls(p.polls, polls, a);
  }

  lemma OtherPolls(m: map<nat, bv32>, m': map<nat, bv32>, a: nat)
    requires m' - {a} == m - {a}
    ensures forall b | b != a :: (b in m' <==> b in m) && (b in m ==> m'[b] == m[b])
  {
    assert forall b | b != a :: b in m' <==> b in m - {a};
    assert forall b | b != a && b in m' :: m'[b] == (m' - {a})[b] == (m - {a})[b];
  }

  lemma PollOf(p: Port, a: nat)
    requires PollsOk(p) && a in p.socks
    ensures var s := p.socks[a];
            && (a in p.polls <==> s.status != Idle) && (s.status != Pending ==> s.pendingEvents == 0)
            && (s.status == Pending ==> p.polls[a] == ToAfd(s.pendingEvents))
  {
    hide ToAfd;
  }

  lemma SetEventOk(p: Port, a: nat, events: bv32, data: nat)
    requires Core(p) && FineBut(p, Some(a)) && Registered(p, a)
    ensures Inv(SetEvent(p, a, events, data))
  {
    hide TreeOk, GroupsOk, QueuesOk, PollsOk, Missing, ToAfd, RequestUpdate;
    var wanted := events | EPOLLERR | EPOLLHUP;
    var s := p.socks[a].(userEvents := wanted, data := data);
    var p1 := p.(socks := p.socks[a := s]);
    AlwaysWanted(events);
    SockChange(p, a, s);
    PollOf(p, a);
    PollChange(p, a, s, p.polls);
    if Missing(wanted, p.socks[a].pendingEvents) != 0 {
      RequestOk(p1, a);
    }
  }

  lemma CancelOk(p: Port, a: nat, ok: bool)
    requires Core(p) && a in p.socks && p.socks[a].status == Pending
    ensures Core(CancelPoll(p, a, ok)) && (FineBut(p, Some(a)) ==> FineBut(CancelPoll(p, a, ok), Some(a)))
  {
    hide TreeOk, GroupsOk, QueuesOk, PollsOk, ToAfd, FineBut;
    var s := p.socks[a].(status := Cancelled, pendingEvents := 0);
    SockChange(p, a, s);
    PollOf(p, a);
    PollChange(p, a, s, p.polls);
  }

  lemma FreeOk(p: Port, a: nat)
    requires CoreBut(p, a) && FineBut(p, Some(a)) && a in p.socks && p.socks[a].deletePending && p.socks[a].status == Idle
    ensures GroupOfSock(p, a) && Inv(Free(p, a)) && Free(p, a).socks == p.socks - {a}
    ensures Free(p, a).updates == p.updates && Free(p, a).polls == p.polls && Free(p, a).tree == p.tree
  {
    hide Without, Release, TreeOk, PollsOk, GroupsOk, FineBut, QueuesBut, QueuesOk;
    GroupCounts(p, a);
    assert a !in p.updates && Distinct(p.deleted) by { QueuesButFacts(p, a); }
    WithoutAbsent(p.updates, a);
    var p1 := Dequeue(p, a);
    QueueFrame(p, p1);
    GroupsAfterFree(p1, a);
    LeavesQuietly(p, a, Free(p, a));
  }

  lemma QueuesButFacts(p: Port, a: nat)
    requires QueuesBut(p, a)
    ensures a !in p.updates && Distinct(p.deleted)
  {
  }

  lemma GroupsAfterFree(p: Port, a: nat)
    requires GroupsOk(p) && a in p.socks
    ensures GroupOfSock(p, a)
    ensures var p1 := Release(p, p.socks[a].group);
            GroupsOk(p1.(socks := p1.socks - {a})) && p1 == p.(groups := p1.groups, sizes := p1.sizes)
  {
    hide Without, FullFirst, Release;
    GroupCounts(p, a);
    var g := p.socks[a].group;
    ReleaseIsSound(p, g);
    var p' := Release(p, g).(socks := p.socks - {a});
    forall h | h in p'.sizes ensures p'.sizes[h] == |Members(p', h)| {
      assert Members(p', h) == Members(p, h) - {a};
    }
  }

  lemma LeavesQuietly(p: Port, a: nat, p': Port)
    requires TreeOk(p) && QueuesBut(p, a) && PollsOk(p) && FineBut(p, Some(a))
    requires a in p.socks && p.socks[a].deletePending && p.socks[a].status == Idle
    requires p'.socks == p.socks - {a} && p'.tree == p.tree && p'.updates == p.updates && p'.polls == p.polls
    requires p'.deleted == Without(p.deleted, a)
    ensures TreeOk(p') && QueuesOk(p') && PollsOk(p') && FineBut(p', None)
  {
    hide Without, ToAfd, Missing, TreeOk, PollsOk;
    WithoutKeeps(p.deleted, a);
    assert TreeOk(p') by { ForgetInTree(p, a, p'); }
    assert PollsOk(p') by { ForgetInPolls(p, a, p'); }
  }

  lemma ForgetInTree(p: Port, a: nat, p': Port)
    requires TreeOk(p) && a in p.socks && p.socks[a].deletePending && p'.socks == p.socks - {a} && p'.tree == p.tree
    ensures TreeOk(p')
  {
  }

  lemma ForgetInPolls(p: Port, a: nat, p': Port)
    requires PollsOk(p) && a in p.socks && p.socks[a].status == Idle && p'.socks == p.socks - {a} && p'.polls == p.polls
    ensures PollsOk(p')
  {
    hide ToAfd;
  }

  lemma UnregisterOk(p: Port, a: nat, cancelled: bool)
    requires Core(p) && FineBut(p, Some(a)) && a in p.socks
    ensures var p' := Unregister(p, a, cancelled);
            && CoreBut(p', a) && FineBut(p', Some(a)) && p'.socks[a].deletePending && p'.polls == p.polls
            && p'.socks.Keys == p.socks.Keys && p'.socks[a].group == p.socks[a].group
            && (p'.socks[a].status == Idle <==> p.socks[a].status == Idle)
            && p'.updates == Without(p.updates, a)
  {
    hide Without, TreeOk, PollsOk, GroupsOk, FineBut, QueuesOk, QueuesBut, Dequeue;
    if p.socks[a].deletePending {
      DeletedQueues(p, a);
    } else {
      var p0 := if p.socks[a].status == Pending then CancelPoll(p, a, cancelled) else p;
      if p.socks[a].status == Pending {
        CancelOk(p, a, cancelled);
      }
      var p1 := Dequeue(p0, a);
      DequeueOk(p0, a);
      QueueFrame(p0, p1);
      DeregisterOk(p1, a);
    }
  }

  lemma DeletedQueues(p: Port, a: nat)
    requires QueuesOk(p) && a in p.socks && p.socks[a].deletePending
    ensures QueuesBut(p, a) && Without(p.updates, a) == p.updates
  {
    WithoutAbsent(p.updates, a);
  }

  lemma DeregisterOk(p: Port, a: nat)
    requires Core(p) && FineBut(p, Some(a)) && Registered(p, a) && a !in p.updates
    ensures var p' := p.(tree := p.tree - {p.socks[a].socket}, socks := p.socks[a := p.socks[a].(deletePending := true)]);
            CoreBut(p', a) && FineBut(p', Some(a))
  {
    hide TreeOk, QueuesOk, PollsOk, GroupsOk, QueuesBut, FineBut, ToAfd;
    var s' := p.socks[a].(deletePending := true);
    var p1 := p.(socks := p.socks[a := s']);
    var p' := p1.(tree := p.tree - {p.socks[a].socket});
    PollOf(p, a);
    PollChange(p, a, s', p.polls);
    GroupsFrame(p, p');
    LeaveTree(p, a, p');
    LeaveQueues(p, a, p');
    assert PollsOk(p') by { PollsFrame(p1, p'); }
  }

  lemma PollsFrame(p: Port, p': Port)
    requires PollsOk(p) && p'.socks == p.socks && p'.polls == p.polls
    ensures PollsOk(p')
  {
    hide ToAfd;
  }

  lemma LeaveTree(p: Port, a: nat, p': Port)
    requires TreeOk(p) && Registered(p, a) && p'.socks == p.socks[a := p.socks[a].(deletePending := true)]
    requires p'.tree == p.tree - {p.socks[a].socket}
    ensures TreeOk(p')
  {
  }

  lemma LeaveQueues(p: Port, a: nat, p': Port)
    requires QueuesOk(p) && Registered(p, a) && a !in p.updates && p'.socks == p.socks[a := p.socks[a].(deletePending := true)]
    requires p'.updates == p.updates && p'.deleted == p.deleted
    ensures QueuesBut(p', a) && (FineBut(p, Some(a)) ==> FineBut(p', Some(a)))
  {
    hide Missing;
  }

  /** sock__delete, not forced: the sock_state is freed when no poll is outstanding and parked otherwise. */
  lemma DeleteOk(p: Port, a: nat, cancelled: bool)
    requires Core(p) && FineBut(p, Some(a)) && a in p.socks
    ensures GroupOfSock(p, a)
    ensures var p' := Delete(p, a, false, cancelled);
            && Inv(p') && !Registered(p', a) && p'.polls == p.polls && p'.updates == Without(p.updates, a)
            && (a !in p'.socks <==> a !in p.polls) && p'.socks.Keys == if a in p.polls then p.socks.Keys else p.socks.Keys - {a}
  {
    GroupCounts(p, a);
    UnregisterOk(p, a, cancelled);
    var p1 := Unregister(p, a, cancelled);
    assert p.socks[a].status == Idle <==> a !in p.polls;
    hide Unregister, Without, GroupsOk, TreeOk, PollsOk;
    if p1.socks[a].status == Idle {
      FreeOk(p1, a);
    } else {
      ParkOk(p1, a);
    }
  }

  lemma ParkOk(p: Port, a: nat)
    requires CoreBut(p, a) && FineBut(p, Some(a)) && a in p.socks && p.socks[a].deletePending && p.socks[a].status != Idle
    ensures Inv(AddDeleted(p, a)) && AddDeleted(p, a) == p.(deleted := AddDeleted(p, a).deleted)
  {
    hide TreeOk, PollsOk, GroupsOk;
    QueueFrame(p, AddDeleted(p, a));
  }

  /** sock_update of a queued sock_state takes it off the queue, or leaves everything as it was. */
  lemma UpdateOk(p: Port, a: nat, answer: Answer)
    requires Inv(p) && a in p.updates
    ensures GroupOfSock(p, a)
    ensures var (p', ok) := Update(p, a, answer);
            && Inv(p') && (if ok then p'.updates == Without(p.updates, a) else p' == p)
            && (forall b | b in p.polls :: b in p'.polls) && p'.socks.Keys <= p.socks.Keys
  {
    hide Without, Missing, ToAfd, TreeOk, PollsOk, GroupsOk, QueuesOk, Dequeue, Delete, Unregister;
    QueuedIsRegistered(p, a);
    GroupCounts(p, a);
    var s := p.socks[a];
    match s.status
    case Cancelled => LeaveQueue(p, a);
    case Pending =>
      if Missing(s.userEvents, s.pendingEvents) == 0 {
        LeaveQueue(p, a);
      } else if answer.cancelled {
        CancelOk(p, a, true);
        LeaveQueue(CancelPoll(p, a, true), a);
      }
    case Idle =>
      if answer.poll == SocketClosed {
        DeleteOk(p, a, false);
      } else if answer.poll == Submitted {
        SubmitOk(p, a);
      }
  }

  lemma QueuedIsRegistered(p: Port, a: nat)
    requires QueuesOk(p) && a in p.updates
    ensures Registered(p, a)
  {
  }

  /** A sock_state may leave the update queue when a pending or cancelled poll covers it. */
  lemma LeaveQueue(p: Port, a: nat)
    requires Core(p) && FineBut(p, Some(a)) && Registered(p, a)
    requires var s := p.socks[a]; s.status == Cancelled || (s.status == Pending && Missing(s.userEvents, s.pendingEvents) == 0)
    ensures Inv(Dequeue(p, a)) && Dequeue(p, a) == p.(updates := Without(p.updates, a))
  {
    hide Without, Missing, TreeOk, PollsOk, GroupsOk, QueuesOk, Dequeue;
    DequeueOk(p, a);
    QueueFrame(p, Dequeue(p, a));
  }

  lemma SubmitOk(p: Port, a: nat)
    requires Inv(p) && a in p.updates && a in p.socks && p.socks[a].status == Idle
    ensures var s := p.socks[a];
            var p1 := p.(socks := p.socks[a := s.(status := Pending, pendingEvents := s.userEvents)],
                         polls := p.polls[a := ToAfd(s.userEvents)]);
            Inv(Dequeue(p1, a)) && Dequeue(p1, a) == p1.(updates := Without(p.updates, a))
  {
    hide Without, Missing, ToAfd, TreeOk, PollsOk, GroupsOk, QueuesOk, Dequeue;
    QueuedIsRegistered(p, a);
    var s := p.socks[a];
    var s' := s.(status := Pending, pendingEvents := s.userEvents);
    var p1 := p.(socks := p.socks[a := s'], polls := p.polls[a := ToAfd(s.userEvents)]);
    SockChange(p, a, s');
    IdentityFrame(p.(socks := p.socks[a := s']), p1);
    PollChange(p, a, s', p1.polls);
    NothingMissing(s.userEvents);
    LeaveQueue(p1, a);
  }

  lemma NothingMissing(events: bv32)
    ensures Missing(events, events) == 0
  {
  }

  /** A completion is fed to a sock_state that is still allocated; a deleted one is freed now, any
      other is requeued unless the socket was closed. */
  lemma FeedOk(p: Port, a: nat, c: Completion)
    requires Inv(p) && a in p.polls
    ensures GroupOfSock(p, a)
    ensures var p' := Feed(p, a, c).0;
            && Inv(p') && p'.polls == p.polls - {a} && p'.socks.Keys <= p.socks.Keys
            && (a !in p'.socks <==> p.socks[a].deletePending || ReportsClose(c))
            && (a in p'.socks ==> a in p'.updates)
  {
    hide TreeOk, GroupsOk, QueuesOk, PollsOk, Without, ToAfd, Missing, Common, Rearmed, Occurred, ReportsClose, Delete, RequestUpdate;
    PolledIsLive(p, a);
    GroupCounts(p, a);
    var s := p.socks[a].(status := Idle, pendingEvents := 0);
    var p1 := p.(polls := p.polls - {a}, socks := p.socks[a := s]);
    SockChange(p, a, s);
    IdentityFrame(p.(socks := p.socks[a := s]), p1);
    PollChange(p, a, s, p1.polls);
    GroupCounts(p1, a);
    assert FineBut(p1, Some(a));
    if s.deletePending || ReportsClose(c) {
      DeleteOk(p1, a, false);
    } else {
      RequestOk(p1, a);
      var p2 := RequestUpdate(p1, a);
      Rearm(p2, a, Rearmed(s.userEvents));
    }
  }

  lemma PolledIsLive(p: Port, a: nat)
    requires PollsOk(p) && a in p.polls
    ensures a in p.socks
  {
  }

  lemma Rearm(p: Port, a: nat, left: bv32)
    requires Inv(p) && a in p.updates && a in p.socks
    ensures Inv(p.(socks := p.socks[a := p.socks[a].(userEvents := left)]))
  {
    hide TreeOk, GroupsOk, QueuesOk, PollsOk, ToAfd, Missing;
    QueuedIsRegistered(p, a);
    SockChange(p, a, p.socks[a].(userEvents := left));
    PollOf(p, a);
    PollChange(p, a, p.socks[a].(userEvents := left), p.polls);
  }

  /** sock_new, up to the new sock_state, which has no events yet. */
  lemma SockNewOk(p: Port, socket: nat, base: bool, newGroup: Option<nat>, memory: Option<nat>)
    requires Inv(p) && (newGroup.Some? ==> newGroup.value !in p.sizes) && (memory.Some? ==> memory.value !in p.socks)
    ensures var (p', a) := SockNew(p, socket, base, newGroup, memory);
            && Core(p') && p'.updates == p.updates && p'.polls == p.polls && p'.active == p.active
            && (a == None ==> Inv(p') && p'.socks == p.socks && p'.tree == p.tree)
            && (a != None ==> && a == memory && FineBut(p', a) && Registered(p', a.value) && socket !in p.tree
                              && p'.socks == p.socks[a.value := p'.socks[a.value]] && p'.tree == p.tree[socket := a.value]
                              && p'.socks[a.value].socket == socket)
  {
    hide TreeOk, QueuesOk, PollsOk, FineBut, Acquire, Release, GroupsOk, AcquiredFrom;
    GroupsThere(p);
    if socket == 0 || socket == INVALID_SOCKET || !base {
      return;
    }
    AcquireIsSound(p, newGroup);
    var (p1, g) := Acquire(p, newGroup);
    if g == None {
      return;
    }
    HasRoom(p, p1, g.value);
    if memory == None || socket in p1.tree {
      AcquireReleaseOk(p, p1, g.value);
    } else {
      var p2 := SockNew(p, socket, base, newGroup, memory).0;
      NewcomerGroups(p, p1, g.value, memory.value, p2);
      NewcomerOk(p, socket, memory.value, p2);
    }
  }

  lemma GroupsThere(p: Port)
    requires GroupsOk(p)
    ensures GroupsAllocated(p)
  {
  }

  lemma HasRoom(p: Port, p': Port, g: nat)
    requires AcquiredFrom(p, p', g)
    ensures g in p'.sizes && p'.sizes[g] > 0
  {
  }

  lemma AcquireReleaseOk(p: Port, p1: Port, g: nat)
    requires Inv(p) && p1 == p.(groups := p1.groups, sizes := p1.sizes) && AcquiredFrom(p, p1, g)
    ensures Inv(Release(p1, g)) && Release(p1, g) == p.(groups := Release(p1, g).groups, sizes := Release(p1, g).sizes)
  {
    hide TreeOk, PollsOk, QueuesOk, FineBut, FullFirst, Release, Members;
    ReleaseIsSound(p1, g);
    var p2 := Release(p1, g);
    ReleasedCounts(p, p2, g);
    GroupFieldsFrame(p, p2);
  }

  lemma GroupFieldsFrame(p: Port, p': Port)
    requires p' == p.(groups := p'.groups, sizes := p'.sizes)
    ensures TreeOk(p) ==> TreeOk(p')
    ensures PollsOk(p) ==> PollsOk(p')
    ensures QueuesOk(p) ==> QueuesOk(p')
    ensures FineBut(p, None) ==> FineBut(p', None)
  {
    hide ToAfd, Missing;
  }

  ghost predicate CountsOk(p: Port) {
    && (forall g | g in p.sizes :: p.sizes[g] == |Members(p, g)|)
    && (forall a | a in p.socks :: p.socks[a].group in p.sizes)
  }

  lemma ReleasedCounts(p: Port, p2: Port, g: nat)
    requires CountsOk(p) && p2.socks == p.socks
    requires p2.sizes == p.sizes[g := if g in p.sizes then p.sizes[g] else 0]
    ensures CountsOk(p2)
  {
    assert g !in p.sizes ==> Members(p, g) == {};
    assert forall k :: Members(p2, k) == Members(p, k);
  }

  lemma NewcomerCounts(p: Port, p2: Port, g: nat, a: nat)
    requires CountsOk(p) && a !in p.socks && p2.socks.Keys == p.socks.Keys + {a} && p2.socks[a].group == g
    requires forall b | b in p.socks :: p2.socks[b] == p.socks[b]
    requires p2.sizes == p.sizes[g := (if g in p.sizes then p.sizes[g] else 0) + 1]
    ensures CountsOk(p2)
  {
    hide Members;
    forall k | k in p2.sizes ensures p2.sizes[k] == |Members(p2, k)| {
      NewcomerCount(p, p2, g, a, k);
    }
    forall b | b in p2.socks ensures p2.socks[b].group in p2.sizes {
      assert b != a ==> b in p.socks;
    }
  }

  lemma NewcomerCount(p: Port, p2: Port, g: nat, a: nat, k: nat)
    requires CountsOk(p) && a !in p.socks && p2.socks.Keys == p.socks.Keys + {a} && p2.socks[a].group == g
    requires forall b | b in p.socks :: p2.socks[b] == p.socks[b]
    requires k == g || k in p.sizes
    ensures |Members(p2, k)| == (if k in p.sizes then p.sizes[k] else 0) + if k == g then 1 else 0
  {
    hide Members;
    NewcomerMembers(p, p2, g, a);
    if k == g {
      if g !in p.sizes {
        NoMembers(p, g);
      }
      OneMoreMember(Members(p, g), a, Members(p2, g));
    }
  }

  lemma OneMoreMember(m: set<nat>, a: nat, m': set<nat>)
    requires a !in m && m' == m + {a}
    ensures |m'| == |m| + 1
  {
  }

  lemma NoMembers(p: Port, g: nat)
    requires g !in p.sizes && forall a | a in p.socks :: p.socks[a].group in p.sizes
    ensures Members(p, g) == {}
  {
  }

  lemma NewcomerMembers(p: Port, p2: Port, g: nat, a: nat)
    requires p2.socks.Keys == p.socks.Keys + {a} && p2.socks[a].group == g && a !in p.socks
    requires forall b | b in p.socks :: p2.socks[b] == p.socks[b]
    ensures a !in Members(p, g) && Members(p2, g) == Members(p, g) + {a}
    ensures forall k | k != g :: Members(p2, k) == Members(p, k)
  {
    forall k | k != g ensures Members(p2, k) == Members(p, k) {
      assert forall b :: b in Members(p2, k) <==> b in Members(p, k);
    }
  }

  lemma NewcomerGroups(p: Port, p1: Port, g: nat, a: nat, p2: Port)
    requires GroupsOk(p) && AcquiredFrom(p, p1, g) && a !in p.socks && SameGroups(p1, p2)
    requires p2.socks.Keys == p.socks.Keys + {a} && p2.socks[a].group == g
    requires forall b | b in p.socks :: p2.socks[b] == p.socks[b]
    ensures GroupsOk(p2)
  {
    hide FullFirst, Members, Distinct;
    NewcomerCounts(p, p2, g, a);
  }

  lemma NewcomerOk(p: Port, socket: nat, a: nat, p2: Port)
    requires Inv(p) && a !in p.socks && socket !in p.tree
    requires a in p2.socks && p2.socks == p.socks[a := p2.socks[a]] && p2.tree == p.tree[socket := a]
    requires p2.updates == p.updates && p2.deleted == p.deleted && p2.polls == p.polls
    requires var s := p2.socks[a]; s.socket == socket && s.status == Idle && s.pendingEvents == 0 && !s.deletePending
    ensures TreeOk(p2) && QueuesOk(p2) && PollsOk(p2) && FineBut(p2, Some(a))
  {
    hide GroupsOk, ToAfd, Missing, TreeOk, QueuesOk, PollsOk;
    JoinTree(p, socket, a, p2);
    JoinQueues(p, a, p2);
    JoinPolls(p, a, p2);
  }

  lemma JoinTree(p: Port, socket: nat, a: nat, p2: Port)
    requires TreeOk(p) && a !in p.socks && socket !in p.tree && a in p2.socks
    requires p2.socks == p.socks[a := p2.socks[a]] && p2.tree == p.tree[socket := a]
    requires p2.socks[a].socket == socket && !p2.socks[a].deletePending
    ensures TreeOk(p2)
  {
  }

  lemma JoinQueues(p: Port, a: nat, p2: Port)
    requires QueuesOk(p) && a !in p.socks && a in p2.socks && p2.socks == p.socks[a := p2.socks[a]] && !p2.socks[a].deletePending
    requires p2.updates == p.updates && p2.deleted == p.deleted
    ensures QueuesOk(p2)
  {
  }

  lemma JoinPolls(p: Port, a: nat, p2: Port)
    requires PollsOk(p) && a !in p.socks && a in p2.socks && p2.socks == p.socks[a := p2.socks[a]] && p2.polls == p.polls
    requires p2.socks[a].status == Idle && p2.socks[a].pendingEvents == 0
    ensures PollsOk(p2)
  {
    hide ToAfd;
  }
}
