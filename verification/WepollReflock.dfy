/** The teardown of a wepoll port: the reference lock of its node in the tree of handles, under every
    interleaving of threads that use the handle (epoll_ctl, epoll_wait) or close it (epoll_close).
    Each step is one atomic action. */
module WepollReflock {

  const DESTROY: int := 0x1000_0000
  const POISON: int := 0x300d_ead0

  /** The bits of a state word above and inside the reference count. */
  function High(word: int): int { word / DESTROY }
  function RefCount(word: int): int { word % DESTROY }

  datatype Pc =
    | Idle
    // ts_tree_find_and_ref, with the tree lock held shared
    | Finding | Located | Found | Missed
    // between ts_tree_find_and_ref and the end of ts_tree_node_unref
    | Holding | Signalling
    // ts_tree_del_and_ref, with the tree lock held exclusively
    | Deleting | Removed | Referenced | Absent
    // ts_tree_node_unref_and_destroy
    | Closing | Awaiting | Poisoning | Done

  predicate SharesLock(p: Pc) { p.Finding? || p.Located? || p.Found? || p.Missed? }
  predicate OwnsLock(p: Pc) { p.Deleting? || p.Removed? || p.Referenced? || p.Absent? }
  predicate HoldsRef(p: Pc) { p.Found? || p.Holding? || p.Referenced? || p.Closing? }
  predicate Closes(p: Pc) { p.Removed? || p.Referenced? || p.Closing? || p.Awaiting? || p.Poisoning? || p.Done? }

  /** `failed` records a violated assertion or a use of the node after it was freed. The history
      variables say who closes, who signals, and how often a signal was sent and waited for. */
  datatype System = System(pc: seq<Pc>, inTree: bool, word: int, freed: bool, failed: bool,
                           closer: int, signaller: int, signals: nat, waits: nat)

  const NOBODY: int := -1

  function Start(threads: nat): System {
    System(seq(threads, i => Idle), true, 0, false, false, NOBODY, NOBODY, 0, 0)
  }

  function Move(s: System, t: nat, p: Pc): System
    requires t < |s.pc|
  {
    s.(pc := s.pc[t := p])
  }

  /** A thread's atomic operation on the state word with the assertion that follows it. */
  function Write(s: System, word: int, holds: bool): (s': System)
    ensures s'.pc == s.pc
  {
    s.(word := word, failed := s.failed || s.freed || !holds)
  }

  /** What an idle thread starts. */
  datatype Task = Use | Close

  predicate CanStep(s: System, t: nat, task: Task) {
    && t < |s.pc|
    && match s.pc[t]
       case Idle =>
         forall u | 0 <= u < |s.pc| :: !OwnsLock(s.pc[u]) && (task == Close ==> !SharesLock(s.pc[u]))
       case Signalling => exists u :: 0 <= u < |s.pc| && s.pc[u] == Awaiting
       case Awaiting => false
       case Done => false
       case _ => true
  }

  /** The keyed event is a rendezvous: the signalling thread and the waiting one go on together. */
  function Waiter(pc: seq<Pc>): nat
    requires exists u :: 0 <= u < |pc| && pc[u] == Awaiting
    ensures Waiter(pc) < |pc| && pc[Waiter(pc)] == Awaiting
  {
    if pc[0] == Awaiting then 0
    else
      assert exists u :: 0 <= u < |pc[1..]| && pc[1..][u] == Awaiting by {
        var u :| 0 <= u < |pc| && pc[u] == Awaiting;
        assert pc[1..][u - 1] == Awaiting;
      }
      1 + Waiter(pc[1..])
  }

  function Step(s: System, t: nat, task: Task): System
    requires CanStep(s, t, task)
  {
    match s.pc[t]
    case Idle => Move(s, t, if task == Use then Finding else Deleting)
    // ts_tree_find_and_ref
    case Finding => Move(s, t, if s.inTree then Located else Missed)
    case Located => Move(Write(s, s.word + 1, High(s.word + 1) == 0), t, Found)
    case Found => Move(s, t, Holding)
    case Missed => Move(s, t, Idle)
    // reflock_unref
    case Holding =>
      var w := s.word - 1;
      var s1 := Write(s, w, High(w) == 0 || High(w) == 1);
      if w == DESTROY then Move(s1, t, Signalling).(signaller := t, signals := s1.signals + 1) else Move(s1, t, Idle)
    case Signalling => Move(Move(s, Waiter(s.pc), Poisoning), t, Idle).(signaller := NOBODY)
    // ts_tree_del_and_ref
    case Deleting => if s.inTree then Move(s, t, Removed).(inTree := false, closer := t) else Move(s, t, Absent)
    case Removed => Move(Write(s, s.word + 1, High(s.word + 1) == 0), t, Referenced)
    case Referenced => Move(s, t, Closing)
    case Absent => Move(s, t, Idle)
    // reflock_unref_and_destroy
    case Closing =>
      var w := s.word + DESTROY - 1;
      var s1 := Write(s, w, High(w) == 1);
      if RefCount(w) != 0 then Move(s1, t, Awaiting).(waits := s1.waits + 1) else Move(s1, t, Poisoning)
    // the exchange, after which port_delete frees the node
    case Poisoning => Move(Write(s, POISON, s.word == DESTROY), t, Done).(freed := true)
    case _ => s
  }

  ghost function Holders(s: System): set<nat> { set t | 0 <= t < |s.pc| && HoldsRef(s.pc[t]) }

  /** The tree lock excludes. */
  ghost predicate LockOk(s: System) {
    forall t, u | 0 <= t < |s.pc| && 0 <= u < |s.pc| && t != u && OwnsLock(s.pc[t]) ::
      !OwnsLock(s.pc[u]) && !SharesLock(s.pc[u])
  }

  /** One thread at most closes, and then the node is no longer in the tree. */
  ghost predicate CloserOk(s: System) {
    && (s.inTree <==> s.closer == NOBODY)
    && (s.closer != NOBODY ==> 0 <= s.closer < |s.pc| && Closes(s.pc[s.closer]))
    && (forall t | 0 <= t < |s.pc| && Closes(s.pc[t]) :: t == s.closer)
    && (forall t | 0 <= t < |s.pc| && s.pc[t].Located? :: s.inTree)
  }

  ghost predicate Phase(s: System, p: Pc) { 0 <= s.closer < |s.pc| && s.pc[s.closer] == p }

  /** The word counts the references, and is marked once the closer gave up its own. */
  ghost predicate WordOk(s: System) {
    !s.freed ==> s.word == |Holders(s)| + if Phase(s, Awaiting) || Phase(s, Poisoning) then DESTROY else 0
  }

  /** A signal is on its way exactly when the closer waits and the last reference is gone. */
  ghost predicate SignalOk(s: System) {
    && (forall t | 0 <= t < |s.pc| && s.pc[t].Signalling? :: t == s.signaller)
    && (s.signaller != NOBODY ==> 0 <= s.signaller < |s.pc| && s.pc[s.signaller].Signalling?)
    && (s.signaller != NOBODY <==> Phase(s, Awaiting) && Holders(s) == {})
    && s.signals == (if s.waits == 1 && (s.signaller != NOBODY || !Phase(s, Awaiting)) then 1 else 0)
    && s.waits <= 1 && (Phase(s, Awaiting) ==> s.waits == 1)
    && (s.waits == 1 ==> Phase(s, Awaiting) || Phase(s, Poisoning) || Phase(s, Done))
  }

  /** Once the closer goes on nobody has a reference, and only then is the node freed. */
  ghost predicate EndOk(s: System) {
    && (Phase(s, Poisoning) || Phase(s, Done) ==> Holders(s) == {})
    && (s.freed <==> Phase(s, Done))
  }

  ghost predicate Inv(s: System) {
    |s.pc| < DESTROY && LockOk(s) && CloserOk(s) && WordOk(s) && SignalOk(s) && EndOk(s) && !s.failed
  }

  lemma HoldersAfter(s: System, s': System, t: nat)
    requires t < |s.pc| && t < |s'.pc| && s'.pc == s.pc[t := s'.pc[t]]
    ensures Holders(s') == if HoldsRef(s'.pc[t]) then Holders(s) + {t} else Holders(s) - {t}
    ensures |Holders(s')| == |Holders(s)| + (if HoldsRef(s'.pc[t]) then 1 else 0) - (if HoldsRef(s.pc[t]) then 1 else 0)
  {
    assert t in Holders(s) <==> HoldsRef(s.pc[t]);
    assert Holders(s') == if HoldsRef(s'.pc[t]) then Holders(s) + {t} else Holders(s) - {t};
  }

  lemma {:induction false} AtMostAll(s: set<nat>, n: nat)
    requires forall t | t in s :: t < n
    ensures |s| <= n
  {
    if n == 0 {
      assert s == {};
    } else {
      AtMostAll(s - {n - 1}, n - 1);
    }
  }

  lemma HoldersBound(s: System)
    ensures |Holders(s)| <= |s.pc|
    ensures forall t | 0 <= t < |s.pc| && !HoldsRef(s.pc[t]) :: |Holders(s)| < |s.pc|
  {
    AtMostAll(Holders(s), |s.pc|);
    forall t: nat | t < |s.pc| && !HoldsRef(s.pc[t]) ensures |Holders(s)| < |s.pc| {
      AtMostAll(Holders(s) + {t}, |s.pc|);
    }
  }

  // ---- the lock ----

  lemma LockMove(s: System, s': System, t: nat)
    requires LockOk(s) && t < |s.pc| && t < |s'.pc| && s'.pc == s.pc[t := s'.pc[t]]
    requires OwnsLock(s'.pc[t]) && !OwnsLock(s.pc[t]) ==> forall u | 0 <= u < |s.pc| :: !OwnsLock(s.pc[u]) && !SharesLock(s.pc[u])
    requires SharesLock(s'.pc[t]) && !SharesLock(s.pc[t]) ==> forall u | 0 <= u < |s.pc| :: !OwnsLock(s.pc[u])
    ensures LockOk(s')
  {
  }

  /** A step other than the rendezvous moves one thread, and only an idle thread comes to hold the lock. */
  lemma OneMoves(s: System, t: nat, task: Task)
    requires t < |s.pc| && CanStep(s, t, task) && s.pc[t] != Signalling
    ensures var s' := Step(s, t, task); |s'.pc| == |s.pc| && s'.pc == s.pc[t := s'.pc[t]]
  {
    hide CanStep, Waiter, High, RefCount, DESTROY;
    if s.pc[t] == Awaiting || s.pc[t] == Done {
      assert s.pc == s.pc[t := s.pc[t]];
    }
  }

  /** A thread takes the lock of the tree only when it starts. */
  lemma LockTaken(s: System, t: nat, task: Task)
    requires t < |s.pc| && CanStep(s, t, task) && s.pc[t] != Signalling && t < |Step(s, t, task).pc|
    ensures var p := Step(s, t, task).pc[t];
            && (OwnsLock(p) ==> OwnsLock(s.pc[t]) || (s.pc[t] == Idle && task == Close))
            && (SharesLock(p) ==> SharesLock(s.pc[t]) || s.pc[t] == Idle)
  {
    hide CanStep, Waiter, High, RefCount, DESTROY, Write;
  }

  lemma LockKept(s: System, t: nat, task: Task)
    requires LockOk(s) && CanStep(s, t, task)
    ensures LockOk(Step(s, t, task))
  {
    hide Waiter, LockOk, High, RefCount, Write;
    if s.pc[t] == Signalling {
      var u := Waiter(s.pc);
      var s1 := Move(s, u, Poisoning);
      LockMove(s, s1, u);
      LockMove(s1, Step(s, t, task), t);
    } else {
      OneMoves(s, t, task);
      LockTaken(s, t, task);
      hide Step;
      LockMove(s, Step(s, t, task), t);
    }
  }

  // ---- steps that change neither references nor the closer ----

  predicate Late(p: Pc) { p.Awaiting? || p.Poisoning? || p.Done? || p.Signalling? }

  lemma QuietMove(s: System, t: nat, p: Pc)
    requires Inv(s) && t < |s.pc| && HoldsRef(p) == HoldsRef(s.pc[t]) && Closes(p) == Closes(s.pc[t])
    requires !Late(p) && !Late(s.pc[t]) && (p.Located? ==> s.inTree)
    ensures var s' := Move(s, t, p); CloserOk(s') && WordOk(s') && SignalOk(s') && EndOk(s')
  {
    hide LockOk, CloserOk, Holders, Phase, High, RefCount, Closes, Late;
    HoldersAfter(s, Move(s, t, p), t);
    HolderIsIn(s, t);
    QuietCloser(s, t, p);
    SamePhase(s, t, p);
  }

  lemma QuietCloser(s: System, t: nat, p: Pc)
    requires CloserOk(s) && t < |s.pc| && Closes(p) == Closes(s.pc[t]) && (p.Located? ==> s.inTree)
    ensures CloserOk(Move(s, t, p))
  {
  }

  lemma SamePhase(s: System, t: nat, p: Pc)
    requires t < |s.pc| && !Late(p) && !Late(s.pc[t])
    ensures p != Signalling && s.pc[t] != Signalling
    ensures var s' := Move(s, t, p);
            && Phase(s', Awaiting) == Phase(s, Awaiting) && Phase(s', Poisoning) == Phase(s, Poisoning) && Phase(s', Done) == Phase(s, Done)
  {
  }

  lemma HolderIsIn(s: System, t: nat)
    requires t < |s.pc|
    ensures t in Holders(s) <==> HoldsRef(s.pc[t])
    ensures HoldsRef(s.pc[t]) ==> |Holders(s)| > 0
  {
  }

  // ---- references ----

  /** A reference is gained only while the closer, if any, has its own still. */
  lemma RefStep(s: System, t: nat, task: Task)
    requires Inv(s) && CanStep(s, t, task) && (s.pc[t] == Located || s.pc[t] == Removed)
    ensures var s' := Step(s, t, task);
            CloserOk(s') && WordOk(s') && SignalOk(s') && EndOk(s') && !s'.failed
  {
    hide LockOk, Holders;
    HoldersAfter(s, Step(s, t, task), t);
    HoldersBound(s);
    assert !s.freed && s.word == |Holders(s)| && |Holders(s)| < |s.pc|;
    SmallWord(s.word + 1);
  }

  lemma SmallWord(w: int)
    requires 0 <= w < DESTROY
    ensures High(w) == 0 && RefCount(w) == w
    ensures High(w + DESTROY) == 1 && RefCount(w + DESTROY) == w
  {
  }

  lemma UnrefStep(s: System, t: nat, task: Task)
    requires Inv(s) && CanStep(s, t, task) && s.pc[t] == Holding
    ensures var s' := Step(s, t, task);
            CloserOk(s') && WordOk(s') && SignalOk(s') && EndOk(s') && !s'.failed
  {
    hide LockOk, Holders, High, RefCount;
    var s' := Step(s, t, task);
    HoldersAfter(s, s', t);
    HoldersBound(s);
    HolderIsIn(s, t);
    assert !s.freed;
    SmallWord(|Holders(s)| - 1);
  }

  // ---- the closer ----

  lemma RemoveStep(s: System, t: nat, task: Task)
    requires Inv(s) && CanStep(s, t, task) && s.pc[t] == Deleting && s.inTree
    ensures var s' := Step(s, t, task);
            CloserOk(s') && WordOk(s') && SignalOk(s') && EndOk(s') && !s'.failed
  {
    hide Holders;
    HoldersAfter(s, Step(s, t, task), t);
    HolderIsIn(s, t);
    assert forall u | 0 <= u < |s.pc| :: !s.pc[u].Located?;
  }

  lemma GiveUpStep(s: System, t: nat, task: Task)
    requires Inv(s) && CanStep(s, t, task) && s.pc[t] == Closing
    ensures var s' := Step(s, t, task);
            CloserOk(s') && WordOk(s') && SignalOk(s') && EndOk(s') && !s'.failed
  {
    hide LockOk, Holders, High, RefCount;
    var s' := Step(s, t, task);
    HoldersAfter(s, s', t);
    HoldersBound(s);
    HolderIsIn(s, t);
    assert !s.freed && s.word == |Holders(s)|;
    SmallWord(|Holders(s)| - 1);
    assert |Holders(s')| == 0 ==> Holders(s') == {};
  }

  lemma PoisonStep(s: System, t: nat, task: Task)
    requires Inv(s) && CanStep(s, t, task) && s.pc[t] == Poisoning
    ensures var s' := Step(s, t, task);
            CloserOk(s') && WordOk(s') && SignalOk(s') && EndOk(s') && !s'.failed
  {
    hide LockOk, Holders;
    HoldersAfter(s, Step(s, t, task), t);
  }

  lemma SignalStep(s: System, t: nat, task: Task)
    requires Inv(s) && CanStep(s, t, task) && s.pc[t] == Signalling
    ensures var s' := Step(s, t, task);
            CloserOk(s') && WordOk(s') && SignalOk(s') && EndOk(s') && !s'.failed
  {
    hide LockOk, Holders, Waiter;
    var u := Waiter(s.pc);
    assert u == s.closer && t == s.signaller && Holders(s) == {};
    SameHolders(s, t, u, Step(s, t, task));
    Rendezvous(s, t, u, Step(s, t, task));
  }

  lemma SameHolders(s: System, t: nat, u: nat, s': System)
    requires t < |s.pc| && u < |s.pc| && s.pc[t] == Signalling && s.pc[u] == Awaiting && s'.pc == s.pc[u := Poisoning][t := Idle]
    ensures Holders(s') == Holders(s)
  {
  }

  lemma Rendezvous(s: System, t: nat, u: nat, s': System)
    requires Inv(s) && t < |s.pc| && u < |s.pc| && u == s.closer && t == s.signaller && Holders(s) == {} == Holders(s')
    requires s.pc[t] == Signalling && s.pc[u] == Awaiting && s' == s.(pc := s.pc[u := Poisoning][t := Idle], signaller := NOBODY)
    ensures CloserOk(s') && WordOk(s') && SignalOk(s') && EndOk(s') && !s'.failed
  {
    hide LockOk, Holders;
  }

  lemma StepKeeps(s: System, t: nat, task: Task)
    requires Inv(s) && CanStep(s, t, task)
    ensures Inv(Step(s, t, task))
  {
    hide LockOk, CloserOk, WordOk, SignalOk, EndOk, Holders, Waiter, High, RefCount, DESTROY;
    LockKept(s, t, task);
    match s.pc[t]
    case Located => RefStep(s, t, task);
    case Removed => RefStep(s, t, task);
    case Holding => UnrefStep(s, t, task);
    case Signalling => SignalStep(s, t, task);
    case Closing => GiveUpStep(s, t, task);
    case Poisoning => PoisonStep(s, t, task);
    case Deleting =>
      if s.inTree {
        RemoveStep(s, t, task);
      } else {
        QuietMove(s, t, Absent);
      }
    case Idle => QuietMove(s, t, if task == Use then Finding else Deleting);
    case Finding => QuietMove(s, t, if s.inTree then Located else Missed);
    case Found => QuietMove(s, t, Holding);
    case Missed => QuietMove(s, t, Idle);
    case Referenced => QuietMove(s, t, Closing);
    case Absent => QuietMove(s, t, Idle);
    case _ => assert false;
  }

  // ---- runs ----

  datatype Turn = Turn(thread: nat, task: Task)

  ghost predicate Possible(s: System, turns: seq<Turn>)
    decreases |turns|
  {
    turns == [] || (CanStep(s, turns[0].thread, turns[0].task) && Possible(Step(s, turns[0].thread, turns[0].task), turns[1..]))
  }

  ghost function Run(s: System, turns: seq<Turn>): System
    requires Possible(s, turns)
    decreases |turns|
  {
    if turns == [] then s else Run(Step(s, turns[0].thread, turns[0].task), turns[1..])
  }

  ghost predicate Leads(s: System, s': System) { exists turns :: Possible(s, turns) && s' == Run(s, turns) }

  /** The states of every interleaving of fewer than 2^28 threads. */
  ghost predicate Reachable(s: System) { exists n: nat | n < DESTROY :: Leads(Start(n), s) }

  lemma StartIsFine(n: nat)
    requires n < DESTROY
    ensures Inv(Start(n))
  {
    assert Holders(Start(n)) == {};
  }

  lemma {:induction false} RunKeeps(s: System, turns: seq<Turn>)
    requires Inv(s) && Possible(s, turns)
    ensures Inv(Run(s, turns))
    decreases |turns|
  {
    hide Inv, CanStep, Step;
    if turns != [] {
      StepKeeps(s, turns[0].thread, turns[0].task);
      RunKeeps(Step(s, turns[0].thread, turns[0].task), turns[1..]);
    }
  }

  lemma ReachableIsFine(s: System)
    requires Reachable(s)
    ensures Inv(s)
  {
    hide Inv, Start, DESTROY;
    var n: nat :| n < DESTROY && Leads(Start(n), s);
    var turns :| Possible(Start(n), turns) && s == Run(Start(n), turns);
    StartIsFine(n);
    RunKeeps(Start(n), turns);
  }

  /** In every interleaving: no assertion of the reference lock fails and nobody touches the node
      after it was freed; when reflock_unref_and_destroy is done no thread holds a reference, and
      exactly one signal was sent if it had to wait and none otherwise. */
  lemma TeardownIsSafe(s: System)
    requires Reachable(s)
    ensures !s.failed && s.signals <= s.waits <= 1
    ensures forall t | 0 <= t < |s.pc| && s.pc[t] == Done ::
              s.freed && s.signals == s.waits && forall u | 0 <= u < |s.pc| :: !HoldsRef(s.pc[u]) && s.pc[u] != Signalling
  {
    hide Step, High, RefCount;
    ReachableIsFine(s);
    forall t, u | 0 <= t < |s.pc| && s.pc[t] == Done && 0 <= u < |s.pc| ensures !HoldsRef(s.pc[u]) {
      HolderIsIn(s, u);
    }
  }

  /** After the node left the tree only the thread that took it out gains a reference. */
  lemma NoReferenceAfterDelete(s: System, t: nat, task: Task)
    requires Reachable(s) && !s.inTree && CanStep(s, t, task)
    ensures var s' := Step(s, t, task);
            && !s'.inTree && s'.closer == s.closer
            && forall u | 0 <= u < |s'.pc| && HoldsRef(s'.pc[u]) :: (u < |s.pc| && HoldsRef(s.pc[u])) || u == s.closer
  {
    hide High, RefCount, Holders, Waiter, LockOk, WordOk, EndOk, SignalOk, Reachable;
    ReachableIsFine(s);
    NotLocated(s, t);
  }

  lemma NotLocated(s: System, t: nat)
    requires CloserOk(s) && !s.inTree && t < |s.pc|
    ensures s.pc[t] != Located && (s.pc[t] == Removed ==> t == s.closer)
  {
  }

  // ---- the teardown cannot get stuck ----

  lemma LeadsAfter(s: System, t: nat, task: Task, s': System)
    requires CanStep(s, t, task) && Leads(Step(s, t, task), s')
    ensures Leads(s, s')
  {
    hide CanStep, Step;
    var turns :| Possible(Step(s, t, task), turns) && s' == Run(Step(s, t, task), turns);
    var all := [Turn(t, task)] + turns;
    assert all[0] == Turn(t, task) && all[1..] == turns;
    assert Possible(s, all) && Run(s, all) == s';
  }

  /** How far the closer still has to go. */
  ghost function Remaining(s: System): nat
    requires 0 <= s.closer < |s.pc|
  {
    match s.pc[s.closer]
    case Removed => 4
    case Referenced => 3
    case Closing => 2
    case Awaiting => 1
    case Poisoning => 1
    case _ => 0
  }

  ghost predicate Ends(s: System) { exists s' :: Leads(s, s') && s'.freed }

  lemma EndsAfter(s: System, t: nat)
    requires CanStep(s, t, Use) && Ends(Step(s, t, Use))
    ensures Ends(s)
  {
    hide CanStep, Step, Leads;
    var s' :| Leads(Step(s, t, Use), s') && s'.freed;
    LeadsAfter(s, t, Use, s');
  }

  /** While the closer waits and no signal is on its way, some thread holds a reference and can
      give it up. */
  lemma SomeoneHolds(s: System) returns (h: nat)
    requires Inv(s) && Phase(s, Awaiting) && s.signaller == NOBODY
    ensures h < |s.pc| && (s.pc[h] == Found || s.pc[h] == Holding)
  {
    hide LockOk, WordOk, EndOk;
    var x :| x in Holders(s);
    h := x;
  }

  lemma HolderLetsGo(s: System, h: nat)
    requires Inv(s) && Phase(s, Awaiting) && s.signaller == NOBODY && h < |s.pc| && s.pc[h] == Holding
    ensures CanStep(s, h, Use)
    ensures var s' := Step(s, h, Use);
            && Inv(s') && s'.closer == s.closer && Phase(s', Awaiting) && |Holders(s')| < |Holders(s)|
  {
    hide LockOk, WordOk, EndOk, SignalOk, High, Holders;
    assert CanStep(s, h, Use);
    StepKeeps(s, h, Use);
    HoldersAfter(s, Step(s, h, Use), h);
  }

  lemma HolderGoesOn(s: System, h: nat)
    requires Inv(s) && Phase(s, Awaiting) && s.signaller == NOBODY && h < |s.pc| && s.pc[h] == Found
    ensures CanStep(s, h, Use)
    ensures var s' := Step(s, h, Use);
            && Inv(s') && s'.closer == s.closer && Phase(s', Awaiting) && |Holders(s')| == |Holders(s)| && s'.signaller == NOBODY
            && |s'.pc| == |s.pc| && s'.pc[h] == Holding
  {
    hide LockOk, WordOk, EndOk, SignalOk, High, Holders;
    assert CanStep(s, h, Use);
    StepKeeps(s, h, Use);
    HoldersAfter(s, Step(s, h, Use), h);
  }

  lemma CloserGoesOn(s: System)
    requires Inv(s) && s.closer != NOBODY && !s.freed && !Phase(s, Awaiting)
    ensures 0 <= s.closer < |s.pc| && CanStep(s, s.closer, Use)
    ensures var s' := Step(s, s.closer, Use);
            Inv(s') && s'.closer == s.closer && 0 <= s.closer < |s'.pc| && Remaining(s') < Remaining(s)
  {
    hide LockOk, WordOk, SignalOk, High, RefCount, Holders;
    assert CanStep(s, s.closer, Use);
    StepKeeps(s, s.closer, Use);
  }

  lemma SignalGoesOn(s: System)
    requires Inv(s) && s.signaller != NOBODY
    ensures 0 <= s.closer < |s.pc| && 0 <= s.signaller < |s.pc| && CanStep(s, s.signaller, Use)
    ensures var s' := Step(s, s.signaller, Use);
            Inv(s') && s'.closer == s.closer && 0 <= s.closer < |s'.pc| && Remaining(s') <= 1 && Phase(s', Poisoning)
  {
    hide LockOk, WordOk, EndOk, High, RefCount, Holders, Waiter;
    assert s.pc[s.closer] == Awaiting;
    assert CanStep(s, s.signaller, Use);
    StepKeeps(s, s.signaller, Use);
  }

  /** From every state in which a thread closes the port there is a way to the end of the teardown:
      the closer never waits for a signal that nobody can send. */
  lemma {:induction false} TeardownCanEnd(s: System)
    requires Inv(s) && s.closer != NOBODY && 0 <= s.closer < |s.pc|
    ensures Ends(s)
    decreases Remaining(s), if Phase(s, Awaiting) then 1 else 0, |Holders(s)|
  {
    hide Inv, Step, CanStep, Leads, Holders, Ends;
    if s.freed {
      AlreadyEnded(s);
    } else if !Phase(s, Awaiting) {
      CloserGoesOn(s);
      TeardownCanEnd(Step(s, s.closer, Use));
      EndsAfter(s, s.closer);
    } else if s.signaller != NOBODY {
      SignalGoesOn(s);
      TeardownCanEnd(Step(s, s.signaller, Use));
      EndsAfter(s, s.signaller);
    } else {
      var h := SomeoneHolds(s);
      if s.pc[h] == Holding {
        HolderLetsGo(s, h);
        TeardownCanEnd(Step(s, h, Use));
      } else {
        HolderGoesOn(s, h);
        var s1 := Step(s, h, Use);
        HolderLetsGo(s1, h);
        TeardownCanEnd(Step(s1, h, Use));
        EndsAfter(s1, h);
      }
      EndsAfter(s, h);
    }
  }

  lemma AlreadyEnded(s: System)
    requires s.freed
    ensures Ends(s)
  {
    assert Possible(s, []) && Run(s, []) == s;
    assert Leads(s, s);
  }
}
