/** RingBuffer over many poller threads: each has a copy of the cache, kept in step by the tasks that
    write posts to the thread, and readers that see the cached frames and then every new one. */
module RingReplicas {
  import opened RingStorage

  datatype Task<T> = Put(frame: Frame<T>) | ClearTask

  /** `start` and `attached` are positions in the stream of all frames: where the reader's first frame
      stands, and how far its dispatcher was when it was attached. */
  datatype Reader<T> = Reader(seen: seq<Frame<T>>, start: nat, attached: nat)

  /** `done` counts the frames that the dispatcher's storage has been given, directly or by cloning. */
  datatype Dispatcher<T> = Dispatcher(storage: Storage<T>, pending: seq<Task<T>>, done: nat, readers: map<nat, Reader<T>>)

  datatype Ring<T> = Ring(main: Storage<T>, history: seq<Frame<T>>, dispatchers: map<nat, Dispatcher<T>>)

  /** RingBuffer's write, attach and clearCache, the end of a reader, and a poller thread running the
      next of its tasks. */
  datatype Event<T> =
    | WriteFrame(frame: Frame<T>)
    | RunTask(poller: nat)
    | Attach(poller: nat, reader: nat, useCache: bool, maxGop: nat)
    | Detach(poller: nat, reader: nat)
    | ClearCache

  /** The GOPs that flushGop hands to a new reader. */
  function Flushed<T>(s: Storage<T>, maxGop: nat): Gops<T> {
    s.cache[(if |s.cache| > maxGop then |s.cache| - maxGop else 0)..]
  }

  function Enabled<T>(r: Ring<T>, e: Event<T>): bool {
    match e
    case RunTask(p) => p in r.dispatchers && r.dispatchers[p].pending != []
    case Attach(p, id, _, _) => p in r.dispatchers ==> id !in r.dispatchers[p].readers
    case Detach(p, id) => p in r.dispatchers && id in r.dispatchers[p].readers
    case _ => true
  }

  function Posted<T>(ds: map<nat, Dispatcher<T>>, task: Task<T>): map<nat, Dispatcher<T>> {
    map p | p in ds :: ds[p].(pending := ds[p].pending + [task])
  }

  function Ran<T>(d: Dispatcher<T>): Dispatcher<T>
    requires d.pending != [] && d.storage.cache != [] && d.storage.size == |Flatten(d.storage.cache)|
  {
    var rest := d.pending[1..];
    match d.pending[0]
    case Put(f) =>
      Dispatcher(Write(d.storage, f), rest, d.done + 1,
                 map id | id in d.readers :: d.readers[id].(seen := d.readers[id].seen + [f]))
    case ClearTask => d.(pending := rest, storage := if |d.readers| == 0 then Clear(d.storage) else d.storage)
  }

  function Joined<T>(d: Dispatcher<T>, id: nat, useCache: bool, maxGop: nat): Dispatcher<T> {
    var seen := if useCache then Flatten(Flushed(d.storage, maxGop)) else [];
    d.(readers := d.readers[id := Reader(seen, if |seen| <= d.done then d.done - |seen| else 0, d.done)])
  }

  function Left<T>(ds: map<nat, Dispatcher<T>>, p: nat, id: nat): map<nat, Dispatcher<T>>
    requires p in ds
  {
    var rest := ds[p].readers - {id};
    if |rest| == 0 then ds - {p} else ds[p := ds[p].(readers := rest)]
  }

  /** A dispatcher's storage and readers against the stream. */
  ghost predicate DispatcherOk<T>(d: Dispatcher<T>, h: seq<Frame<T>>) {
    && d.done <= |h| && Puts(d.pending) == h[d.done..] && Holds(d.storage, h[..d.done])
    && (forall id | id in d.readers :: ReaderOk(d.readers[id], d.done, h))
  }

  /** What a reader saw is one run of the stream, up to where its dispatcher is: no frame is missing
      and none comes twice. It starts where the reader was attached, or earlier at a key frame, or at
      a frame before the first key frame. */
  ghost predicate ReaderOk<T>(r: Reader<T>, done: nat, h: seq<Frame<T>>) {
    && r.start <= r.attached <= done <= |h| && r.seen == h[r.start..done]
    && (r.start < r.attached ==> h[r.start].key || NoKey(h[..r.start + 1]))
  }

  function Puts<T>(tasks: seq<Task<T>>): seq<Frame<T>> {
    if tasks == [] then [] else (if tasks[0].Put? then [tasks[0].frame] else []) + Puts(tasks[1..])
  }

  ghost predicate Inv<T>(r: Ring<T>) {
    Holds(r.main, r.history) && forall p | p in r.dispatchers :: DispatcherOk(r.dispatchers[p], r.history)
  }

  lemma StorageSizes<T>(s: Storage<T>, h: seq<Frame<T>>)
    requires Holds(s, h)
    ensures s.cache != [] && s.size == |Flatten(s.cache)| <= |h|
  {
  }

  ghost function Next<T>(r: Ring<T>, e: Event<T>): Ring<T>
    requires Inv(r) && Enabled(r, e)
  {
    match e
    case WriteFrame(f) =>
      StorageSizes(r.main, r.history);
      Ring(Write(r.main, f), r.history + [f], Posted(r.dispatchers, Put(f)))
    case RunTask(p) =>
      StorageSizes(r.dispatchers[p].storage, r.history[..r.dispatchers[p].done]);
      r.(dispatchers := r.dispatchers[p := Ran(r.dispatchers[p])])
    case Attach(p, id, useCache, maxGop) =>
      var d := if p in r.dispatchers then r.dispatchers[p] else Dispatcher(r.main, [], |r.history|, map[]);
      r.(dispatchers := r.dispatchers[p := Joined(d, id, useCache, maxGop)])
    case Detach(p, id) => r.(dispatchers := Left(r.dispatchers, p, id))
    case ClearCache => r.(main := Clear(r.main), dispatchers := Posted(r.dispatchers, ClearTask))
  }

  // ---- every step keeps the invariant ----

  lemma {:induction false} PutsAppend<T>(tasks: seq<Task<T>>, t: Task<T>)
    ensures Puts(tasks + [t]) == Puts(tasks) + if t.Put? then [t.frame] else []
  {
    if tasks == [] {
      assert tasks + [t] == [t] && Puts([t][1..]) == [];
    } else {
      PutsAppend(tasks[1..], t);
      assert (tasks + [t])[0] == tasks[0] && (tasks + [t])[1..] == tasks[1..] + [t];
    }
  }

  lemma PostKeeps<T>(d: Dispatcher<T>, h: seq<Frame<T>>, f: Frame<T>)
    requires DispatcherOk(d, h)
    ensures DispatcherOk(d.(pending := d.pending + [Put(f)]), h + [f])
  {
    hide Holds, NoKey;
    PutsAppend(d.pending, Put(f));
    assert (h + [f])[..d.done] == h[..d.done] && (h + [f])[d.done..] == h[d.done..] + [f];
    forall id | id in d.readers ensures ReaderOk(d.readers[id], d.done, h + [f]) {
      var r := d.readers[id];
      assert (h + [f])[r.start..d.done] == h[r.start..d.done];
      assert r.start < r.attached ==> (h + [f])[..r.start + 1] == h[..r.start + 1];
    }
  }

  lemma PostClearKeeps<T>(d: Dispatcher<T>, h: seq<Frame<T>>)
    requires DispatcherOk(d, h)
    ensures DispatcherOk(d.(pending := d.pending + [ClearTask]), h)
  {
    PutsAppend(d.pending, ClearTask);
  }

  lemma RanKeeps<T>(d: Dispatcher<T>, h: seq<Frame<T>>)
    requires DispatcherOk(d, h) && d.pending != []
    ensures d.storage.cache != [] && d.storage.size == |Flatten(d.storage.cache)| && DispatcherOk(Ran(d), h)
  {
    hide Holds, ReaderOk, Write, Clear, Flatten;
    StorageSizes(d.storage, h[..d.done]);
    match d.pending[0]
    case ClearTask => ClearKeeps(d.storage, h[..d.done]);
    case Put(f) =>
      StreamMoves(h, d.done, f, Puts(d.pending[1..]));
      WriteKeeps(d.storage, h[..d.done], f);
      forall id | id in d.readers ensures ReaderOk(Ran(d).readers[id], d.done + 1, h) {
        ReaderMoves(d.readers[id], d.done, h, f);
      }
  }

  lemma StreamMoves<T>(h: seq<Frame<T>>, done: nat, f: Frame<T>, rest: seq<Frame<T>>)
    requires done <= |h| && h[done..] == [f] + rest
    ensures done < |h| && h[done] == f && h[done + 1..] == rest && h[..done] + [f] == h[..done + 1]
  {
    assert h[done..][0] == f && h[done..][1..] == rest;
  }

  lemma ReaderMoves<T>(r: Reader<T>, done: nat, h: seq<Frame<T>>, f: Frame<T>)
    requires ReaderOk(r, done, h) && done < |h| && h[done] == f
    ensures ReaderOk(r.(seen := r.seen + [f]), done + 1, h)
  {
    assert h[r.start..done] + [f] == h[r.start..done + 1];
  }

  /** What a new reader is handed is the end of the stream so far, from a key frame on or from
      before the first one. */
  lemma FlushedIsRun<T>(s: Storage<T>, h: seq<Frame<T>>, maxGop: nat)
    requires Holds(s, h)
    ensures var seen := Flatten(Flushed(s, maxGop)); var start := |h| - |seen|;
            0 <= start && seen == h[start..] && (seen != [] ==> h[start].key || NoKey(h[..start + 1]))
  {
    hide Holds, NoKey, Flatten;
    var k := if |s.cache| > maxGop then |s.cache| - maxGop else 0;
    TailOfCache(s, h, k);
    if Flatten(s.cache[k..]) != [] {
      if k > 0 {
        GopStart(s, h, k);
      } else {
        assert s.cache[0..] == s.cache;
        FirstHead(s, h);
      }
    }
  }

  lemma TailOfCache<T>(s: Storage<T>, h: seq<Frame<T>>, k: nat)
    requires Holds(s, h) && k <= |s.cache|
    ensures var m := |Flatten(s.cache[k..])|; m <= |h| && Flatten(s.cache[k..]) == h[|h| - m..]
  {
    hide Grouped, NoKey;
    FlattenAppend(s.cache[..k], s.cache[k..]);
    assert s.cache[..k] + s.cache[k..] == s.cache;
    var n, m := |Flatten(s.cache)|, |Flatten(s.cache[k..])|;
    assert h[|h| - m..] == h[|h| - n..][n - m..];
  }

  lemma GopStart<T>(s: Storage<T>, h: seq<Frame<T>>, k: nat)
    requires Holds(s, h) && 0 < k <= |s.cache| && Flatten(s.cache[k..]) != []
    ensures var start := |h| - |Flatten(s.cache[k..])|; 0 <= start < |h| && h[start].key
  {
    hide NoKey;
    TailOfCache(s, h, k);
    var rest := s.cache[k..];
    assert rest != [] && rest[0] == s.cache[k];
    assert Flatten(rest) == rest[0] + Flatten(rest[1..]);
    FlattenOne<T>([]);
    assert rest[0] == [] ==> rest == [[]];
    assert h[|h| - |Flatten(rest)|..][0] == rest[0][0];
  }

  lemma FirstHead<T>(s: Storage<T>, h: seq<Frame<T>>)
    requires Holds(s, h) && Flatten(s.cache) != []
    ensures var start := |h| - |Flatten(s.cache)|; h[start].key || NoKey(h[..start + 1])
  {
    FlattenOne<T>([]);
    assert s.cache[0] == [] ==> s.cache == [[]];
    assert Flatten(s.cache) == s.cache[0] + Flatten(s.cache[1..]);
    var n := |Flatten(s.cache)|;
    assert h[|h| - n..][0] == s.cache[0][0];
    if !s.cache[0][0].key {
      assert h[..|h| - n + |s.cache[0]|][..|h| - n + 1] == h[..|h| - n + 1];
    }
  }

  lemma JoinKeeps<T>(d: Dispatcher<T>, h: seq<Frame<T>>, id: nat, useCache: bool, maxGop: nat)
    requires DispatcherOk(d, h)
    ensures DispatcherOk(Joined(d, id, useCache, maxGop), h)
  {
    hide Holds, NoKey, Flushed, Flatten;
    var past := h[..d.done];
    FlushedIsRun(d.storage, past, maxGop);
    var seen := if useCache then Flatten(Flushed(d.storage, maxGop)) else [];
    var start := d.done - |seen|;
    assert past[start..] == h[start..d.done];
    assert seen != [] ==> past[start] == h[start] && past[..start + 1] == h[..start + 1];
  }

  /** Every step, clearCache included, keeps the storages and the readers true to the stream. */
  lemma NextKeeps<T>(r: Ring<T>, e: Event<T>)
    requires Inv(r) && Enabled(r, e)
    ensures Inv(Next(r, e))
  {
    hide Holds, DispatcherOk, Write, Clear, Ran, Joined;
    var r' := Next(r, e);
    match e
    case WriteFrame(f) =>
      WriteKeeps(r.main, r.history, f);
      forall p | p in r'.dispatchers ensures DispatcherOk(r'.dispatchers[p], r'.history) {
        PostKeeps(r.dispatchers[p], r.history, f);
      }
    case RunTask(p) => RunFits(r, p);
    case Attach(p, id, useCache, maxGop) =>
      var d := if p in r.dispatchers then r.dispatchers[p] else Dispatcher(r.main, [], |r.history|, map[]);
      if p !in r.dispatchers {
        CloneFits(r.main, r.history);
      }
      JoinKeeps(d, r.history, id, useCache, maxGop);
    case Detach(p, id) =>
      if p in r'.dispatchers {
        LeaveKeeps(r.dispatchers[p], r.history, r.dispatchers[p].readers - {id});
      }
    case ClearCache =>
      ClearKeeps(r.main, r.history);
      forall p | p in r'.dispatchers ensures DispatcherOk(r'.dispatchers[p], r'.history) {
        PostClearKeeps(r.dispatchers[p], r.history);
      }
  }

  lemma RunFits<T>(r: Ring<T>, p: nat)
    requires Inv(r) && p in r.dispatchers && r.dispatchers[p].pending != []
    ensures Inv(Next(r, RunTask(p)))
  {
    hide Holds, DispatcherOk, Write, Clear;
    RanKeeps(r.dispatchers[p], r.history);
  }

  lemma CloneFits<T>(s: Storage<T>, h: seq<Frame<T>>)
    requires Holds(s, h)
    ensures DispatcherOk(Dispatcher(s, [], |h|, map[]), h)
  {
    assert h[..|h|] == h && h[|h|..] == [];
  }

  lemma LeaveKeeps<T>(d: Dispatcher<T>, h: seq<Frame<T>>, readers: map<nat, Reader<T>>)
    requires DispatcherOk(d, h) && (forall id | id in readers :: id in d.readers && readers[id] == d.readers[id])
    ensures DispatcherOk(d.(readers := readers), h)
  {
  }

  // ---- replicas ----

  ghost function Replay<T>(s: Storage<T>, h: seq<Frame<T>>, fs: seq<Frame<T>>): (r: Storage<T>)
    requires Holds(s, h)
    ensures Holds(r, h + fs)
    decreases |fs|
  {
    if fs == [] then
      assert h + fs == h;
      s
    else
      WriteKeeps(s, h, fs[0]);
      StorageSizes(s, h);
      HeadMoves(h, fs);
      Replay(Write(s, fs[0]), h + [fs[0]], fs[1..])
  }

  lemma HeadMoves<T>(h: seq<Frame<T>>, fs: seq<Frame<T>>)
    requires fs != []
    ensures (h + [fs[0]]) + fs[1..] == h + fs
  {
  }

  lemma {:induction false} ReplayAppend<T>(s: Storage<T>, h: seq<Frame<T>>, fs: seq<Frame<T>>, f: Frame<T>)
    requires Holds(s, h)
    ensures var r := Replay(s, h, fs); r.cache != [] && r.size == |Flatten(r.cache)| && Replay(s, h, fs + [f]) == Write(r, f)
    decreases |fs|
  {
    hide Holds, Write, Flatten;
    StorageSizes(Replay(s, h, fs), h + fs);
    if fs == [] {
      assert fs + [f] == [f] && [f][1..] == [];
    } else {
      WriteKeeps(s, h, fs[0]);
      StorageSizes(s, h);
      assert (fs + [f])[0] == fs[0] && (fs + [f])[1..] == fs[1..] + [f];
      ReplayAppend(Write(s, fs[0]), h + [fs[0]], fs[1..], f);
    }
  }

  /** The dispatcher's storage is the main one as soon as its pending writes have run. */
  ghost predicate InSync<T>(d: Dispatcher<T>, r: Ring<T>)
    requires DispatcherOk(d, r.history)
  {
    (forall t | t in d.pending :: t.Put?) && Replay(d.storage, r.history[..d.done], Puts(d.pending)) == r.main
  }

  ghost predicate AllInSync<T>(r: Ring<T>)
    requires Inv(r)
  {
    forall p | p in r.dispatchers :: InSync(r.dispatchers[p], r)
  }

  lemma PostKeepsSync<T>(d: Dispatcher<T>, r: Ring<T>, f: Frame<T>, r': Ring<T>)
    requires DispatcherOk(d, r.history) && InSync(d, r) && r'.history == r.history + [f]
    requires r.main.cache != [] && r.main.size == |Flatten(r.main.cache)| && r'.main == Write(r.main, f)
    ensures var d' := d.(pending := d.pending + [Put(f)]); DispatcherOk(d', r'.history) && InSync(d', r')
  {
    hide Holds, Write, Flatten, ReaderOk, Replay;
    PostKeeps(d, r.history, f);
    PutsAppend(d.pending, Put(f));
    ReplayAppend(d.storage, r.history[..d.done], Puts(d.pending), f);
    assert r'.history[..d.done] == r.history[..d.done];
  }

  lemma RanKeepsSync<T>(d: Dispatcher<T>, r: Ring<T>)
    requires DispatcherOk(d, r.history) && InSync(d, r) && d.pending != []
    ensures d.storage.cache != [] && d.storage.size == |Flatten(d.storage.cache)| && DispatcherOk(Ran(d), r.history) && InSync(Ran(d), r)
  {
    hide Holds, Write, Flatten, ReaderOk;
    RanKeeps(d, r.history);
    assert d.pending[0].Put?;
    var f := d.pending[0].frame;
    assert f == r.history[d.done..][0];
    assert r.history[..d.done] + [f] == r.history[..d.done + 1];
  }

  /** Without clearCache every step keeps the replicas in step with the main storage. */
  lemma NextKeepsSync<T>(r: Ring<T>, e: Event<T>)
    requires Inv(r) && Enabled(r, e) && AllInSync(r) && !e.ClearCache?
    ensures Inv(Next(r, e)) && AllInSync(Next(r, e))
  {
    hide Holds, DispatcherOk, Write, Clear, Ran, Joined, InSync;
    NextKeeps(r, e);
    var r' := Next(r, e);
    match e
    case WriteFrame(f) =>
      StorageSizes(r.main, r.history);
      forall p | p in r'.dispatchers ensures InSync(r'.dispatchers[p], r') {
        PostKeepsSync(r.dispatchers[p], r, f, r');
      }
    case RunTask(p) =>
      RanKeepsSync(r.dispatchers[p], r);
      forall q | q in r'.dispatchers ensures InSync(r'.dispatchers[q], r') {
        if q == p {
          SyncFrame(Ran(r.dispatchers[p]), r, Ran(r.dispatchers[p]), r');
        } else {
          SyncFrame(r.dispatchers[q], r, r'.dispatchers[q], r');
        }
      }
    case Attach(p, id, useCache, maxGop) =>
      var d := if p in r.dispatchers then r.dispatchers[p] else Dispatcher(r.main, [], |r.history|, map[]);
      if p !in r.dispatchers {
        CloneInSync(r);
      }
      JoinKeeps(d, r.history, id, useCache, maxGop);
      JoinFrame(d, id, useCache, maxGop);
      forall q | q in r'.dispatchers ensures InSync(r'.dispatchers[q], r') {
        SyncFrame(if q == p then d else r.dispatchers[q], r, r'.dispatchers[q], r');
      }
    case Detach(p, id) =>
      forall q | q in r'.dispatchers ensures InSync(r'.dispatchers[q], r') {
        SyncFrame(r.dispatchers[q], r, r'.dispatchers[q], r');
      }
    case _ => assert false;
  }

  lemma JoinFrame<T>(d: Dispatcher<T>, id: nat, useCache: bool, maxGop: nat)
    ensures var d' := Joined(d, id, useCache, maxGop); d'.storage == d.storage && d'.pending == d.pending && d'.done == d.done
  {
  }

  lemma SyncFrame<T>(d: Dispatcher<T>, r: Ring<T>, d': Dispatcher<T>, r': Ring<T>)
    requires DispatcherOk(d, r.history) && InSync(d, r) && r'.main == r.main && r'.history == r.history
    requires d'.storage == d.storage && d'.pending == d.pending && d'.done == d.done && DispatcherOk(d', r'.history)
    ensures InSync(d', r')
  {
  }

  lemma CloneInSync<T>(r: Ring<T>)
    requires Inv(r)
    ensures var d := Dispatcher(r.main, [], |r.history|, map[]); DispatcherOk(d, r.history) && InSync(d, r)
  {
    CloneFits(r.main, r.history);
    assert r.history[..|r.history|] == r.history;
  }

  // ---- runs ----

  ghost predicate Possible<T>(r: Ring<T>, es: seq<Event<T>>)
    requires Inv(r)
    decreases |es|
  {
    es == [] || (Enabled(r, es[0]) && (NextKeeps(r, es[0]); Possible(Next(r, es[0]), es[1..])))
  }

  ghost function Run<T>(r: Ring<T>, es: seq<Event<T>>): (r': Ring<T>)
    requires Inv(r) && Possible(r, es)
    ensures Inv(r')
    decreases |es|
  {
    if es == [] then r else
      NextKeeps(r, es[0]);
      Run(Next(r, es[0]), es[1..])
  }

  ghost function NewRing<T>(maxSize: nat, maxGop: nat): (r: Ring<T>)
    ensures Inv(r) && AllInSync(r)
  {
    FreshHolds<T>(maxSize, maxGop);
    Ring(Fresh(maxSize, maxGop), [], map[])
  }

  /** In every run, with clearCache or without, every reader has seen one gap-free run of the stream
      without repetition, starting where it was attached, or earlier at a key frame, or before the
      first key frame of all. */
  lemma ReadersSeeARun<T>(maxSize: nat, maxGop: nat, es: seq<Event<T>>, p: nat, id: nat)
    requires Possible(NewRing(maxSize, maxGop), es)
    requires var r := Run(NewRing(maxSize, maxGop), es); p in r.dispatchers && id in r.dispatchers[p].readers
    ensures var r := Run(NewRing(maxSize, maxGop), es);
            var d := r.dispatchers[p]; var reader := d.readers[id];
            && reader.start <= reader.attached <= d.done <= |r.history| && reader.seen == r.history[reader.start..d.done]
            && (reader.start < reader.attached ==> r.history[reader.start].key || NoKey(r.history[..reader.start + 1]))
  {
    hide Holds, Possible, Run, Fresh;
    var r := Run(NewRing(maxSize, maxGop), es);
    assert DispatcherOk(r.dispatchers[p], r.history);
  }

  lemma {:induction false} RunsStayInSync<T>(r: Ring<T>, es: seq<Event<T>>)
    requires Inv(r) && Possible(r, es) && AllInSync(r) && ClearCache !in es
    ensures AllInSync(Run(r, es))
    decreases |es|
  {
    hide Inv, AllInSync, Next, Enabled;
    if es != [] {
      assert es[0] in es;
      NextKeepsSync(r, es[0]);
      RunsStayInSync(Next(r, es[0]), es[1..]);
    }
  }

  /** In every run without clearCache, a dispatcher whose tasks have all run holds the main storage. */
  lemma ReplicasAgree<T>(maxSize: nat, maxGop: nat, es: seq<Event<T>>, p: nat)
    requires Possible(NewRing(maxSize, maxGop), es) && ClearCache !in es
    requires p in Run(NewRing(maxSize, maxGop), es).dispatchers
    ensures var r := Run(NewRing(maxSize, maxGop), es);
            && InSync(r.dispatchers[p], r) && (r.dispatchers[p].pending == [] ==> r.dispatchers[p].storage == r.main)
  {
    hide Holds, Possible, Run, Fresh;
    RunsStayInSync(NewRing(maxSize, maxGop), es);
    var r := Run(NewRing(maxSize, maxGop), es);
    assert InSync(r.dispatchers[p], r);
  }
}
