/** What a reader gets of the cache when it is attached. */
module RingAttach {
  import opened Sequences
  import opened RingStorage
  import opened RingReplicas

  function KeyFrames<T>(fs: seq<Frame<T>>): nat { if fs == [] then 0 else (if fs[0].key then 1 else 0) + KeyFrames(fs[1..]) }

  lemma {:induction false} KeysConcat<T>(a: seq<Frame<T>>, b: seq<Frame<T>>)
    ensures KeyFrames(a + b) == KeyFrames(a) + KeyFrames(b)
  {
    if a == [] {
      assert a + b == b;
    } else {
      KeysConcat(a[1..], b);
      FirstOfTwo(a, b);
    }
  }

  lemma {:induction false} NoKeysInside<T>(fs: seq<Frame<T>>)
    requires forall i :: 0 <= i < |fs| ==> !fs[i].key
    ensures KeyFrames(fs) == 0
  {
    if fs != [] {
      NoKeysInside(fs[1..]);
    }
  }

  lemma OneKey<T>(g: seq<Frame<T>>)
    requires g != [] && g[0].key && forall j :: 0 < j < |g| ==> !g[j].key
    ensures KeyFrames(g) == 1
  {
    NoKeysInside(g[1..]);
  }

  /** GOPs that each have their key frame hold as many key frames as there are GOPs. */
  lemma {:induction false} HeadsCount<T>(gops: Gops<T>)
    requires forall i :: 0 <= i < |gops| ==> gops[i] != [] && gops[i][0].key
    requires forall i, j :: 0 <= i < |gops| && 0 < j < |gops[i]| ==> !gops[i][j].key
    ensures KeyFrames(Flatten(gops)) == |gops|
  {
    if gops != [] {
      OneKey(gops[0]);
      var rest := gops[1..];
      assert forall i :: 0 <= i < |rest| ==> rest[i] == gops[i + 1];
      HeadsCount(rest);
      KeysConcat(gops[0], Flatten(rest));
    }
  }

  /** The whole cache, when it has no more GOPs than asked for; else the last GOPs, so many that their key
      frames are as many as asked for. */
  lemma FlushedIsEnough<T>(s: Storage<T>, h: seq<Frame<T>>, maxGop: nat)
    requires Holds(s, h)
    ensures var seen := Flatten(Flushed(s, maxGop));
            && (|s.cache| <= maxGop ==> seen == Flatten(s.cache) && |seen| == s.size)
            && (maxGop < |s.cache| ==> KeyFrames(seen) == maxGop && (maxGop > 0 ==> seen != [] && seen[0].key))
  {
    hide Flatten, Suffix;
    StorageSizes(s, h);
    if |s.cache| <= maxGop {
      assert s.cache[0..] == s.cache;
    } else {
      var k := |s.cache| - maxGop;
      var rest := s.cache[k..];
      assert forall i :: 0 <= i < |rest| ==> rest[i] == s.cache[k + i];
      HeadsCount(rest);
      if maxGop > 0 {
        FirstOfRest(rest);
      }
    }
  }

  lemma FirstOfRest<T>(gops: Gops<T>)
    requires gops != [] && gops[0] != []
    ensures Flatten(gops) != [] && Flatten(gops)[0] == gops[0][0]
  {
  }

  /** The last GOP is among those handed over, when any is. */
  lemma FlushedHasLast<T>(s: Storage<T>, h: seq<Frame<T>>, maxGop: nat, k: nat)
    requires Holds(s, h) && maxGop > 0
    requires k < |h| && h[k].key && |h| - k <= s.size && forall i :: k < i < |h| ==> !h[i].key
    ensures |h| - k <= |Flatten(Flushed(s, maxGop))|
  {
    hide Flatten, Grouped, Suffix, NoKey;
    FlushedIsRun(s, h, maxGop);
    FlushedIsEnough(s, h, maxGop);
    var seen := Flatten(Flushed(s, maxGop));
    if |s.cache| <= maxGop {
      assert |seen| == s.size;
    } else {
      assert seen[0] == h[|h| - |seen|];
    }
  }

  /** The dispatcher that an attach finds or makes. */
  function Host<T>(r: Ring<T>, p: nat): Dispatcher<T> {
    if p in r.dispatchers then r.dispatchers[p] else Dispatcher(r.main, [], |r.history|, map[])
  }

  /** In every run a reader that is attached with the cache has seen, at once, the whole cache or as many GOPs
      as it asked for, up to where its dispatcher is; without the cache it has seen nothing yet. It starts
      at or before the last key frame when that is still cached and it asked for a GOP at all. */
  lemma AttachTells<T>(r: Ring<T>, p: nat, id: nat, useCache: bool, maxGop: nat)
    requires Inv(r) && Enabled(r, Attach(p, id, useCache, maxGop))
    ensures var d, r' := Host(r, p), Next(r, Attach(p, id, useCache, maxGop));
            && p in r'.dispatchers && id in r'.dispatchers[p].readers
            && var reader := r'.dispatchers[p].readers[id];
            && reader.attached == d.done <= |r.history| && |reader.seen| <= d.done && reader.start == d.done - |reader.seen|
            && (!useCache ==> reader.seen == [])
            && (useCache && |d.storage.cache| <= maxGop ==> reader.seen == Flatten(d.storage.cache) && |reader.seen| == d.storage.size)
            && (useCache && maxGop < |d.storage.cache| ==> KeyFrames(reader.seen) == maxGop)
            && (useCache && maxGop > 0 ==>
                  forall k :: k < d.done && LastKey(r.history, d.done, k) && d.done - k <= d.storage.size ==> reader.start <= k)
  {
    hide Flatten, Grouped, Suffix, NoKey, Flushed, ReaderOk, Holds;
    var d := Host(r, p);
    HostOk(r, p);
    var past := r.history[..d.done];
    FlushedIsRun(d.storage, past, maxGop);
    FlushedIsEnough(d.storage, past, maxGop);
    if useCache && maxGop > 0 {
      forall k | k < d.done && LastKey(r.history, d.done, k) && d.done - k <= d.storage.size
        ensures d.done - k <= |Flatten(Flushed(d.storage, maxGop))|
      {
        FlushedHasLast(d.storage, past, maxGop, k);
      }
    }
  }

  /** Frame k is the last key frame of the first `done` ones. */
  ghost predicate LastKey<T>(h: seq<Frame<T>>, done: nat, k: int) {
    0 <= k < done <= |h| && h[k].key && forall i :: k < i < done ==> !h[i].key
  }

  lemma HostOk<T>(r: Ring<T>, p: nat)
    requires Inv(r)
    ensures var d := Host(r, p); d.done <= |r.history| && Holds(d.storage, r.history[..d.done])
  {
    hide Holds, ReaderOk;
    assert r.history[..|r.history|] == r.history;
  }

  /** Who reads is decided by attach and detach alone: a detach removes that reader and no other. */
  lemma ReadersAreExact<T>(r: Ring<T>, e: Event<T>, p: nat, id: nat)
    requires Inv(r) && Enabled(r, e)
    ensures Reads(Next(r, e), p, id) <==>
            (e.Attach? && e.poller == p && e.reader == id) || (Reads(r, p, id) && !(e.Detach? && e.poller == p && e.reader == id))
  {
    hide Flatten, Flushed, Holds, ReaderOk, Write, Clear;
    if e.Detach? && e.poller == p {
      var rest := r.dispatchers[p].readers - {e.reader};
      if |rest| == 0 {
        assert rest.Keys == {};
        assert id !in rest;
      }
    }
  }

  ghost predicate Reads<T>(r: Ring<T>, p: nat, id: nat) { p in r.dispatchers && id in r.dispatchers[p].readers }
}
