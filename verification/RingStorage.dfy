/** The evicting GOP cache of RingBuffer: groups of frames, each headed by a key frame. */
module RingStorage {
  import opened Sequences

  datatype Frame<T> = Frame(key: bool, data: T)

  type Gops<T> = seq<seq<Frame<T>>>

  datatype Storage<T> = Storage(started: bool, haveIdr: bool, size: nat, maxSize: nat, maxGop: nat, cache: Gops<T>)

  const RING_MIN_SIZE: nat := 32

  function Fresh<T>(maxSize: nat, maxGop: nat): Storage<T> {
    Storage(false, false, 0, if maxSize < RING_MIN_SIZE then RING_MIN_SIZE else maxSize, maxGop, [[]])
  }

  function Clear<T>(s: Storage<T>): Storage<T> { s.(size := 0, haveIdr := false, cache := [[]]) }

  function PopFront<T>(s: Storage<T>): Storage<T>
    requires s.cache != [] && |s.cache[0]| <= s.size
  {
    s.(size := s.size - |s.cache[0]|, cache := if |s.cache| == 1 then [[]] else s.cache[1..])
  }

  function Flatten<T>(cache: Gops<T>): seq<Frame<T>> {
    if cache == [] then [] else cache[0] + Flatten(cache[1..])
  }

  /** A key frame opens a GOP, and the oldest one goes when there are too many. */
  function OpenGop<T>(s: Storage<T>): Storage<T>
    requires s.cache != [] && s.size == |Flatten(s.cache)|
  {
    var s1 := s.(haveIdr := true, started := true,
                 cache := if s.cache[|s.cache| - 1] != [] then s.cache + [[]] else s.cache);
    SizeKept(s.cache);
    if |s1.cache| > s.maxGop then PopFront(s1) else s1
  }

  lemma SizeKept<T>(cache: Gops<T>)
    requires cache != []
    ensures |cache[0]| <= |Flatten(cache)|
    ensures (cache + [[]])[0] == cache[0]
  {
  }

  function Append<T>(s: Storage<T>, f: Frame<T>): Storage<T>
    requires s.cache != []
  {
    var n := |s.cache| - 1;
    s.(size := s.size + 1, cache := s.cache[..n] + [s.cache[n] + [f]])
  }

  function Evict<T>(s: Storage<T>): Storage<T>
    requires s.cache != [] && s.size == |Flatten(s.cache)|
    decreases |s.cache|
  {
    if s.size > s.maxSize && |s.cache| > 1 then Evict(PopFront(s))
    else if s.size > s.maxSize then Clear(s)
    else s
  }

  function Write<T>(s: Storage<T>, f: Frame<T>): Storage<T>
    requires s.cache != [] && s.size == |Flatten(s.cache)|
  {
    OpenSize(s);
    var s1 := if f.key then OpenGop(s) else s;
    if !s1.haveIdr && s1.started then s1
    else
      AppendSize(s1, f);
      Evict(Append(s1, f))
  }

  lemma OpenSize<T>(s: Storage<T>)
    requires s.cache != [] && s.size == |Flatten(s.cache)|
    ensures OpenGop(s).cache != [] && OpenGop(s).size == |Flatten(OpenGop(s).cache)|
  {
    FlattenAppend(s.cache, [[]]);
  }

  lemma AppendSize<T>(s: Storage<T>, f: Frame<T>)
    requires s.cache != []
    ensures Flatten(Append(s, f).cache) == Flatten(s.cache) + [f] && Append(s, f).cache != [] && Append(s, f).size == s.size + 1
  {
    var n := |s.cache| - 1;
    FlattenAppend(s.cache[..n], [s.cache[n] + [f]]);
    FlattenAppend(s.cache[..n], [s.cache[n]]);
    assert s.cache == s.cache[..n] + [s.cache[n]];
    FlattenOne(s.cache[n]);
    FlattenOne(s.cache[n] + [f]);
  }

  lemma FlattenOne<T>(g: seq<Frame<T>>)
    ensures Flatten([g]) == g
  {
    assert Flatten<T>([]) == [];
  }

  lemma {:induction false} FlattenAppend<T>(a: Gops<T>, b: Gops<T>)
    ensures Flatten(a + b) == Flatten(a) + Flatten(b)
  {
    if a == [] {
      assert a + b == b;
    } else {
      FlattenAppend(a[1..], b);
      FirstOfTwo(a, b);
      Associative(a[0], Flatten(a[1..]), Flatten(b));
    }
  }

  // ---- what every write keeps, against the history h of all frames written ----

  ghost predicate NoKey<T>(h: seq<Frame<T>>) { forall i :: 0 <= i < |h| ==> !h[i].key }

  /** A key frame appears only at the head of a GOP, every GOP but the first has one there, and only
      the last GOP may be empty. */
  ghost predicate Grouped<T>(cache: Gops<T>) {
    && cache != []
    && (forall i, j :: 0 <= i < |cache| && 0 < j < |cache[i]| ==> !cache[i][j].key)
    && (forall i :: 0 < i < |cache| && cache[i] != [] ==> cache[i][0].key)
    && (forall i :: 0 <= i < |cache| - 1 ==> cache[i] != [])
  }

  /** The cached frames are the last ones written. A first GOP without a key frame holds frames from
      before the first key frame. */
  ghost predicate Suffix<T>(cache: Gops<T>, h: seq<Frame<T>>) {
    var n := |Flatten(cache)|;
    && cache != [] && |cache[0]| <= n <= |h| && Flatten(cache) == h[|h| - n..]
    && (cache[0] != [] && !cache[0][0].key ==> NoKey(h[..|h| - n + |cache[0]|]))
  }

  ghost predicate Gapless<T>(s: Storage<T>, h: seq<Frame<T>>) {
    s.cache != [] && Grouped(s.cache) && Suffix(s.cache, h) && s.size == |Flatten(s.cache)|
  }

  function Limit(maxGop: nat): nat { if maxGop == 0 then 1 else maxGop }

  ghost predicate Holds<T>(s: Storage<T>, h: seq<Frame<T>>) {
    && Gapless(s, h) && s.size <= s.maxSize && RING_MIN_SIZE <= s.maxSize && |s.cache| <= Limit(s.maxGop)
    && (s.cache == [[]] || s.cache[|s.cache| - 1] != [])
    && (s.started <==> !NoKey(h)) && (s.haveIdr <==> s.started && s.cache != [[]])
  }

  lemma FreshHolds<T>(maxSize: nat, maxGop: nat)
    ensures Holds(Fresh<T>(maxSize, maxGop), [])
  {
    FlattenOne<T>([]);
  }

  lemma DropFirst<T>(cache: Gops<T>, h: seq<Frame<T>>)
    requires Grouped(cache) && Suffix(cache, h) && |cache| > 1
    ensures Grouped(cache[1..]) && Suffix(cache[1..], h) && |Flatten(cache[1..])| == |Flatten(cache)| - |cache[0]|
  {
    var n, m := |Flatten(cache)|, |Flatten(cache[1..])|;
    var rest := cache[1..];
    assert forall i :: 0 <= i < |rest| ==> rest[i] == cache[i + 1];
    assert Flatten(cache) == cache[0] + Flatten(rest);
    assert h[|h| - m..] == h[|h| - n..][|cache[0]|..];
    assert |rest[0]| <= m by {
      assert Flatten(rest) == rest[0] + Flatten(rest[1..]);
    }
  }

  lemma EmptyIsSuffix<T>(h: seq<Frame<T>>)
    ensures Grouped<T>([[]]) && Suffix([[]], h) && Flatten<T>([[]]) == []
  {
    FlattenOne<T>([]);
    assert h[|h|..] == [];
  }

  lemma PopFrontKeeps<T>(s: Storage<T>, h: seq<Frame<T>>)
    requires Gapless(s, h)
    ensures Gapless(PopFront(s), h) && |PopFront(s).cache| == if |s.cache| > 1 then |s.cache| - 1 else 1
    ensures |s.cache| == 1 ==> PopFront(s).cache == [[]]
    ensures |s.cache| > 1 ==> PopFront(s).cache == s.cache[1..]
  {
    hide Grouped, Suffix, Flatten;
    if |s.cache| > 1 {
      DropFirst(s.cache, h);
    } else {
      EmptyIsSuffix(h);
      assert s.cache == [s.cache[0]];
      FlattenOne(s.cache[0]);
    }
  }

  lemma OpenKeeps<T>(s: Storage<T>, h: seq<Frame<T>>)
    requires Holds(s, h)
    ensures var s1 := OpenGop(s);
            && Gapless(s1, h) && |s1.cache| <= Limit(s.maxGop) && s1.cache[|s1.cache| - 1] == [] && s1.size <= s.size
            && s1.haveIdr && s1.started && s1.maxSize == s.maxSize && s1.maxGop == s.maxGop
  {
    var s1 := s.(haveIdr := true, started := true,
                 cache := if s.cache[|s.cache| - 1] != [] then s.cache + [[]] else s.cache);
    hide Grouped, Suffix, Flatten;
    assert |s.cache[0]| <= s.size by { FirstFits(s.cache, h); }
    if s.cache[|s.cache| - 1] != [] {
      AddEmptyGop(s.cache, h);
    }
    PopFrontKeeps(s1, h);
  }

  lemma FirstFits<T>(cache: Gops<T>, h: seq<Frame<T>>)
    requires Suffix(cache, h)
    ensures |cache[0]| <= |Flatten(cache)|
  {
  }

  lemma AddEmptyGop<T>(cache: Gops<T>, h: seq<Frame<T>>)
    requires Grouped(cache) && Suffix(cache, h) && cache[|cache| - 1] != []
    ensures Grouped(cache + [[]]) && Suffix(cache + [[]], h) && |Flatten(cache + [[]])| == |Flatten(cache)|
  {
    FlattenAppend(cache, [[]]);
    FlattenOne<T>([]);
  }

  lemma AppendKeeps<T>(s: Storage<T>, h: seq<Frame<T>>, f: Frame<T>)
    requires Gapless(s, h)
    requires if f.key then s.cache[|s.cache| - 1] == [] else s.cache[|s.cache| - 1] != [] || (NoKey(h) && |s.cache| == 1)
    ensures Gapless(Append(s, f), h + [f]) && |Append(s, f).cache| == |s.cache| && Append(s, f).cache[|s.cache| - 1] != []
  {
    AppendSize(s, f);
    var n, cache' := |s.cache| - 1, Append(s, f).cache;
    assert Grouped(cache') by {
      hide Flatten, Suffix;
      assert forall i :: 0 <= i < n ==> cache'[i] == s.cache[i];
    }
    var k := |Flatten(s.cache)|;
    assert (h + [f])[|h| - k..] == h[|h| - k..] + [f];
    assert |cache'[0]| <= k + 1;
    if cache'[0] != [] && !cache'[0][0].key {
      assert NoKey((h + [f])[..|h| - k + |cache'[0]|]) by {
        FirstGop(s.cache, h, f, cache');
      }
    }
  }

  lemma FirstGop<T>(cache: Gops<T>, h: seq<Frame<T>>, f: Frame<T>, cache': Gops<T>)
    requires Suffix(cache, h) && |cache'| == |cache| && cache' == cache[..|cache| - 1] + [cache[|cache| - 1] + [f]]
    requires cache'[0] != [] && !cache'[0][0].key
    requires if f.key then cache[|cache| - 1] == [] else cache[|cache| - 1] != [] || (NoKey(h) && |cache| == 1)
    ensures |h| - |Flatten(cache)| + |cache'[0]| <= |h| + 1
    ensures NoKey((h + [f])[..|h| - |Flatten(cache)| + |cache'[0]|])
  {
    var k := |Flatten(cache)|;
    if |cache| > 1 {
      assert cache'[0] == cache[0];
      assert (h + [f])[..|h| - k + |cache[0]|] == h[..|h| - k + |cache[0]|];
    } else {
      assert cache == [cache[0]];
      FlattenOne(cache[0]);
      assert cache'[0] == cache[0] + [f];
      assert h[..|h|] == h;
      assert (h + [f])[..|h| + 1] == h + [f];
    }
  }

  lemma {:induction false} EvictKeeps<T>(s: Storage<T>, h: seq<Frame<T>>)
    requires Gapless(s, h) && s.cache[|s.cache| - 1] != []
    ensures var s' := Evict(s);
            && Gapless(s', h) && s'.size <= s.maxSize && |s'.cache| <= |s.cache| && s'.maxSize == s.maxSize && s'.maxGop == s.maxGop
            && s'.started == s.started && (s'.cache == [[]] || s'.cache[|s'.cache| - 1] != [])
            && s'.haveIdr == (s.haveIdr && s'.cache != [[]])
    decreases |s.cache|
  {
    hide Grouped, Suffix, Flatten;
    if s.size > s.maxSize && |s.cache| > 1 {
      PopFrontKeeps(s, h);
      EvictKeeps(PopFront(s), h);
    } else if s.size > s.maxSize {
      EmptyIsSuffix(h);
    }
  }

  /** Every write keeps the cache a gap-free suffix of what was written, within its limits. */
  lemma WriteKeeps<T>(s: Storage<T>, h: seq<Frame<T>>, f: Frame<T>)
    requires Holds(s, h)
    ensures Holds(Write(s, f), h + [f])
    ensures Write(s, f).maxSize == s.maxSize && Write(s, f).maxGop == s.maxGop
  {
    hide Grouped, Suffix, Flatten, Evict;
    KeyAdded(h, f);
    var s1 := if f.key then OpenGop(s) else s;
    if f.key {
      OpenKeeps(s, h);
      hide OpenGop;
    }
    if !s1.haveIdr && s1.started {
      SuffixOfMore(s, h, f);
    } else {
      if !s1.haveIdr {
        OneGopBeforeStart(s, h);
      }
      AppendKeeps(s1, h, f);
      EvictKeeps(Append(s1, f), h + [f]);
    }
  }

  lemma KeyAdded<T>(h: seq<Frame<T>>, f: Frame<T>)
    ensures NoKey(h + [f]) <==> NoKey(h) && !f.key
  {
    assert (h + [f])[|h|] == f;
    assert forall i :: 0 <= i < |h| ==> (h + [f])[i] == h[i];
  }

  lemma SuffixOfMore<T>(s: Storage<T>, h: seq<Frame<T>>, f: Frame<T>)
    requires Gapless(s, h) && s.cache == [[]]
    ensures Gapless(s, h + [f])
  {
    EmptyIsSuffix(h + [f]);
  }

  lemma OneGopBeforeStart<T>(s: Storage<T>, h: seq<Frame<T>>)
    requires Gapless(s, h) && NoKey(h) && (s.cache == [[]] || s.cache[|s.cache| - 1] != [])
    ensures |s.cache| == 1
  {
    if |s.cache| > 1 {
      SecondHead(s.cache, h);
    }
  }

  /** The head of a second GOP is a key frame that was written. */
  lemma SecondHead<T>(cache: Gops<T>, h: seq<Frame<T>>)
    requires Grouped(cache) && Suffix(cache, h) && |cache| > 1 && cache[1] != []
    ensures !NoKey(h)
  {
    assert Flatten(cache) == cache[0] + Flatten(cache[1..]);
    assert Flatten(cache[1..]) == cache[1] + Flatten(cache[1..][1..]);
    assert Flatten(cache)[|cache[0]|] == cache[1][0];
    assert h[|h| - |Flatten(cache)| + |cache[0]|] == cache[1][0];
  }

  lemma ClearKeeps<T>(s: Storage<T>, h: seq<Frame<T>>)
    requires Holds(s, h)
    ensures Holds(Clear(s), h)
  {
    EmptyIsSuffix(h);
  }

  // ---- no write forgets more than it must ----

  /** A write that is not dropped: open, append, evict. */
  lemma WriteIs<T>(s: Storage<T>, f: Frame<T>)
    requires s.cache != [] && s.size == |Flatten(s.cache)| && (s.haveIdr || !s.started || f.key)
    ensures var s1 := if f.key then OpenGop(s) else s;
            && s1.cache != [] && Append(s1, f).cache != [] && Append(s1, f).size == |Flatten(Append(s1, f).cache)|
            && Write(s, f) == Evict(Append(s1, f))
  {
    OpenSize(s);
    var s1 := if f.key then OpenGop(s) else s;
    AppendSize(s1, f);
    hide Flatten, Append, Evict;
  }

  /** Eviction drops the fewest of the oldest GOPs that leave room, and everything when the last one alone
      is too large. */
  lemma {:induction false} EvictIsMinimal<T>(s: Storage<T>) returns (i: nat)
    requires s.cache != [] && s.size == |Flatten(s.cache)|
    ensures var n := |s.cache| - 1;
            if |s.cache[n]| > s.maxSize then Evict(s) == Clear(s)
            else && i <= n && Evict(s) == s.(cache := s.cache[i..], size := |Flatten(s.cache[i..])|)
                 && Evict(s).size <= s.maxSize && (i > 0 ==> |Flatten(s.cache[i - 1..])| > s.maxSize)
    decreases |s.cache|
  {
    hide Flatten;
    var n := |s.cache| - 1;
    LastFits(s.cache);
    FirstCounts(s.cache);
    assert s.cache[0..] == s.cache;
    i := 0;
    if s.size > s.maxSize && n > 0 {
      i := EvictIsMinimal(PopFront(s));
      SkipFirst(s.cache, i);
      if i > 0 { SkipFirst(s.cache, i - 1); }
      i := i + 1;
    } else if n == 0 {
      FlattenOne(s.cache[0]);
      assert s.cache == [s.cache[0]];
    }
  }

  lemma FirstCounts<T>(cache: Gops<T>)
    requires cache != []
    ensures |Flatten(cache)| == |cache[0]| + |Flatten(cache[1..])|
  {
  }

  lemma LastFits<T>(cache: Gops<T>)
    requires cache != []
    ensures |cache[|cache| - 1]| <= |Flatten(cache)|
  {
    var n := |cache| - 1;
    FlattenAppend(cache[..n], [cache[n]]);
    FlattenOne(cache[n]);
    assert cache == cache[..n] + [cache[n]];
  }

  /** The GOPs with another frame: a key frame opens its own. */
  function Longer<T>(cache: Gops<T>, f: Frame<T>): (longer: Gops<T>)
    requires cache != []
    ensures longer != []
  {
    var n := |cache| - 1;
    if f.key && cache[n] != [] then cache + [[f]] else cache[..n] + [cache[n] + [f]]
  }

  /** What a write leaves of the GOPs with its frame: all but the fewest oldest ones that keep both limits,
      and nothing if the last one alone is too large. */
  ghost predicate Leaves<T>(s: Storage<T>, all: Gops<T>, s': Storage<T>, i: nat) {
    && i < |all| && s'.cache == all[i..] && |all| - i <= Limit(s.maxGop) && |Flatten(all[i..])| <= s.maxSize
    && (i > 0 ==> |all| - (i - 1) > Limit(s.maxGop) || |Flatten(all[i - 1..])| > s.maxSize)
  }

  /** What a key frame opens: the GOPs as they are, or without the oldest, and an empty one behind them. */
  lemma OpenedIs<T>(s: Storage<T>, h: seq<Frame<T>>, f: Frame<T>) returns (j: nat)
    requires Holds(s, h) && f.key
    ensures s.cache != [] && s.size == |Flatten(s.cache)|
    ensures var all, s1 := Longer(s.cache, f), OpenGop(s);
            && j < |all| && s1.cache != [] && Append(s1, f).cache == all[j..] && |all| - j <= Limit(s.maxGop)
            && (j > 0 ==> |all| - (j - 1) > Limit(s.maxGop))
            && s1.maxSize == s.maxSize && s1.haveIdr && s1.started
  {
    hide Flatten, Grouped, Suffix;
    StorageOf(s, h);
    OpenKeeps(s, h);
    var n := |s.cache| - 1;
    var gops := if s.cache[n] != [] then s.cache + [[]] else s.cache;
    j := if |gops| > s.maxGop && |gops| > 1 then 1 else 0;
    OpenGopIs(s, gops, j);
    hide OpenGop, Holds;
    LongerIs(s.cache, gops, f);
    DropThenAppend(gops, j, f);
  }

  lemma OpenGopIs<T>(s: Storage<T>, gops: Gops<T>, j: nat)
    requires s.cache != [] && s.size == |Flatten(s.cache)|
    requires gops == if s.cache[|s.cache| - 1] != [] then s.cache + [[]] else s.cache
    requires j == if |gops| > s.maxGop && |gops| > 1 then 1 else 0
    ensures OpenGop(s).cache == gops[j..]
  {
    SizeKept(s.cache);
    assert gops[0..] == gops;
    hide Flatten;
  }

  lemma LongerIs<T>(cache: Gops<T>, gops: Gops<T>, f: Frame<T>)
    requires cache != [] && f.key && gops == if cache[|cache| - 1] != [] then cache + [[]] else cache
    ensures gops != [] && Longer(cache, f) == gops[..|gops| - 1] + [gops[|gops| - 1] + [f]]
  {
    assert [] + [f] == [f];
  }

  lemma DropThenAppend<T>(gops: Gops<T>, j: nat, f: Frame<T>)
    requires j < |gops|
    ensures var n, rest := |gops| - 1, gops[j..];
            rest[..|rest| - 1] + [rest[|rest| - 1] + [f]] == (gops[..n] + [gops[n] + [f]])[j..]
  {
  }

  /** A write forgets no frame that the limits would let it keep. */
  lemma WriteForgetsLittle<T>(s: Storage<T>, h: seq<Frame<T>>, f: Frame<T>) returns (i: nat)
    requires Holds(s, h)
    ensures s.cache != [] && s.size == |Flatten(s.cache)|
    ensures var all, s' := Longer(s.cache, f), Write(s, f);
            if s.started && !s.haveIdr && !f.key then s' == s
            else if |all[|all| - 1]| > s.maxSize then s'.cache == [[]]
            else Leaves(s, all, s', i)
  {
    hide Flatten, OpenGop, Evict, Holds, Write, Longer, Append, Leaves;
    i := 0;
    StorageOf(s, h);
    if f.key || s.haveIdr || !s.started {
      WriteIs(s, f);
      var all, s1, j := Longer(s.cache, f), s, 0;
      if f.key {
        j := OpenedIs(s, h, f);
        s1 := OpenGop(s);
      } else {
        JoinedIs(s, f);
      }
      AppendLimit(s1, f);
      i := EvictIsMinimal(Append(s1, f));
      if |all[|all| - 1]| <= s.maxSize {
        LeftOfRest(s, all, j, i, Write(s, f));
        i := j + i;
      }
    } else {
      Nothing(s, f);
    }
  }

  lemma AppendLimit<T>(s: Storage<T>, f: Frame<T>)
    requires s.cache != []
    ensures Append(s, f).maxSize == s.maxSize
  {
  }

  lemma Nothing<T>(s: Storage<T>, f: Frame<T>)
    requires s.cache != [] && s.size == |Flatten(s.cache)| && s.started && !s.haveIdr && !f.key
    ensures Write(s, f) == s
  {
  }

  lemma JoinedIs<T>(s: Storage<T>, f: Frame<T>)
    requires s.cache != [] && !f.key
    ensures Append(s, f).cache == Longer(s.cache, f)[0..] && |Longer(s.cache, f)| == |s.cache|
  {
  }

  lemma LeftOfRest<T>(s: Storage<T>, all: Gops<T>, j: nat, i: nat, s': Storage<T>)
    requires j < |all| && |all| - j <= Limit(s.maxGop) && (j > 0 ==> |all| - (j - 1) > Limit(s.maxGop))
    requires i < |all| - j && s'.cache == all[j..][i..] && |Flatten(all[j..][i..])| <= s.maxSize
    requires i > 0 ==> |Flatten(all[j..][i - 1..])| > s.maxSize
    ensures Leaves(s, all, s', j + i)
  {
    hide Flatten;
    assert all[j..][i..] == all[j + i..];
    if i > 0 {
      assert all[j..][i - 1..] == all[j + i - 1..];
    }
  }

  lemma StorageOf<T>(s: Storage<T>, h: seq<Frame<T>>)
    requires Holds(s, h)
    ensures s.cache != [] && s.size == |Flatten(s.cache)| && |s.cache| <= Limit(s.maxGop)
  {
  }

  // ---- the object ----

  class RingStorageObject<T> {
    var started: bool
    var haveIdr: bool
    var size: nat
    var maxSize: nat
    var maxGopSize: nat
    var dataCache: Gops<T>
    ghost var written: seq<Frame<T>>

    ghost function View(): Storage<T>
      reads this
    {
      Storage(started, haveIdr, size, maxSize, maxGopSize, dataCache)
    }

    ghost predicate Valid()
      reads this
    {
      Holds(View(), written)
    }

    constructor (maxSize: nat, maxGopSize: nat)
      ensures Valid() && View() == Fresh(maxSize, maxGopSize) && written == []
    {
      this.maxSize := if maxSize < RING_MIN_SIZE then RING_MIN_SIZE else maxSize;
      this.maxGopSize := maxGopSize;
      started, haveIdr, size, dataCache, written := false, false, 0, [[]], [];
      new;
      FreshHolds<T>(maxSize, maxGopSize);
    }

    /** The copy that clone makes. */
    constructor Clone(other: RingStorageObject<T>)
      requires other.Valid()
      ensures Valid() && View() == other.View() && written == other.written
    {
      started, haveIdr, size, maxSize := other.started, other.haveIdr, other.size, other.maxSize;
      maxGopSize, dataCache, written := other.maxGopSize, other.dataCache, other.written;
    }

    method ClearCache()
      requires Valid()
      modifies this
      ensures Valid() && View() == Clear(old(View())) && written == old(written)
    {
      ClearKeeps(View(), written);
      size := 0;
      haveIdr := false;
      dataCache := [[]];
    }

    method PopFrontGop()
      requires dataCache != [] && |dataCache[0]| <= size
      modifies `size, `dataCache
      ensures View() == PopFront(old(View()))
    {
      size := size - |dataCache[0]|;
      dataCache := dataCache[1..];
      if |dataCache| == 0 {
        dataCache := [[]];
      }
    }

    /** write: afterwards the cache is again a suffix of all frames written. */
    method WriteFrame(data: T, isKey: bool)
      requires Valid()
      modifies this
      ensures Valid() && View() == Write(old(View()), Frame(isKey, data)) && written == old(written) + [Frame(isKey, data)]
    {
      hide Holds, Flatten, Evict, OpenGop, Append;
      ghost var s, f := View(), Frame(isKey, data);
      WriteKeeps(s, written, f);
      Sizes(s, written);
      written := written + [f];
      if isKey {
        OpenNewGop();
      }
      ghost var s1 := View();
      if !haveIdr && started {
        return;
      }
      assert s1 == if f.key then OpenGop(s) else s;
      OpenSize(s);
      AppendSize(s1, f);
      AppendFrame(Frame(isKey, data));
      assert View() == Append(s1, f);
      EvictOld();
    }

    /** The first part of write, for a key frame. */
    method OpenNewGop()
      requires dataCache != [] && size == |Flatten(dataCache)| && |dataCache[0]| <= size
      modifies `haveIdr, `started, `dataCache, `size
      ensures View() == OpenGop(old(View()))
    {
      hide Flatten;
      haveIdr := true;
      started := true;
      if |dataCache[|dataCache| - 1]| != 0 {
        dataCache := dataCache + [[]];
      }
      if |dataCache| > maxGopSize {
        PopFrontGop();
      }
    }

    method AppendFrame(f: Frame<T>)
      requires dataCache != []
      modifies `dataCache, `size
      ensures View() == Append(old(View()), f)
    {
      var n := |dataCache| - 1;
      dataCache := dataCache[..n] + [dataCache[n] + [f]];
      size := size + 1;
    }

    /** The end of write: old GOPs go while there are too many frames, and everything if that does
        not help. */
    method EvictOld()
      requires dataCache != [] && size == |Flatten(dataCache)|
      modifies `size, `dataCache, `haveIdr
      ensures View() == Evict(old(View()))
    {
      hide Flatten;
      while size > maxSize && |dataCache| > 1
        invariant dataCache != [] && size == |Flatten(dataCache)| && Evict(View()) == Evict(old(View()))
        decreases |dataCache|
      {
        FlattenHead(dataCache);
        PopFrontGop();
      }
      if size > maxSize {
        size := 0;
        haveIdr := false;
        dataCache := [[]];
      }
    }
  }

  lemma Sizes<T>(s: Storage<T>, h: seq<Frame<T>>)
    requires Holds(s, h)
    ensures s.cache != [] && s.size == |Flatten(s.cache)| && |s.cache[0]| <= s.size
  {
  }

  lemma FlattenHead<T>(cache: Gops<T>)
    requires cache != []
    ensures |Flatten(cache)| == |cache[0]| + |Flatten(cache[1..])|
  {
  }
}
