/** What clearCache does to a dispatcher: nothing, because its clear task runs while there are readers.
    When the dispatcher agrees with the main storage again, whatever happens in between. */
module RingClear {
  import opened Sequences
  import opened RingStorage
  import opened RingReplicas

  // ---- two storages that are given the same frames ----

  /** The storages agree but for old GOPs p and q in front of the GOPs g since the first key frame. */
  ghost predicate Apart<T>(s: Storage<T>, c: Storage<T>, p: Gops<T>, q: Gops<T>, g: Gops<T>) {
    && s.cache == p + g && c == s.(cache := q + g, size := c.size) && s.haveIdr && s.started
    && s.size == |Flatten(p)| + |Flatten(g)| && c.size == |Flatten(q)| + |Flatten(g)| && s.size != c.size
    && g != [] && g[|g| - 1] != [] && (p == [] || q == [] || (|p| == 1 && |q| == 1))
  }

  /** A suffix of the old GOPs is left, and the frame stands at the end. */
  ghost predicate Moved<T>(s: Storage<T>, p: Gops<T>, s': Storage<T>, g': Gops<T>, i: nat) {
    i <= |p| && s' == s.(cache := p[i..] + g', size := |Flatten(p[i..])| + |Flatten(g')|)
  }

  lemma {:induction false} EvictOld<T>(s: Storage<T>, p: Gops<T>, g: Gops<T>) returns (i: nat)
    requires s.cache == p + g && g != [] && s.size == |Flatten(p)| + |Flatten(g)|
    ensures s.size == |Flatten(s.cache)|
    ensures var young := s.(cache := g, size := |Flatten(g)|);
            if |Flatten(g)| > s.maxSize then Evict(s) == Evict(young) else Moved(s, p, Evict(s), g, i)
    decreases |p|
  {
    hide Flatten;
    FlattenAppend(p, g);
    NothingFlattened<T>();
    i := 0;
    if p == [] {
      assert p + g == g && p[0..] + g == g;
    } else if s.size > s.maxSize {
      FirstOfTwo(p, g);
      FirstFlattened(p);
      i := EvictOld(PopFront(s), p[1..], g);
      SkipFirst(p, i);
      i := i + 1;
    } else {
      assert p[0..] == p;
    }
  }

  /** A key frame opens a new GOP, any other frame joins the last one. */
  function Grown<T>(g: Gops<T>, f: Frame<T>): (g': Gops<T>)
    requires g != []
    ensures g' != [] && g'[|g'| - 1] != []
  {
    if f.key then g + [[f]] else g[..|g| - 1] + [g[|g| - 1] + [f]]
  }

  lemma GrownSize<T>(g: Gops<T>, f: Frame<T>)
    requires g != []
    ensures |Flatten(Grown(g, f))| == |Flatten(g)| + 1
  {
    var n := |g| - 1;
    FlattenOne([f]);
    FlattenOne(g[n]);
    FlattenOne(g[n] + [f]);
    FlattenAppend(g, [[f]]);
    FlattenAppend(g[..n], [g[n]]);
    FlattenAppend(g[..n], [g[n] + [f]]);
    assert g == g[..n] + [g[n]];
  }

  lemma AppendOld<T>(s: Storage<T>, p: Gops<T>, g: Gops<T>, f: Frame<T>)
    requires s.cache == p + g && g != []
    ensures s.cache != [] && Append(s, f) == s.(cache := p + (g[..|g| - 1] + [g[|g| - 1] + [f]]), size := s.size + 1)
  {
    var n := |g| - 1;
    assert (p + g)[..|p| + n] == p + g[..n];
    Associative(p, g[..n], [g[n] + [f]]);
  }

  /** Opening a GOP drops the oldest of the old ones, if any. */
  lemma OpenOld<T>(s: Storage<T>, p: Gops<T>, g: Gops<T>) returns (i: nat)
    requires s.cache == p + g && g != [] && g[|g| - 1] != [] && s.size == |Flatten(p)| + |Flatten(g)|
    requires s.haveIdr && s.started && |g| < s.maxGop
    ensures i <= |p| && s.cache != [] && s.size == |Flatten(s.cache)|
    ensures OpenGop(s) == s.(cache := p[i..] + (g + [[]]), size := |Flatten(p[i..])| + |Flatten(g)|)
  {
    FlattenAppend(p, g);
    hide Flatten;
    i := if |p| + |g| + 1 > s.maxGop then 1 else 0;
    SizeKept(s.cache);
    Associative(p, g, [[]]);
    assert s.cache[|s.cache| - 1] == g[|g| - 1];
    if i == 1 {
      FirstFlattened(p);
      assert (p + (g + [[]]))[0] == p[0] && (p + (g + [[]]))[1..] == p[1..] + (g + [[]]);
    } else {
      assert p[0..] == p;
    }
  }

  lemma FirstFlattened<T>(p: Gops<T>)
    requires p != []
    ensures |Flatten(p)| == |p[0]| + |Flatten(p[1..])|
  {
  }

  /** What a write makes of old GOPs in front of new ones, before eviction. */
  lemma Placed<T>(s: Storage<T>, p: Gops<T>, g: Gops<T>, f: Frame<T>) returns (i: nat, s1: Storage<T>)
    requires s.cache == p + g && g != [] && g[|g| - 1] != [] && s.size == |Flatten(p)| + |Flatten(g)|
    requires s.haveIdr && s.started && |g| < s.maxGop
    ensures i <= |p| && s.cache != [] && s.size == |Flatten(s.cache)| && s1.cache != [] && s1.size == |Flatten(s1.cache)|
    ensures s1 == s.(cache := p[i..] + Grown(g, f), size := |Flatten(p[i..])| + |Flatten(Grown(g, f))|)
    ensures Write(s, f) == Evict(s1)
  {
    hide Flatten, OpenGop, Append, Evict, Write;
    FlattenAppend(p, g);
    GrownSize(g, f);
    WriteIs(s, f);
    if f.key {
      i := OpenOld(s, p, g);
      AppendOld(OpenGop(s), p[i..], g + [[]], f);
      assert (g + [[]])[..|g|] == g && [] + [f] == [f];
    } else {
      i := 0;
      assert p[0..] == p;
      AppendOld(s, p, g, f);
    }
    FlattenAppend(p[i..], Grown(g, f));
    s1 := s.(cache := p[i..] + Grown(g, f), size := |Flatten(p[i..])| + |Flatten(Grown(g, f))|);
  }

  /** Either the new GOPs alone decide what is left, or some of the old ones stay in front of them. */
  lemma WriteOld<T>(s: Storage<T>, p: Gops<T>, g: Gops<T>, f: Frame<T>) returns (i: nat)
    requires s.cache == p + g && g != [] && g[|g| - 1] != [] && s.size == |Flatten(p)| + |Flatten(g)|
    requires s.haveIdr && s.started && |g| < s.maxGop
    ensures s.cache != [] && s.size == |Flatten(s.cache)|
    ensures var g' := Grown(g, f);
            var young := s.(cache := g', size := |Flatten(g')|);
            if |Flatten(g')| > s.maxSize then Write(s, f) == Evict(young) else Moved(s, p, Write(s, f), g', i)
  {
    hide Flatten, Write, Evict, Grown;
    var s1;
    i, s1 := Placed(s, p, g, f);
    var j := EvictOld(s1, p[i..], Grown(g, f));
    if |Flatten(Grown(g, f))| <= s.maxSize {
      assert p[i..][j..] == p[i + j..];
      i := i + j;
    }
  }

  lemma {:induction false} EvictSize<T>(s: Storage<T>)
    requires s.cache != [] && s.size == |Flatten(s.cache)|
    ensures Evict(s).size <= s.size
    decreases |s.cache|
  {
    if s.size > s.maxSize && |s.cache| > 1 {
      EvictSize(PopFront(s));
    }
  }

  lemma WriteSize<T>(s: Storage<T>, h: seq<Frame<T>>, f: Frame<T>)
    requires Holds(s, h)
    ensures s.cache != [] && s.size == |Flatten(s.cache)| && Write(s, f).size <= s.size + 1
  {
    OpenSize(s);
    OpenKeeps(s, h);
    var s1 := if f.key then OpenGop(s) else s;
    AppendSize(s1, f);
    EvictSize(Append(s1, f));
  }

  /** Old GOPs in front of newer ones hold frames. */
  lemma OldHoldFrames<T>(p: Gops<T>, g: Gops<T>)
    requires Grouped(p + g) && g != [] && p != []
    ensures |Flatten(p)| > 0
  {
    assert (p + g)[0] == p[0];
  }

  lemma HeldSize<T>(s: Storage<T>, h: seq<Frame<T>>)
    requires Holds(s, h)
    ensures Grouped(s.cache) && |s.cache| <= Limit(s.maxGop) && s.size <= s.maxSize
    ensures s.size == 0 <==> s.cache == [[]]
    ensures s.haveIdr <==> s.started && s.cache != [[]]
    ensures s.started <==> !NoKey(h)
  {
    FlattenOne<T>([]);
    if s.size == 0 {
      var n := |s.cache| - 1;
      FlattenAppend(s.cache[..n], [s.cache[n]]);
      assert s.cache == s.cache[..n] + [s.cache[n]];
      FlattenOne(s.cache[n]);
    }
  }

  // ---- the three phases ----

  /** The storages agree and hold nothing from before the first key frame, the k-th last one. */
  ghost predicate Met<T>(s: Storage<T>, c: Storage<T>, k: nat) {
    s == c && s.size <= k && (k == 0 ==> s.started)
  }

  ghost predicate ApartAt<T>(s: Storage<T>, c: Storage<T>, a: nat, b: nat, k: nat) {
    && a <= |s.cache| && b <= |c.cache| && Apart(s, c, s.cache[..a], c.cache[..b], s.cache[a..])
    && |Flatten(s.cache[a..])| == k
  }

  ghost predicate Split<T>(s: Storage<T>, c: Storage<T>, k: nat) { exists a, b :: ApartAt(s, c, a, b, k) }

  /** There was no key frame since, and s had d frames more than c. Before the first key frame of all
      either storage starts anew when it is full. */
  ghost predicate Before<T>(s: Storage<T>, c: Storage<T>, d: nat) {
    && c == s.(cache := c.cache, size := c.size, haveIdr := c.haveIdr) && !c.haveIdr && 0 < d <= s.maxSize
    && if s.started then c.size == 0 < s.size else s.size == c.size + d || s.size + s.maxSize + 1 == c.size + d
  }

  ghost predicate InPhase<T>(s: Storage<T>, c: Storage<T>, d: nat, k: nat) {
    Met(s, c, k) || (k > 0 && Split(s, c, k)) || (k == 0 && Before(s, c, d))
  }

  lemma SplitDiffer<T>(s: Storage<T>, c: Storage<T>, k: nat)
    requires Split(s, c, k)
    ensures s != c && (s.size > k || c.size > k)
  {
    var a, b :| ApartAt(s, c, a, b, k);
  }

  lemma SplitAt<T>(s: Storage<T>, c: Storage<T>, p: Gops<T>, q: Gops<T>, g: Gops<T>)
    requires Apart(s, c, p, q, g)
    ensures Split(s, c, |Flatten(g)|)
  {
    assert s.cache[..|p|] == p && s.cache[|p|..] == g && c.cache[..|q|] == q;
    hide Apart;
    assert ApartAt(s, c, |p|, |q|, |Flatten(g)|);
  }

  /** In every phase: the storages agree if and only if neither reaches back before that key frame. */
  lemma PhaseDecides<T>(s: Storage<T>, c: Storage<T>, d: nat, k: nat)
    requires InPhase(s, c, d, k)
    ensures s == c <==> s.size <= k && c.size <= k
  {
    hide Split;
    if k > 0 && Split(s, c, k) {
      SplitDiffer(s, c, k);
    }
  }

  // ---- every write leads from a phase to a phase ----

  lemma SplitStep<T>(s: Storage<T>, c: Storage<T>, h: seq<Frame<T>>, p: Gops<T>, q: Gops<T>, g: Gops<T>, f: Frame<T>)
    requires Holds(s, h) && Holds(c, h) && Apart(s, c, p, q, g)
    ensures s.cache != [] && s.size == |Flatten(s.cache)| && c.cache != [] && c.size == |Flatten(c.cache)|
    ensures var k := |Flatten(g)| + 1; Met(Write(s, f), Write(c, f), k) || Split(Write(s, f), Write(c, f), k)
  {
    hide Holds, Flatten, Write, Evict, Grown, Grouped, Limit, NoKey, Moved, Split;
    StorageSizes(s, h);
    StorageSizes(c, h);
    RoomForAnother(s, c, h, p, q, g);
    GrownSize(g, f);
    var g' := Grown(g, f);
    var i := WriteOld(s, p, g, f);
    var j := WriteOld(c, q, g, f);
    WriteKeeps(s, h, f);
    WriteKeeps(c, h, f);
    HeldSize(Write(s, f), h + [f]);
    HeldSize(Write(c, f), h + [f]);
    if |Flatten(g')| <= s.maxSize {
      JoinUp(s, c, p, q, Write(s, f), i, Write(c, f), j, g');
    } else {
      assert s.(cache := g', size := |Flatten(g')|) == c.(cache := g', size := |Flatten(g')|);
    }
  }

  lemma RoomForAnother<T>(s: Storage<T>, c: Storage<T>, h: seq<Frame<T>>, p: Gops<T>, q: Gops<T>, g: Gops<T>)
    requires Holds(s, h) && Holds(c, h) && Apart(s, c, p, q, g)
    ensures |g| < s.maxGop
  {
    HeldSize(s, h);
    HeldSize(c, h);
    assert Flatten<T>([]) == [];
    assert p != [] || q != [];
  }

  /** What is left of the old GOPs on either side. */
  lemma JoinUp<T>(s: Storage<T>, c: Storage<T>, p: Gops<T>, q: Gops<T>, s': Storage<T>, i: nat, c': Storage<T>, j: nat, g: Gops<T>)
    requires c == s.(cache := c.cache, size := c.size) && s.haveIdr && s.started && g != [] && g[|g| - 1] != [] && |Flatten(g)| > 0
    requires Moved(s, p, s', g, i) && Moved(c, q, c', g, j) && Grouped(s'.cache) && Grouped(c'.cache)
    requires (p == [] || q == [] || |p| == 1 == |q|) && |Flatten(p)| != |Flatten(q)|
    ensures Met(s', c', |Flatten(g)|) || Split(s', c', |Flatten(g)|)
  {
    hide *;
    var p' := MovedIs(s, p, s', g, i);
    var q' := MovedIs(c, q, c', g, j);
    LeftOver(p, i, p', q, j, q', g);
    Rejoined(s', c', p', q', g);
  }

  lemma MovedIs<T>(s: Storage<T>, p: Gops<T>, s': Storage<T>, g: Gops<T>, i: nat) returns (p': Gops<T>)
    requires Moved(s, p, s', g, i)
    ensures IsRest(p, i, p') && s'.cache == p' + g && s'.size == |Flatten(p')| + |Flatten(g)|
    ensures s' == s.(cache := s'.cache, size := s'.size)
  {
    p' := p[i..];
  }

  ghost predicate IsRest<T>(p: Gops<T>, i: nat, p': Gops<T>) { i <= |p| && p' == p[i..] }

  lemma Rejoined<T>(s: Storage<T>, c: Storage<T>, p: Gops<T>, q: Gops<T>, g: Gops<T>)
    requires s.cache == p + g && c.cache == q + g && c == s.(cache := c.cache, size := c.size) && s.haveIdr && s.started && g != [] && g[|g| - 1] != []
    requires s.size == |Flatten(p)| + |Flatten(g)| && c.size == |Flatten(q)| + |Flatten(g)| && |Flatten(g)| > 0
    requires p == [] || q == [] || |p| == 1 == |q|
    requires |Flatten(p)| == |Flatten(q)| <==> p == [] == q
    ensures Met(s, c, |Flatten(g)|) || Split(s, c, |Flatten(g)|)
  {
    hide Flatten, Split;
    NothingFlattened<T>();
    if p == [] && q == [] {
      assert s == c;
    } else {
      SplitAt(s, c, p, q, g);
    }
  }

  lemma LeftOver<T>(p: Gops<T>, i: nat, p': Gops<T>, q: Gops<T>, j: nat, q': Gops<T>, g: Gops<T>)
    requires IsRest(p, i, p') && IsRest(q, j, q') && g != [] && Grouped(p' + g) && Grouped(q' + g)
    requires (p == [] || q == [] || |p| == 1 == |q|) && |Flatten(p)| != |Flatten(q)|
    ensures p' == [] || q' == [] || |p'| == 1 == |q'|
    ensures |Flatten(p')| == |Flatten(q')| <==> p' == [] == q'
  {
    hide Grouped, Flatten;
    NothingFlattened<T>();
    if p' != [] { OldHoldFrames(p', g); }
    if q' != [] { OldHoldFrames(q', g); }
    assert i == 0 ==> p' == p;
    assert j == 0 ==> q' == q;
  }

  lemma NothingFlattened<T>()
    ensures Flatten<T>([]) == []
  {
  }

  /** The old GOPs of a storage, none if it is clear. */
  function Old<T>(s: Storage<T>): Gops<T> { if s.size == 0 then [] else s.cache }

  /** The first key frame opens its own GOP behind old ones. */
  lemma OpenFirst<T>(s: Storage<T>, h: seq<Frame<T>>) returns (i: nat)
    requires Holds(s, h)
    ensures i <= |Old(s)| && s.cache != [] && s.size == |Flatten(s.cache)|
    ensures OpenGop(s) == s.(haveIdr := true, started := true, cache := Old(s)[i..] + [[]], size := |Flatten(Old(s)[i..])|)
  {
    HeldSize(s, h);
    StorageSizes(s, h);
    SizeKept(s.cache);
    hide Flatten, Grouped, Suffix;
    FlattenOne<T>([]);
    i := if s.size > 0 && |s.cache| + 1 > s.maxGop then 1 else 0;
    if s.size == 0 {
      var none: Gops<T> := [];
      assert none[i..] + [[]] == [[]];
    } else if i == 1 {
      FirstFlattened(s.cache);
      assert (s.cache + [[]])[0] == s.cache[0] && (s.cache + [[]])[1..] == s.cache[1..] + [[]];
    } else {
      assert s.cache[0..] == s.cache;
    }
  }

  lemma WriteFirst<T>(s: Storage<T>, h: seq<Frame<T>>, f: Frame<T>) returns (i: nat)
    requires Holds(s, h) && f.key
    ensures s.cache != [] && s.size == |Flatten(s.cache)|
    ensures Moved(s.(haveIdr := true, started := true), Old(s), Write(s, f), [[f]], i)
  {
    hide Flatten, OpenGop, Append, Evict, Write, Holds, Old;
    i := OpenFirst(s, h);
    WriteIs(s, f);
    var open := OpenGop(s);
    var p := Old(s)[i..];
    AppendOld(open, p, [[]], f);
    var empty: Gops<T> := [[]];
    assert empty[..0] == [] && [] + [f] == [f] && empty[..0] + [[f]] == [[f]];
    FlattenOne([f]);
    var s1 := Append(open, f);
    var j := EvictOld(s1, p, [[f]]);
    LimitIsLarge(s, h);
    assert p[j..] == Old(s)[i + j..];
    i := i + j;
  }

  lemma LimitIsLarge<T>(s: Storage<T>, h: seq<Frame<T>>)
    requires Holds(s, h)
    ensures s.maxSize > 1
  {
  }

  /** What two storages of one stream have in common. */
  ghost predicate Alike<T>(s: Storage<T>, c: Storage<T>) { s.maxSize == c.maxSize && s.maxGop == c.maxGop && s.started == c.started }

  lemma AlikeAfter<T>(s: Storage<T>, c: Storage<T>, h: seq<Frame<T>>, f: Frame<T>)
    requires Holds(s, h) && Holds(c, h) && Alike(s, c)
    ensures s.cache != [] && s.size == |Flatten(s.cache)| && c.cache != [] && c.size == |Flatten(c.cache)|
    ensures Holds(Write(s, f), h + [f]) && Holds(Write(c, f), h + [f]) && Alike(Write(s, f), Write(c, f))
    ensures Write(s, f).maxSize == s.maxSize && Write(s, f).started == (s.started || f.key)
  {
    StorageSizes(s, h);
    StorageSizes(c, h);
    WriteKeeps(s, h, f);
    WriteKeeps(c, h, f);
    KeyAdded(h, f);
    HeldSize(s, h);
    HeldSize(Write(s, f), h + [f]);
    HeldSize(Write(c, f), h + [f]);
    hide Holds, Write, Flatten, NoKey;
  }

  /** Before the first key frame of all, a full storage starts anew. */
  lemma UnstartedSize<T>(s: Storage<T>, h: seq<Frame<T>>, f: Frame<T>)
    requires Holds(s, h) && !s.started && !f.key
    ensures s.cache != [] && s.size == |Flatten(s.cache)|
    ensures Write(s, f).size == if s.size == s.maxSize then 0 else s.size + 1
  {
    StorageSizes(s, h);
    OneGopBeforeStart(s, h);
    WriteIs(s, f);
    AppendSize(s, f);
    hide Holds, Flatten, Write;
  }

  lemma BeforeStep<T>(s: Storage<T>, c: Storage<T>, h: seq<Frame<T>>, d: nat, f: Frame<T>)
    requires Holds(s, h) && Holds(c, h) && Before(s, c, d) && !f.key
    ensures s.cache != [] && s.size == |Flatten(s.cache)| && c.cache != [] && c.size == |Flatten(c.cache)|
    ensures Met(Write(s, f), Write(c, f), 0) || Before(Write(s, f), Write(c, f), d)
  {
    hide Holds, Flatten, Write, Grouped, NoKey, Limit;
    AlikeAfter(s, c, h, f);
    HeldSize(s, h);
    HeldSize(c, h);
    HeldSize(Write(s, f), h + [f]);
    HeldSize(Write(c, f), h + [f]);
    if s.started {
      Dropped(c, f);
    } else {
      UnstartedSize(s, h, f);
      UnstartedSize(c, h, f);
    }
  }

  lemma Dropped<T>(s: Storage<T>, f: Frame<T>)
    requires s.cache != [] && s.size == |Flatten(s.cache)| && s.started && !s.haveIdr && !f.key
    ensures Write(s, f) == s
  {
  }

  lemma FirstKeyStep<T>(s: Storage<T>, c: Storage<T>, h: seq<Frame<T>>, d: nat, f: Frame<T>)
    requires Holds(s, h) && Holds(c, h) && Before(s, c, d) && f.key
    ensures s.cache != [] && s.size == |Flatten(s.cache)| && c.cache != [] && c.size == |Flatten(c.cache)|
    ensures Met(Write(s, f), Write(c, f), 1) || Split(Write(s, f), Write(c, f), 1)
  {
    hide Holds, Flatten, Write, Grouped, NoKey, Limit, Moved, Split;
    AlikeAfter(s, c, h, f);
    HeldSize(Write(s, f), h + [f]);
    HeldSize(Write(c, f), h + [f]);
    var i := WriteFirst(s, h, f);
    var j := WriteFirst(c, h, f);
    FlattenOne([f]);
    OldSizes(s, h);
    OldSizes(c, h);
    var s0, c0 := s.(haveIdr := true, started := true), c.(haveIdr := true, started := true);
    if s.started { assert Old(c) == []; } else { UnstartedOld(s, h); UnstartedOld(c, h); }
    JoinUp(s0, c0, Old(s), Old(c), Write(s, f), i, Write(c, f), j, [[f]]);
  }

  lemma OldSizes<T>(s: Storage<T>, h: seq<Frame<T>>)
    requires Holds(s, h)
    ensures |Flatten(Old(s))| == s.size
  {
  }

  lemma UnstartedOld<T>(s: Storage<T>, h: seq<Frame<T>>)
    requires Holds(s, h) && !s.started
    ensures |Old(s)| <= 1
  {
    OneGopBeforeStart(s, h);
  }

  lemma MetStep<T>(s: Storage<T>, c: Storage<T>, h: seq<Frame<T>>, k: nat, f: Frame<T>)
    requires Holds(s, h) && Met(s, c, k)
    ensures s.cache != [] && s.size == |Flatten(s.cache)|
    ensures Met(Write(s, f), Write(c, f), if k > 0 || f.key then k + 1 else 0)
  {
    WriteSize(s, h, f);
    HeldSize(s, h);
    AlikeAfter(s, s, h, f);
    if k == 0 && !f.key {
      assert Write(s, f) == s;
    }
    hide Holds, Flatten, Write, Grouped, NoKey, Limit;
  }

  lemma PhaseStep<T>(s: Storage<T>, c: Storage<T>, h: seq<Frame<T>>, d: nat, k: nat, f: Frame<T>)
    requires Holds(s, h) && Holds(c, h) && InPhase(s, c, d, k)
    ensures s.cache != [] && s.size == |Flatten(s.cache)| && c.cache != [] && c.size == |Flatten(c.cache)|
    ensures InPhase(Write(s, f), Write(c, f), d, if k > 0 || f.key then k + 1 else 0)
  {
    hide Holds, Flatten, Write, Met, Before, ApartAt, Apart;
    StorageSizes(s, h);
    StorageSizes(c, h);
    if Met(s, c, k) {
      MetStep(s, c, h, k, f);
    } else if k > 0 {
      var a, b :| ApartAt(s, c, a, b, k);
      ApartStep(s, c, h, a, b, k, f);
    } else if f.key {
      FirstKeyStep(s, c, h, d, f);
    } else {
      BeforeStep(s, c, h, d, f);
    }
  }

  lemma ApartStep<T>(s: Storage<T>, c: Storage<T>, h: seq<Frame<T>>, a: nat, b: nat, k: nat, f: Frame<T>)
    requires Holds(s, h) && Holds(c, h) && ApartAt(s, c, a, b, k)
    ensures s.cache != [] && s.size == |Flatten(s.cache)| && c.cache != [] && c.size == |Flatten(c.cache)|
    ensures Met(Write(s, f), Write(c, f), k + 1) || Split(Write(s, f), Write(c, f), k + 1)
  {
    hide Holds, Flatten, Write, Met, Apart, Split;
    SplitStep(s, c, h, s.cache[..a], c.cache[..b], s.cache[a..], f);
  }

  /** The frames since the first key frame. */
  function SinceKey<T>(fs: seq<Frame<T>>): nat {
    if fs == [] then 0 else if fs[0].key then |fs| else SinceKey(fs[1..])
  }

  lemma {:induction false} PhasesDecide<T>(s: Storage<T>, c: Storage<T>, h: seq<Frame<T>>, d: nat, k: nat, fs: seq<Frame<T>>)
    requires Holds(s, h) && Holds(c, h) && InPhase(s, c, d, k)
    ensures var s', c', n := Replay(s, h, fs), Replay(c, h, fs), if k > 0 then k + |fs| else SinceKey(fs);
            s' == c' <==> s'.size <= n && c'.size <= n
    decreases |fs|
  {
    hide Holds, Flatten, Write, InPhase;
    if fs == [] {
      PhaseDecides(s, c, d, k);
    } else {
      var f := fs[0];
      PhaseStep(s, c, h, d, k, f);
      WriteKeeps(s, h, f);
      WriteKeeps(c, h, f);
      PhasesDecide(Write(s, f), Write(c, f), h + [f], d, if k > 0 || f.key then k + 1 else 0, fs[1..]);
    }
  }

  /** A storage and its cleared copy are given the same frames: in the end they are the same if and only
      if the storage was clear, or neither reaches back before the first key frame among them. */
  lemma ClearedMeetsIff<T>(m: Storage<T>, h: seq<Frame<T>>, fs: seq<Frame<T>>)
    requires Holds(m, h)
    ensures Holds(Clear(m), h)
    ensures var s, c := Replay(m, h, fs), Replay(Clear(m), h, fs);
            s == c <==> m.size == 0 || (s.size <= SinceKey(fs) && c.size <= SinceKey(fs))
  {
    hide Holds, Flatten, Write, Replay, Grouped, Limit, NoKey;
    ClearKeeps(m, h);
    HeldSize(m, h);
    if m.size == 0 {
      assert Clear(m) == m;
    } else {
      assert Before(m, Clear(m), m.size);
      PhasesDecide(m, Clear(m), h, m.size, 0, fs);
    }
  }

  // ---- clearCache in a run ----

  /** A dispatcher without readers is removed, so that each has some. */
  ghost predicate Occupied<T>(r: Ring<T>) { forall p | p in r.dispatchers :: |r.dispatchers[p].readers| > 0 }

  lemma OneReader<T>(readers: map<nat, Reader<T>>, id: nat)
    requires id in readers
    ensures |readers| > 0
  {
    assert readers.Keys != {};
  }

  lemma NextKeepsOccupied<T>(r: Ring<T>, e: Event<T>)
    requires Inv(r) && Enabled(r, e) && Occupied(r)
    ensures Occupied(Next(r, e))
  {
    hide Inv, Write, Clear, Flatten, Flushed;
    var r' := Next(r, e);
    forall p | p in r'.dispatchers ensures |r'.dispatchers[p].readers| > 0 {
      if p in r.dispatchers {
        SomeReader(r, e, p);
      }
    }
  }

  lemma SomeReader<T>(r: Ring<T>, e: Event<T>, p: nat)
    requires Inv(r) && Enabled(r, e) && Occupied(r) && p in r.dispatchers && p in Next(r, e).dispatchers
    ensures |Next(r, e).dispatchers[p].readers| > 0
  {
    hide Inv, Write, Clear, Flatten, Flushed;
    var d, d' := r.dispatchers[p], Next(r, e).dispatchers[p];
    assert d.readers.Keys != {};
    var id :| id in d.readers.Keys;
    if e.RunTask? && e.poller == p {
      assert id in d'.readers;
      OneReader(d'.readers, id);
    }
    if e.Attach? && e.poller == p {
      OneReader(d'.readers, e.reader);
    }
  }

  lemma DoneAndPending<T>(d: Dispatcher<T>, h: seq<Frame<T>>)
    requires DispatcherOk(d, h)
    ensures d.done <= |h| && Holds(d.storage, h[..d.done]) && h[..d.done] + Puts(d.pending) == h
  {
    hide Holds, ReaderOk;
  }

  /** The storage that the pending writes of a dispatcher lead to. */
  ghost function Led<T>(d: Dispatcher<T>, h: seq<Frame<T>>): (s: Storage<T>)
    requires DispatcherOk(d, h)
    ensures Holds(s, h)
  {
    DoneAndPending(d, h);
    Replay(d.storage, h[..d.done], Puts(d.pending))
  }

  lemma LedDone<T>(d: Dispatcher<T>, h: seq<Frame<T>>)
    requires DispatcherOk(d, h) && Puts(d.pending) == []
    ensures Led(d, h) == d.storage
  {
  }

  lemma LedFrame<T>(d: Dispatcher<T>, d': Dispatcher<T>, h: seq<Frame<T>>)
    requires DispatcherOk(d, h) && DispatcherOk(d', h) && d'.storage == d.storage && d'.done == d.done && Puts(d'.pending) == Puts(d.pending)
    ensures Led(d', h) == Led(d, h)
  {
  }

  lemma PostLeads<T>(d: Dispatcher<T>, h: seq<Frame<T>>, f: Frame<T>)
    requires DispatcherOk(d, h)
    ensures Led(d, h).cache != [] && Led(d, h).size == |Flatten(Led(d, h).cache)|
    ensures var d' := d.(pending := d.pending + [Put(f)]); DispatcherOk(d', h + [f]) && Led(d', h + [f]) == Write(Led(d, h), f)
  {
    hide Holds, Write, Flatten, ReaderOk, Replay;
    PostKeeps(d, h, f);
    PutsAppend(d.pending, Put(f));
    ReplayAppend(d.storage, h[..d.done], Puts(d.pending), f);
    assert (h + [f])[..d.done] == h[..d.done];
  }

  lemma PostClearLeads<T>(d: Dispatcher<T>, h: seq<Frame<T>>)
    requires DispatcherOk(d, h)
    ensures var d' := d.(pending := d.pending + [ClearTask]); DispatcherOk(d', h) && Led(d', h) == Led(d, h)
  {
    hide Holds, Write, Flatten, ReaderOk, Replay;
    PostClearKeeps(d, h);
    PutsAppend(d.pending, ClearTask);
  }

  /** Running a task leads where the dispatcher was led already: a clear task does nothing. */
  lemma RanLeads<T>(d: Dispatcher<T>, h: seq<Frame<T>>)
    requires DispatcherOk(d, h) && d.pending != [] && |d.readers| > 0
    ensures d.storage.cache != [] && d.storage.size == |Flatten(d.storage.cache)|
    ensures DispatcherOk(Ran(d), h) && Led(Ran(d), h) == Led(d, h)
    ensures d.pending[0].ClearTask? ==> Ran(d).storage == d.storage
  {
    hide Holds, Write, Flatten, ReaderOk;
    RanKeeps(d, h);
    if d.pending[0].Put? {
      var f := d.pending[0].frame;
      assert f == h[d.done..][0];
      assert h[..d.done] + [f] == h[..d.done + 1];
    }
  }

  /** Every event leads a dispatcher that stays where its write leads, clearCache included. */
  lemma NextLeads<T>(r: Ring<T>, e: Event<T>, p: nat)
    requires Inv(r) && Enabled(r, e) && Occupied(r) && p in r.dispatchers && p in Next(r, e).dispatchers
    ensures Inv(Next(r, e)) && Occupied(Next(r, e))
    ensures var s, r' := Led(r.dispatchers[p], r.history), Next(r, e);
            && s.cache != [] && s.size == |Flatten(s.cache)|
            && r'.history == (if e.WriteFrame? then r.history + [e.frame] else r.history)
            && Led(r'.dispatchers[p], r'.history) == if e.WriteFrame? then Write(s, e.frame) else s
  {
    hide Holds, DispatcherOk, Write, Clear, Flatten, Ran, Joined, Led, Occupied;
    NextKeeps(r, e);
    NextKeepsOccupied(r, e);
    var d, d' := r.dispatchers[p], Next(r, e).dispatchers[p];
    StorageSizes(Led(d, r.history), r.history);
    match e
    case WriteFrame(f) => PostLeads(d, r.history, f);
    case ClearCache => PostClearLeads(d, r.history);
    case RunTask(q) =>
      if q == p {
        ReadersAt(r, p);
        RanLeads(d, r.history);
      }
    case Attach(q, id, useCache, maxGop) =>
      if q == p {
        JoinFrame(d, id, useCache, maxGop);
        LedFrame(d, d', r.history);
      }
    case Detach(q, id) => LedFrame(d, d', r.history);
  }

  lemma ReadersAt<T>(r: Ring<T>, p: nat)
    requires Occupied(r) && p in r.dispatchers
    ensures |r.dispatchers[p].readers| > 0
  {
  }

  /** The dispatcher of p is there all along a run. */
  ghost predicate Stays<T>(r: Ring<T>, es: seq<Event<T>>, p: nat)
    requires Inv(r) && Possible(r, es)
    decreases |es|
  {
    p in r.dispatchers && (es == [] || (NextKeeps(r, es[0]); Stays(Next(r, es[0]), es[1..], p)))
  }

  function Frames<T>(es: seq<Event<T>>): seq<Frame<T>> {
    if es == [] then [] else (if es[0].WriteFrame? then [es[0].frame] else []) + Frames(es[1..])
  }

  /** Whatever happens in between, clearCache included, the storage of a dispatcher that stays is the one
      that the frames written make of what it was. */
  lemma {:induction false} LedByWrites<T>(r: Ring<T>, es: seq<Event<T>>, p: nat)
    requires Inv(r) && Occupied(r) && Possible(r, es) && Stays(r, es, p)
    ensures var end := Run(r, es);
            && Occupied(end) && p in end.dispatchers && end.history == r.history + Frames(es)
            && Led(end.dispatchers[p], end.history) == Replay(Led(r.dispatchers[p], r.history), r.history, Frames(es))
    decreases |es|
  {
    hide Holds, DispatcherOk, Inv, Next, Enabled, Led, Write, Flatten, Occupied;
    if es == [] {
      assert r.history + Frames(es) == r.history;
    } else {
      NextLeads(r, es[0], p);
      LedByWrites(Next(r, es[0]), es[1..], p);
      if es[0].WriteFrame? {
        assert Frames(es)[0] == es[0].frame && Frames(es)[1..] == Frames(es[1..]);
        HeadMoves(r.history, Frames(es));
      } else {
        assert Frames(es) == Frames(es[1..]);
      }
    }
  }

  /** Without clearCache the same holds of the main storage. */
  lemma {:induction false} MainByWrites<T>(r: Ring<T>, es: seq<Event<T>>)
    requires Inv(r) && Possible(r, es) && ClearCache !in es
    ensures Run(r, es).main == Replay(r.main, r.history, Frames(es))
    decreases |es|
  {
    hide Holds, DispatcherOk, Enabled, Write, Flatten, Ran, Joined, Left;
    if es != [] {
      assert es[0] in es;
      NextKeeps(r, es[0]);
      StorageSizes(r.main, r.history);
      MainByWrites(Next(r, es[0]), es[1..]);
      if es[0].WriteFrame? {
        assert Frames(es)[0] == es[0].frame && Frames(es)[1..] == Frames(es[1..]);
        HeadMoves(r.history, Frames(es));
      } else {
        assert Frames(es) == Frames(es[1..]);
      }
    }
  }

  lemma {:induction false} RunsStayOccupied<T>(r: Ring<T>, es: seq<Event<T>>)
    requires Inv(r) && Occupied(r) && Possible(r, es)
    ensures Occupied(Run(r, es))
    decreases |es|
  {
    hide Inv, Next, Enabled, Occupied;
    if es != [] {
      NextKeeps(r, es[0]);
      NextKeepsOccupied(r, es[0]);
      RunsStayOccupied(Next(r, es[0]), es[1..]);
    }
  }

  /** In every run: when a registered dispatcher runs a clear task, its storage stays as it is. */
  lemma ClearTaskDoesNothing<T>(maxSize: nat, maxGop: nat, es: seq<Event<T>>, p: nat)
    requires Possible(NewRing(maxSize, maxGop), es)
    requires var r := Run(NewRing(maxSize, maxGop), es);
             p in r.dispatchers && r.dispatchers[p].pending != [] && r.dispatchers[p].pending[0] == ClearTask
    ensures var r := Run(NewRing(maxSize, maxGop), es);
            && Possible(r, [RunTask(p)])
            && var after := Run(r, [RunTask(p)]);
            p in after.dispatchers && after.dispatchers[p].storage == r.dispatchers[p].storage
  {
    hide Holds, Fresh;
    RunsStayOccupied(NewRing(maxSize, maxGop), es);
    var r := Run(NewRing(maxSize, maxGop), es);
    hide Run, Occupied;
    ReadersAt(r, p);
    OneTask(r, p);
  }

  /** clearCache comes while a dispatcher is led to the main storage, and then any events but another
      clearCache. As long as the dispatcher stays, it is led to the main storage again if and only if
      that was clear, or neither of the two reaches back before the first key frame written since. */
  lemma ClearCacheSyncIff<T>(r: Ring<T>, p: nat, es: seq<Event<T>>)
    requires Inv(r) && Occupied(r) && p in r.dispatchers && Led(r.dispatchers[p], r.history) == r.main
    requires ClearCache !in es && Possible(r, [ClearCache] + es) && Stays(r, [ClearCache] + es, p)
    ensures var end := Run(r, [ClearCache] + es);
            && p in end.dispatchers
            && var d, n := end.dispatchers[p], SinceKey(Frames(es));
            && (Led(d, end.history) == end.main <==>
                  r.main.size == 0 || (Led(d, end.history).size <= n && end.main.size <= n))
            && (Puts(d.pending) == [] ==> Led(d, end.history) == d.storage)
  {
    hide Holds, DispatcherOk, Enabled, Write, Flatten, Led, Occupied, Replay, Clear;
    var all := [ClearCache] + es;
    assert all[0] == ClearCache && all[1..] == es;
    LedByWrites(r, all, p);
    assert Frames(all) == Frames(es);
    NextKeeps(r, ClearCache);
    var cleared := Next(r, ClearCache);
    MainByWrites(cleared, es);
    ClearedMeetsIff(r.main, r.history, Frames(es));
    var end := Run(r, all);
    var d := end.dispatchers[p];
    if Puts(d.pending) == [] {
      LedDone(d, end.history);
    }
  }

  lemma {:induction false} RunSplit<T>(r: Ring<T>, a: seq<Event<T>>, b: seq<Event<T>>)
    requires Inv(r) && Possible(r, a) && Possible(Run(r, a), b)
    ensures Possible(r, a + b) && Run(r, a + b) == Run(Run(r, a), b)
    decreases |a|
  {
    hide Inv, Next, Enabled;
    if a == [] {
      assert a + b == b;
    } else {
      NextKeeps(r, a[0]);
      RunSplit(Next(r, a[0]), a[1..], b);
      assert (a + b)[0] == a[0] && (a + b)[1..] == a[1..] + b;
    }
  }

  lemma OneTask<T>(r: Ring<T>, p: nat)
    requires Inv(r) && p in r.dispatchers && r.dispatchers[p].pending != []
    ensures Possible(r, [RunTask(p)]) && Run(r, [RunTask(p)]) == Next(r, RunTask(p))
  {
    hide Inv;
    var es: seq<Event<T>> := [RunTask(p)];
    assert es[0] == RunTask(p) && es[1..] == [];
    NextKeeps(r, RunTask(p));
    assert Possible(Next(r, RunTask(p)), []);
  }

  /** A reader joins and a key frame is written, which its dispatcher has not seen yet. */
  lemma KeyIsWritten<T>(f: Frame<T>, maxSize: nat, maxGop: nat)
    requires f.key && maxGop > 0
    ensures var r := NewRing<T>(maxSize, maxGop);
            var es := [Attach(0, 0, false, 0), WriteFrame(f)];
            && Possible(r, es)
            && var end := Run(r, es);
            && AllInSync(end) && 0 in end.dispatchers && |end.dispatchers[0].readers| == 1
            && end.dispatchers[0].pending == [Put(f)] && end.main.cache == [[f]]
  {
    hide Holds, DispatcherOk, InSync;
    var r := NewRing<T>(maxSize, maxGop);
    var join, put: Event<T> := Attach(0, 0, false, 0), WriteFrame(f);
    NextKeeps(r, join);
    NextKeepsSync(r, join);
    var joined := Next(r, join);
    NextKeeps(joined, put);
    NextKeepsSync(joined, put);
    var es := [join, put];
    assert es[1..] == [put] && [put][1..] == [];
    assert Possible(Next(joined, put), []) && Possible(joined, [put]);
    assert Run(joined, [put]) == Run(Next(joined, put), []) == Next(joined, put);
    FirstKey(f, maxSize, maxGop);
  }

  lemma FirstKey<T>(f: Frame<T>, maxSize: nat, maxGop: nat)
    requires f.key && maxGop > 0
    ensures var s := Fresh<T>(maxSize, maxGop);
            s.cache != [] && s.size == |Flatten(s.cache)| && Write(s, f).cache == [[f]]
  {
    assert [] + [f] == [f];
  }

  /** clearCache and the two tasks of a dispatcher that has one write pending. */
  function ClearAndRun<T>(p: nat): seq<Event<T>> { [ClearCache] + [RunTask(p)] + [RunTask(p)] }

  lemma TwoTasks<T>(r: Ring<T>, p: nat, f: Frame<T>)
    requires Inv(r) && p in r.dispatchers && r.dispatchers[p].pending == [Put(f)]
    ensures Possible(r, ClearAndRun(p)) && Stays(r, ClearAndRun(p), p)
    ensures var end := Run(r, ClearAndRun(p)); p in end.dispatchers && end.dispatchers[p].pending == []
  {
    hide Holds, DispatcherOk, Write, Clear;
    var es: seq<Event<T>> := ClearAndRun(p);
    var turn: Event<T> := RunTask(p);
    assert es[0] == ClearCache && es[1..] == [turn, turn] && [turn, turn][1..] == [turn] && [turn][1..] == [];
    NextKeeps(r, ClearCache);
    var r1 := Next(r, ClearCache);
    assert r1.dispatchers[p].pending == [Put(f), ClearTask];
    NextKeeps(r1, turn);
    var r2 := Next(r1, turn);
    assert r2.dispatchers[p].pending == [ClearTask];
    NextKeeps(r2, turn);
    var r3 := Next(r2, turn);
    assert r3.dispatchers[p].pending == [];
    assert Possible(r3, []) && Stays(r3, [], p) && Run(r3, []) == r3;
    assert Possible(r2, [turn]) && Stays(r2, [turn], p) && Run(r2, [turn]) == r3;
    assert Possible(r1, [turn, turn]) && Stays(r1, [turn, turn], p) && Run(r1, [turn, turn]) == r3;
  }

  /** A run that ends out of step: every task has run, and the dispatcher still holds the frame that
      clearCache removed from the main storage. */
  lemma ClearCacheCanDiverge<T>(f: Frame<T>, maxSize: nat, maxGop: nat) returns (es: seq<Event<T>>)
    requires f.key && maxGop > 0
    ensures Possible(NewRing<T>(maxSize, maxGop), es)
    ensures var end := Run(NewRing<T>(maxSize, maxGop), es);
            0 in end.dispatchers && end.dispatchers[0].pending == [] && end.dispatchers[0].storage != end.main
  {
    hide Holds, Next, Fresh, Possible, Run, Write, Led, Occupied, InSync;
    var r := NewRing<T>(maxSize, maxGop);
    var first := [Attach(0, 0, false, 0), WriteFrame(f)];
    KeyIsWritten(f, maxSize, maxGop);
    var mid := Run(r, first);
    NewIsOccupied<T>(maxSize, maxGop);
    RunsStayOccupied(r, first);
    SyncIsLed(mid, 0);
    TwoTasks(mid, 0, f);
    var turns: seq<Event<T>> := [RunTask(0)] + [RunTask(0)];
    assert [ClearCache] + turns == ClearAndRun(0);
    ClearCacheSyncIff(mid, 0, turns);
    LedByWrites(mid, ClearAndRun(0), 0);
    NothingWritten(mid, turns, f);
    RunSplit(r, first, ClearAndRun(0));
    es := first + ClearAndRun(0);
  }

  lemma NewIsOccupied<T>(maxSize: nat, maxGop: nat)
    ensures Occupied(NewRing<T>(maxSize, maxGop))
  {
  }

  lemma NothingWritten<T>(r: Ring<T>, turns: seq<Event<T>>, f: Frame<T>)
    requires Inv(r) && r.main.cache == [[f]] && turns == [RunTask(0)] + [RunTask(0)]
    ensures Frames(turns) == [] == Frames([ClearCache] + turns) && SinceKey(Frames(turns)) == 0
    ensures Replay(r.main, r.history, Frames(turns)) == r.main && r.main.size == 1
  {
    hide Holds, Write;
    var es: seq<Event<T>> := [ClearCache] + turns;
    var none: seq<Event<T>> := [];
    assert Frames(none) == [] && Frames(turns[1..][1..]) == [] && Frames(turns[1..]) == [];
    StorageSizes(r.main, r.history);
    assert es[1..] == turns && turns[1..] == [RunTask(0)] && turns[1..][1..] == [];
    FlattenOne([f]);
  }

  lemma SyncIsLed<T>(r: Ring<T>, p: nat)
    requires Inv(r) && p in r.dispatchers && InSync(r.dispatchers[p], r)
    ensures Led(r.dispatchers[p], r.history) == r.main
  {
  }
}
