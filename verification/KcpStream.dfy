/** Messages, their fragments, and the order in which they come back out. */
module KcpStream {
  import opened Arithmetic
  import opened LittleEndian
  import opened KcpState

  lemma {:induction false} StreamAppend(a: seq<seq<byte>>, b: seq<seq<byte>>, mss: nat)
    requires mss > 0
    ensures Stream(a + b, mss) == Stream(a, mss) + Stream(b, mss)
  {
    if a == [] {
      assert a + b == b;
    } else {
      assert (a + b)[1..] == a[1..] + b;
      StreamAppend(a[1..], b, mss);
    }
  }

  lemma FragCountStep(n: nat, mss: nat)
    requires mss > 0
    ensures n == 0 ==> FragCount(n, mss) == 0
    ensures 0 < n <= mss ==> FragCount(n, mss) == 1
    ensures n > mss ==> FragCount(n, mss) == 1 + FragCount(n - mss, mss)
  {
    if n == 0 {
      DivisionIsUnique(n + mss - 1, mss, 0, mss - 1);
    } else if n <= mss {
      DivisionIsUnique(n + mss - 1, mss, 1, n - 1);
    } else {
      var q, r := FragCount(n - mss, mss), (n - 1) % mss;
      assert n - 1 == mss * q + r;
      assert mss * (1 + q) == mss + mss * q;
      DivisionIsUnique(n + mss - 1, mss, 1 + q, r);
    }
  }

  lemma {:induction false} FragmentsLength(msg: seq<byte>, mss: nat)
    requires mss > 0
    ensures |Fragments(msg, mss)| == FragCount(|msg|, mss)
    decreases |msg|
  {
    hide FragCount;
    FragCountStep(|msg|, mss);
    if |msg| > mss {
      FragmentsLength(msg[mss..], mss);
    }
  }

  /** Fragment i is the i-th block of mss bytes, the last one shorter; frg counts down to 0. */
  lemma FragmentAt(msg: seq<byte>, mss: nat, i: nat)
    requires mss > 0 && i < |Fragments(msg, mss)|
    ensures var f := Fragments(msg, mss)[i];
            && mss * i < |msg|
            && f.frg == |Fragments(msg, mss)| - 1 - i
            && f.data == msg[mss * i..KcpCongestion.Min(mss * i + mss, |msg|)]
  {
    FragmentAtOffset(msg, mss, i, mss * i);
  }

  lemma {:induction false} FragmentAtOffset(msg: seq<byte>, mss: nat, i: nat, off: nat)
    requires mss > 0 && i < |Fragments(msg, mss)| && off == mss * i
    ensures off < |msg| && Fragments(msg, mss)[i] == Frag(|Fragments(msg, mss)| - 1 - i, msg[off..KcpCongestion.Min(off + mss, |msg|)])
    decreases |msg|
  {
    hide FragCount;
    FragmentsLength(msg, mss);
    if i > 0 {
      var rest := msg[mss..];
      assert Fragments(msg, mss)[i] == Fragments(rest, mss)[i - 1];
      assert mss * i == mss + mss * (i - 1);
      FragmentAtOffset(rest, mss, i - 1, off - mss);
      var hi := KcpCongestion.Min(off + mss, |msg|);
      assert rest[off - mss..hi - mss] == msg[off..hi];
    }
  }

  /** A message send accepts has at most WND_RCV fragments, so frg fits one byte. */
  lemma FragmentsFit(msg: seq<byte>, mss: nat)
    requires mss > 0 && |msg| < mss * WND_RCV
    ensures |Fragments(msg, mss)| <= WND_RCV
    ensures forall i :: 0 <= i < |Fragments(msg, mss)| ==> Fragments(msg, mss)[i].frg < WND_RCV && |Fragments(msg, mss)[i].data| <= mss
  {
    FragmentsLength(msg, mss);
    QuotientAtMost(|msg| + mss - 1, mss, WND_RCV);
    forall i | 0 <= i < |Fragments(msg, mss)|
      ensures Fragments(msg, mss)[i].frg < WND_RCV && |Fragments(msg, mss)[i].data| <= mss
    {
      FragmentAt(msg, mss, i);
    }
  }

  lemma {:induction false} FrontMessage(msg: seq<byte>, mss: nat, rest: seq<Frag>)
    requires mss > 0 && msg != []
    ensures var fs := Fragments(msg, mss);
            && 0 < |fs| == fs[0].frg + 1
            && LastFragment(fs + rest) == |fs| - 1
            && SizeUpTo(fs + rest) == |msg|
    decreases |msg|
  {
    hide FragCount;
    var fs := Fragments(msg, mss);
    FragmentsLength(msg, mss);
    FragCountStep(|msg|, mss);
    if |msg| > mss {
      FragmentsLength(msg[mss..], mss);
      FragCountStep(|msg| - mss, mss);
      var tail := Fragments(msg[mss..], mss);
      FrontMessage(msg[mss..], mss, rest);
      assert (fs + rest)[0] == fs[0];
      assert (fs + rest)[1..] == tail + rest;
    }
  }

  /** What onRead got for a message: its size, and at the front of the buffer its last fragment. */
  ghost predicate Matches(d: Delivered, msg: seq<byte>, mss: nat)
    requires mss > 0
  {
    var fs := Fragments(msg, mss);
    d.size == |msg| && fs != [] && d.head == fs[|fs| - 1].data
  }

  ghost predicate Sendable(msgs: seq<seq<byte>>, mss: nat) {
    forall m | m in msgs :: 0 < |m| < mss * WND_RCV
  }

  /** What merging q gives when q is a received prefix of the stream of msgs. */
  ghost predicate Drained(msgs: seq<seq<byte>>, mss: nat, q: seq<Frag>, ds: seq<Delivered>, rest: seq<Frag>)
    requires mss > 0
  {
    && |ds| <= |msgs| && (forall i :: 0 <= i < |ds| ==> Matches(ds[i], msgs[i], mss))
    && q == Stream(msgs[..|ds|], mss) + rest
    && rest <= Stream(msgs[|ds|..], mss)
    && |rest| < WND_RCV && PeekSize(rest) == 0
  }

  /** Merging a received prefix of a stream of messages yields exactly its complete messages, in
      order, leaves less than one message, and never pops an empty queue. */
  lemma {:induction false} DrainPrefix(msgs: seq<seq<byte>>, mss: nat, q: seq<Frag>)
    requires mss > 0 && Sendable(msgs, mss) && q <= Stream(msgs, mss)
    ensures NeverRunsDry(q) && Drained(msgs, mss, q, Drain(q).0, Drain(q).1)
    decreases |msgs|
  {
    assert msgs[..0] == [];
    assert msgs[0..] == msgs;
    if q != [] {
      var fs := Fragments(msgs[0], mss);
      FrontMessage(msgs[0], mss, []);
      FragmentsFit(msgs[0], mss);
      assert q[0] == Stream(msgs, mss)[0] == fs[0];
      if |q| >= |fs| {
        var tail := q[|fs|..];
        assert q == fs + tail && tail <= Stream(msgs[1..], mss) by {
          SplitPrefix(q, fs, Stream(msgs[1..], mss));
        }
        DrainPrefix(msgs[1..], mss, tail);
        DrainFront(msgs, mss, tail);
      }
    }
  }

  lemma SplitPrefix<T>(q: seq<T>, a: seq<T>, b: seq<T>)
    requires q <= a + b && |a| <= |q|
    ensures q == a + q[|a|..] && q[|a|..] <= b
  {
    assert q[..|a|] == (a + b)[..|a|] == a;
    assert q[|a|..] == (a + b)[..|q|][|a|..] == b[..|q| - |a|];
  }

  /** One turn of the merge loop: the first message, then the rest of the queue. */
  lemma DrainStep(msg: seq<byte>, mss: nat, tail: seq<Frag>) returns (d: Delivered)
    requires mss > 0 && 0 < |msg| && NeverRunsDry(tail)
    ensures var q := Fragments(msg, mss) + tail;
            Matches(d, msg, mss) && NeverRunsDry(q) && Drain(q) == ([d] + Drain(tail).0, Drain(tail).1)
  {
    var fs := Fragments(msg, mss);
    var q := fs + tail;
    FrontMessage(msg, mss, tail);
    hide Fragments, SizeUpTo, LastFragment;
    assert q[0] == fs[0] && q[|fs| - 1] == fs[|fs| - 1];
    assert q[|fs|..] == tail;
    d := Delivered(PeekSize(q), q[|fs| - 1].data);
  }

  lemma DrainFront(msgs: seq<seq<byte>>, mss: nat, tail: seq<Frag>)
    requires mss > 0 && Sendable(msgs, mss) && msgs != []
    requires NeverRunsDry(tail) && Drained(msgs[1..], mss, tail, Drain(tail).0, Drain(tail).1)
    ensures var q := Fragments(msgs[0], mss) + tail;
            NeverRunsDry(q) && Drained(msgs, mss, q, Drain(q).0, Drain(q).1)
  {
    hide Drain, NeverRunsDry, Fragments, Matches, Drained;
    var d := DrainStep(msgs[0], mss, tail);
    DrainedCons(msgs, mss, tail, Drain(tail).0, Drain(tail).1, d);
  }

  lemma DrainedCons(msgs: seq<seq<byte>>, mss: nat, tail: seq<Frag>, ds: seq<Delivered>, rest: seq<Frag>, d: Delivered)
    requires mss > 0 && msgs != [] && Matches(d, msgs[0], mss) && Drained(msgs[1..], mss, tail, ds, rest)
    ensures Drained(msgs, mss, Fragments(msgs[0], mss) + tail, [d] + ds, rest)
  {
    hide Matches, Fragments, PeekSize;
    var all := [d] + ds;
    assert msgs[..|all|][1..] == msgs[1..][..|ds|];
    assert msgs[|all|..] == msgs[1..][|ds|..];
    assert Fragments(msgs[0], mss) + (Stream(msgs[1..][..|ds|], mss) + rest) == Stream(msgs[..|all|], mss) + rest;
  }

  /** The buffer handed to onRead is sure to hold the message if and only if it fits one fragment. */
  lemma ByteIdenticalIff(d: Delivered, msg: seq<byte>, mss: nat)
    requires mss > 0 && msg != [] && Matches(d, msg, mss)
    ensures (forall buffer: seq<byte> :: |buffer| == d.size && d.head <= buffer ==> buffer == msg) <==> |msg| <= mss
  {
    var fs := Fragments(msg, mss);
    if |msg| <= mss {
      assert d.head == msg;
    } else {
      FragmentAt(msg, mss, |fs| - 1);
      assert |fs| >= 2;
      AtLeastOnce(mss, |fs| - 1);
      assert |d.head| < |msg|;
      var junk: byte := if msg[|msg| - 1] == 0 then 1 else 0;
      var buffer := d.head + seq(|msg| - |d.head|, _ => junk);
      assert buffer[|msg| - 1] != msg[|msg| - 1];
      assert |buffer| == d.size && d.head <= buffer && buffer != msg;
    }
  }
}
