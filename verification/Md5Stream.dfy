/** Streaming MD5 around its per-block function: buffering, the bit counter kept in two words, and the
    padding of sections 3.1 and 3.2 of RFC 1321. */
module Md5Stream {
  import opened Arithmetic
  import opened LittleEndian

  datatype State = State(a: nat, b: nat, c: nat, d: nat)

  const INITIAL: State := State(0x6745_2301, 0xefcd_ab89, 0x98ba_dcfe, 0x1032_5476)

  type BlockFunction = (State, seq<byte>) -> State

  // ---- the standard ----

  function Fold(f: BlockFunction, s: State, m: seq<byte>): State
    requires |m| % 64 == 0
    decreases |m|
  {
    if |m| == 0 then s else
      OneBlockLess(|m|);
      Fold(f, f(s, m[..64]), m[64..])
  }

  lemma OneBlockLess(n: nat)
    requires n % 64 == 0 && n > 0
    ensures n >= 64 && (n - 64) % 64 == 0
  {
  }

  /** A 1 bit and zeros up to 56 bytes modulo 64. */
  function Filler(length: nat): seq<byte> {
    [0x80] + seq(if length % 64 < 56 then 55 - length % 64 else 119 - length % 64, _ => 0)
  }

  /** The 64-bit number of bits, low word first. */
  function LengthBytes(length: nat): seq<byte> { Le4(8 * length) + Le4(8 * length / U32) }

  function Padded(m: seq<byte>): (p: seq<byte>)
    ensures |p| % 64 == 0
  {
    WholeBlocks(|m|);
    m + Filler(|m|) + LengthBytes(|m|)
  }

  lemma WholeBlocks(n: nat)
    ensures (n + |Filler(n)| + 8) % 64 == 0
  {
  }

  function Digest(f: BlockFunction, m: seq<byte>): seq<byte> {
    var s := Fold(f, INITIAL, Padded(m));
    Le4(s.a) + Le4(s.b) + Le4(s.c) + Le4(s.d)
  }

  lemma {:induction false} FoldAppend(f: BlockFunction, s: State, a: seq<byte>, b: seq<byte>)
    requires |a| % 64 == 0 && |b| % 64 == 0
    ensures (|a| + |b|) % 64 == 0 && Fold(f, s, a + b) == Fold(f, Fold(f, s, a), b)
    decreases |a|
  {
    if |a| == 0 {
      assert a + b == b;
    } else {
      OneBlockLess(|a|);
      assert (a + b)[..64] == a[..64] && (a + b)[64..] == a[64..] + b;
      FoldAppend(f, f(s, a[..64]), a[64..], b);
    }
  }

  lemma FoldOne(f: BlockFunction, s: State, b: seq<byte>)
    requires |b| == 64
    ensures Fold(f, s, b) == f(s, b)
  {
    assert b[..64] == b && b[64..] == [];
  }

  // ---- the bit counter ----

  /** What the two words hold. */
  predicate Counts(lo: nat, hi: nat, length: nat) {
    lo < U32 && hi < U32 && lo == 8 * length % U32 && hi == 8 * length / U32 % U32
  }

  /** The low word after update, and whether it wrapped, which the program sees by comparing. */
  function AddLow(lo: nat, n: nat): nat { (lo + 8 * n % U32) % U32 }
  function Wrapped(lo: nat, n: nat): bool { AddLow(lo, n) < 8 * n % U32 }

  /** The counter stays eight times the length, modulo 2^64, through the carry. */
  lemma CounterAdds(lo: nat, hi: nat, length: nat, n: nat)
    requires Counts(lo, hi, length) && n < U32
    ensures Counts(AddLow(lo, n), (hi + (if Wrapped(lo, n) then 1 else 0) + n / 0x2000_0000) % U32, length + n)
  {
    var q, r := 8 * length / U32, 8 * n % U32;
    var top := n / 0x2000_0000;
    ShiftedOut(n);
    assert 8 * length == U32 * q + lo && 8 * n == U32 * top + r;
    var carry := if lo + r >= U32 then 1 else 0;
    var low := lo + r - carry * U32;
    DivisionIsUnique(lo + r, U32, carry, low);
    DivisionIsUnique(8 * (length + n), U32, q + top + carry, low);
    ModSum(hi, q, top + carry);
  }

  lemma ShiftedOut(n: nat)
    ensures 8 * n / U32 == n / 0x2000_0000
  {
    var q, r := n / 0x2000_0000, n % 0x2000_0000;
    DivisionIsUnique(8 * n, U32, q, 8 * r);
  }

  lemma ModSum(hi: nat, q: nat, k: nat)
    requires hi == q % U32
    ensures (hi + k) % U32 == (q + k) % U32
  {
  }

  /** The position in the buffer is read off the bit counter. */
  lemma IndexOfCount(lo: nat, hi: nat, length: nat)
    requires Counts(lo, hi, length)
    ensures lo / 8 % 64 == length % 64
  {
    var q, r := length / 0x2000_0000, length % 0x2000_0000;
    DivisionIsUnique(8 * length, U32, q, 8 * r);
    DivisionIsUnique(lo, 8, r, 0);
    var q', r' := r / 64, r % 64;
    DivisionIsUnique(length, 64, 0x80_0000 * q + q', r');
  }

  // ---- the loop over whole blocks ----

  /** `i + blocksize <= length` in 32 bits. */
  predicate Guard(i: nat, length: nat) { (i + 64) % U32 <= length }

  /** Where the loop of update should stop, for a buffer that holds `index` bytes. */
  function LastPosition(index: nat, length: nat): nat
    requires index < 64 <= index + length
  {
    64 - index + (length - (64 - index)) / 64 * 64
  }

  /** The sum in the guard does not wrap where the loop should stop. */
  predicate LoopEnds(index: nat, length: nat)
    requires index < 64
  {
    index + length < 64 || LastPosition(index, length) + 64 < U32
  }

  /** The loop stops behind the last whole block exactly when that sum fits into 32 bits; otherwise
      it reads on past the end of the input. */
  lemma LoopEndsIff(index: nat, length: nat)
    requires index < 64 <= index + length && length < U32
    ensures var last := LastPosition(index, length);
            last <= length < last + 64 && (!Guard(last, length) <==> LoopEnds(index, length))
    ensures !LoopEnds(index, length) ==> U32 - 64 <= length
  {
    var last := LastPosition(index, length);
    if last + 64 >= U32 {
      DivisionIsUnique(last + 64, U32, 1, last + 64 - U32);
    } else {
      DivisionIsUnique(last + 64, U32, 0, last + 64);
    }
  }

  /** An input of 2^32 - 1 bytes into an empty buffer: the loop does not stop where it should. */
  lemma LongestInput()
    ensures var length := U32 - 1; !LoopEnds(0, length) && Guard(LastPosition(0, length), length)
  {
    assert LastPosition(0, U32 - 1) == U32 - 64;
  }

  // ---- the program ----

  class Md5 {
    const transform: BlockFunction
    const buffer: array<byte>
    var state: State
    var count0: nat
    var count1: nat
    var finalized: bool
    var digest: seq<byte>
    ghost var message: seq<byte>

    /** The blocks so far are in the state, the rest of the message is in the buffer, and the counter
        holds its length in bits. */
    ghost predicate Running()
      reads this, buffer
    {
      && buffer.Length == 64 && Counts(count0, count1, |message|)
      && Held(message, |message| % 64)
    }

    ghost predicate Held(m: seq<byte>, index: nat)
      reads this, buffer
      requires buffer.Length == 64
    {
      && index < 64 && index <= |m| && (|m| - index) % 64 == 0
      && buffer[..index] == m[|m| - index..]
      && state == Fold(transform, INITIAL, m[..|m| - index])
    }

    constructor (transform: BlockFunction)
      ensures Running() && message == [] && !finalized && this.transform == transform && fresh(buffer)
    {
      this.transform := transform;
      buffer := new byte[64];
      state, count0, count1, finalized, digest, message := INITIAL, 0, 0, false, [], [];
    }

    /** The bit counter in update. */
    method AddToCount(length: nat)
      requires Counts(count0, count1, |message|) && length < U32
      modifies `count0, `count1
      ensures Counts(count0, count1, |message| + length)
    {
      CounterAdds(count0, count1, |message|, length);
      ghost var top := length / 0x2000_0000;
      count0 := (count0 + 8 * length % U32) % U32;
      if count0 < 8 * length % U32 {
        count1 := (count1 + 1) % U32;
      }
      count1 := (count1 + length / 0x2000_0000) % U32;
      CarryFirst(old(count1), top);
    }

    static lemma CarryFirst(hi: nat, top: nat)
      ensures ((hi + 1) % U32 + top) % U32 == (hi + 1 + top) % U32 && (hi + 0 + top) % U32 == (hi + top) % U32
    {
    }

    /** memcpy into the buffer. */
    method CopyIn(index: nat, bytes: seq<byte>)
      requires buffer.Length == 64 && index + |bytes| <= 64
      modifies buffer
      ensures buffer[..index + |bytes|] == old(buffer[..index]) + bytes
    {
      for k := 0 to |bytes|
        invariant buffer[..index] == old(buffer[..index]) && buffer[index..index + k] == bytes[..k]
      {
        buffer[index + k] := bytes[k];
      }
      assert buffer[..index + |bytes|] == buffer[..index] + buffer[index..index + |bytes|];
    }

    /** The loop of update over the whole blocks of the input from position first on. */
    method TransformBlocks(input: seq<byte>, first: nat, ghost last: nat, ghost before: seq<byte>) returns (i: nat)
      requires first <= last <= |input| < last + 64 <= U32 - 1 && (last - first) % 64 == 0
      requires (|before| + first) % 64 == 0 && state == Fold(transform, INITIAL, before + input[..first])
      modifies `state
      ensures i == last && (|before| + i) % 64 == 0 && state == Fold(transform, INITIAL, before + input[..i])
    {
      hide Fold;
      i := first;
      while (i + 64) % U32 <= |input|
        invariant first <= i <= last && (last - i) % 64 == 0
        invariant (|before| + i) % 64 == 0 && state == Fold(transform, INITIAL, before + input[..i])
        decreases last - i
      {
        NextPosition(i, last, |input|);
        BlockMore(before, input, i);
        FoldAppend(transform, INITIAL, before + input[..i], input[i..i + 64]);
        FoldOne(transform, state, input[i..i + 64]);
        state := transform(state, input[i..i + 64]);
        i := (i + 64) % U32;
      }
      if i < last {
        StopsAtLast(i, last);
      }
    }

    static lemma NextPosition(i: nat, last: nat, length: nat)
      requires i <= last <= length < last + 64 < U32 && (last - i) % 64 == 0 && (i + 64) % U32 <= length
      ensures (i + 64) % U32 == i + 64 <= last && (last - (i + 64)) % 64 == 0
    {
    }

    static lemma StopsAtLast(i: nat, last: nat)
      requires i < last && last + 64 < U32 && (last - i) % 64 == 0
      ensures (i + 64) % U32 <= last
    {
    }

    static lemma BlockMore(before: seq<byte>, input: seq<byte>, i: nat)
      requires i + 64 <= |input| && (|before| + i) % 64 == 0
      ensures before + input[..i + 64] == (before + input[..i]) + input[i..i + 64] && (|before| + (i + 64)) % 64 == 0
    {
      assert input[..i + 64] == input[..i] + input[i..i + 64];
    }

    /** The first block of update: what is buffered and the head of the input. */
    method FillBlock(index: nat, head: seq<byte>, ghost whole: seq<byte>, ghost held: seq<byte>)
      requires buffer.Length == 64 && index + |head| == 64 && |whole| % 64 == 0
      requires buffer[..index] == held && state == Fold(transform, INITIAL, whole)
      modifies `state, buffer
      ensures (|whole + held| + |head|) % 64 == 0 && state == Fold(transform, INITIAL, (whole + held) + head)
    {
      hide Fold;
      CopyIn(index, head);
      assert buffer[..] == buffer[..64] == held + head;
      HeadBlock(whole, held, head);
      FoldAppend(transform, INITIAL, whole, buffer[..]);
      FoldOne(transform, state, buffer[..]);
      state := transform(state, buffer[..]);
    }

    /** The transforming part of update: how far into the input it got. */
    method TransformAll(input: seq<byte>, index: nat) returns (i: nat)
      requires buffer.Length == 64 && Held(message, index) && index == |message| % 64
      requires |input| < U32 && LoopEnds(index, |input|) && 64 <= index + |input|
      modifies `state, buffer
      ensures 0 < i <= |input| < i + 64 && (|message| + i) % 64 == 0 && state == Fold(transform, INITIAL, message + input[..i])
    {
      hide Fold;
      ghost var whole, held := message[..|message| - index], buffer[..index];
      Cut(message, index);
      var first := 64 - index;
      FillBlock(index, input[..first], whole, held);
      ghost var last := LastPosition(index, |input|);
      LoopEndsIff(index, |input|);
      i := TransformBlocks(input, first, last, message);
    }

    /** update; `length` in the program has 32 bits. */
    method Update(input: seq<byte>)
      requires Running() && |input| < U32 && LoopEnds(|message| % 64, |input|)
      modifies `state, `count0, `count1, `message, buffer
      ensures Running() && message == old(message) + input
    {
      hide Fold, Counts;
      IndexOfCount(count0, count1, |message|);
      var index := count0 / 8 % 64;
      AddToCount(|input|);
      ghost var held := index;
      var i := 0;
      if |input| >= 64 - index {
        i := TransformAll(input, index);
        index := 0;
      }
      KeepRest(input, i, index, held);
    }

    /** The end of update: what filled no block stays in the buffer. */
    method KeepRest(input: seq<byte>, i: nat, index: nat, ghost held: nat)
      requires buffer.Length == 64 && held == |message| % 64 && i <= |input|
      requires if i == 0 then index == held && held + |input| < 64 && Held(message, held)
               else (index == 0 && |input| < i + 64 && (|message| + i) % 64 == 0
                     && state == Fold(transform, INITIAL, message + input[..i]))
      modifies `message, buffer
      ensures message == old(message) + input && Held(message, |message| % 64)
    {
      hide Fold, Held;
      ghost var m := message;
      if i == 0 {
        HeldBytes(m, held);
      }
      message := message + input;
      CopyIn(index, input[i..]);
      if i == 0 {
        assert input[0..] == input;
        KeptShort(m, input, held);
      } else {
        assert buffer[..|input| - i] == input[i..];
        KeptLong(m, input, i);
      }
    }

    lemma HeldBytes(m: seq<byte>, index: nat)
      requires buffer.Length == 64 && Held(m, index)
      ensures index <= |m| && buffer[..index] == m[|m| - index..] && (|m| - index) % 64 == 0
      ensures state == Fold(transform, INITIAL, m[..|m| - index])
    {
      hide Fold;
    }

    /** The input filled no block. */
    lemma KeptShort(m: seq<byte>, input: seq<byte>, held: nat)
      requires buffer.Length == 64 && held == |m| % 64 && held + |input| < 64 && (|m| - held) % 64 == 0
      requires buffer[..held + |input|] == m[|m| - held..] + input && state == Fold(transform, INITIAL, m[..|m| - held])
      ensures Held(m + input, |m + input| % 64)
    {
      hide Fold, Held;
      DivisionIsUnique(|m| + |input|, 64, |m| / 64, held + |input|);
      TailOf(m, input, held);
      MakeHeld(m + input, |m| - held, held + |input|, m[|m| - held..] + input, m[..|m| - held]);
    }

    /** Whole blocks were transformed up to position i of the input. */
    lemma KeptLong(m: seq<byte>, input: seq<byte>, i: nat)
      requires buffer.Length == 64 && i <= |input| < i + 64 && (|m| + i) % 64 == 0
      requires buffer[..|input| - i] == input[i..] && state == Fold(transform, INITIAL, m + input[..i])
      ensures Held(m + input, |m + input| % 64)
    {
      hide Fold, Held;
      DivisionIsUnique(|m| + |input|, 64, (|m| + i) / 64, |input| - i);
      CutAt(m, input, i);
      MakeHeld(m + input, |m| + i, |input| - i, input[i..], m + input[..i]);
    }

    static lemma Cut(m: seq<byte>, index: nat)
      requires index <= |m|
      ensures m == m[..|m| - index] + m[|m| - index..]
    {
    }

    static lemma HeadBlock(whole: seq<byte>, held: seq<byte>, head: seq<byte>)
      requires |held| + |head| == 64 && |whole| % 64 == 0
      ensures whole + (held + head) == (whole + held) + head && (|whole + held| + |head|) % 64 == 0
    {
    }

    static lemma TailOf(m: seq<byte>, input: seq<byte>, index: nat)
      requires index == |m| % 64
      ensures (m + input)[|m| - index..] == m[|m| - index..] + input && (m + input)[..|m| - index] == m[..|m| - index]
      ensures (|m| - index) % 64 == 0
    {
    }

    lemma MakeHeld(m: seq<byte>, at: nat, k: nat, tail: seq<byte>, whole: seq<byte>)
      requires |m| == at + k && k == |m| % 64 && at % 64 == 0 && buffer.Length == 64
      requires m[at..] == tail && m[..at] == whole && buffer[..k] == tail && state == Fold(transform, INITIAL, whole)
      ensures Held(m, |m| % 64)
    {
      hide Fold;
    }

    static lemma CutAt(m: seq<byte>, input: seq<byte>, i: nat)
      requires i <= |input|
      ensures (m + input)[|m| + i..] == input[i..] && (m + input)[..|m| + i] == m + input[..i]
    {
    }

    /** finalize: the digest of the padded message; a second call changes nothing. */
    method Finalize()
      requires !finalized ==> Running()
      modifies this, buffer
      ensures finalized && digest == (if old(finalized) then old(digest) else Digest(transform, old(message)))
    {
      hide Fold, Counts, LengthBytes;
      if finalized {
        return;
      }
      ghost var m := message;
      var bits := Encode(count0) + Encode(count1);
      BitsOfCount(count0, count1, |m|);
      IndexOfCount(count0, count1, |m|);
      var index := count0 / 8 % 64;
      var padLen := if index < 56 then 56 - index else 120 - index;
      var padding: seq<byte> := [0x80] + seq(padLen - 1, _ => 0);
      assert padding == Filler(|m|);
      Update(padding);
      Update(bits);
      AllWhole(m);
      digest := Encode(state.a) + Encode(state.b) + Encode(state.c) + Encode(state.d);
      count0, count1 := 0, 0;
      finalized := true;
    }

    static function Encode(word: nat): seq<byte> { Le4(word) }

    static lemma BitsOfCount(lo: nat, hi: nat, length: nat)
      requires Counts(lo, hi, length)
      ensures Encode(lo) + Encode(hi) == LengthBytes(length)
    {
      Le4OfMod(8 * length);
      Le4OfMod(8 * length / U32);
    }

    lemma AllWhole(m: seq<byte>)
      requires Running() && message == (m + Filler(|m|)) + LengthBytes(|m|)
      ensures state == Fold(transform, INITIAL, Padded(m))
    {
      hide Fold;
      assert message == Padded(m);
      assert message[..|message|] == message;
    }
  }

  lemma Le4OfMod(v: nat)
    ensures Le4(v % U32) == Le4(v)
  {
    GetOfLe4(v);
    LeOfGet4(Le4(v), 0);
    assert Le4(v)[0..4] == Le4(v);
  }
}
