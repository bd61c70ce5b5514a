/** Streaming SHA-1: whatever way a message is split over update calls, the digest is that of the
    padded whole (sections 5.1.1 and 6.1 of FIPS 180-4). */
module Sha1Stream {
  import opened LittleEndian
  import opened Sha1Block

  const BLOCK_BYTES: nat := 64

  // ---- the standard ----

  const H0: Vars := Vars(0x6745_2301, 0xefcd_ab89, 0x98ba_dcfe, 0x1032_5476, 0xc3d2_e1f0)

  /** A big-endian word. */
  function BeWord(b0: byte, b1: byte, b2: byte, b3: byte): Word {
    b0 * 0x100_0000 + b1 * 0x1_0000 + b2 * 0x100 + b3
  }

  function BlockWords(b: seq<byte>): (words: seq<Word>)
    requires |b| == 64
    ensures |words| == 16
  {
    seq(16, i requires 0 <= i < 16 => BeWord(b[4 * i], b[4 * i + 1], b[4 * i + 2], b[4 * i + 3]))
  }

  function Fold(d: Vars, m: seq<byte>): Vars
    requires |m| % 64 == 0
    decreases |m|
  {
    if |m| == 0 then d else
      OneBlockLess(|m|);
      Fold(Compress(d, BlockWords(m[..64])), m[64..])
  }

  lemma OneBlockLess(n: nat)
    requires n % 64 == 0 && n > 0
    ensures n >= 64 && (n - 64) % 64 == 0
  {
  }

  function Zeros(n: nat): (z: seq<byte>)
    ensures |z| == n && forall i :: 0 <= i < n ==> z[i] == 0
  {
    seq(n, _ => 0)
  }

  /** The byte of w that has b bytes before it, most significant first. */
  function ByteOf(w: Word, b: nat): byte
    requires b < 4
  {
    if b == 0 then w / 0x100_0000 else if b == 1 then w / 0x1_0000 % 0x100 else if b == 2 then w / 0x100 % 0x100 else w % 0x100
  }

  function Be4(w: Word): (s: seq<byte>)
    ensures |s| == 4
  {
    [ByteOf(w, 0), ByteOf(w, 1), ByteOf(w, 2), ByteOf(w, 3)]
  }

  /** The high and the low half of a 64-bit number. */
  function High(n: nat): Word { n / U32 % U32 }
  function Low(n: nat): Word { n % U32 }

  /** How many zero bytes follow the 1 bit: up to 56 bytes modulo 64. */
  function PadZeros(length: nat): nat {
    if length % 64 <= 55 then 55 - length % 64 else 119 - length % 64
  }

  /** A 1 bit, zeros, and the length in bits as a 64-bit number. */
  function Padding(length: nat): (p: seq<byte>)
    ensures (length + |p|) % 64 == 0
  {
    WholeBlocks(length);
    [0x80] + Zeros(PadZeros(length)) + Be4(High(8 * length)) + Be4(Low(8 * length))
  }

  lemma WholeBlocks(length: nat)
    ensures (length + 9 + PadZeros(length)) % 64 == 0
  {
  }

  function DigestBytes(d: Vars): seq<byte> { Be4(d.a) + Be4(d.b) + Be4(d.c) + Be4(d.d) + Be4(d.e) }

  function Digest(m: seq<byte>): seq<byte> { DigestBytes(Fold(H0, m + Padding(|m|))) }

  lemma {:induction false} FoldAppend(d: Vars, a: seq<byte>, b: seq<byte>)
    requires |a| % 64 == 0 && |b| % 64 == 0
    ensures Fold(d, a + b) == Fold(Fold(d, a), b)
    decreases |a|
  {
    hide Compress, BlockWords;
    if |a| == 0 {
      assert a + b == b;
    } else {
      assert (a + b)[..64] == a[..64] && (a + b)[64..] == a[64..] + b;
      FoldAppend(Compress(d, BlockWords(a[..64])), a[64..], b);
    }
  }

  lemma FoldOne(d: Vars, b: seq<byte>)
    requires |b| == 64
    ensures Fold(d, b) == Compress(d, BlockWords(b))
  {
    assert b[..64] == b && b[64..] == [];
  }

  lemma WordOfBytes(w: Word)
    ensures BeWord(ByteOf(w, 0), ByteOf(w, 1), ByteOf(w, 2), ByteOf(w, 3)) == w
  {
    var h := w / 0x1_0000;
    assert w / 0x100_0000 == h / 0x100;
    assert w % 0x1_0000 == w / 0x100 % 0x100 * 0x100 + w % 0x100;
  }

  /** The last two words of a block whose first 56 bytes are x. */
  lemma LengthWords(x: seq<byte>, n: nat)
    requires |x| == 56
    ensures BlockWords(x + Be4(High(n)) + Be4(Low(n))) == BlockWords(x + Zeros(8))[14 := High(n)][15 := Low(n)]
  {
    hide High, Low, ByteOf;
    WordOfBytes(High(n));
    WordOfBytes(Low(n));
    hide BeWord;
  }

  // ---- the program ----

  class Sha1 {
    const digest: array<Word>
    var buffer: seq<byte>
    var transforms: nat
    ghost var message: seq<byte>

    /** All whole blocks so far are in the digest, and the buffer holds the rest. */
    ghost predicate Valid()
      reads this, digest
    {
      digest.Length == 5 && |buffer| < BLOCK_BYTES && Buffered()
    }

    /** The buffer holds what is not in the digest, be it a full block. */
    ghost predicate Buffered()
      reads this, digest
      requires digest.Length == 5
    {
      && |message| == transforms * 64 + |buffer| && message[transforms * 64..] == buffer
      && DigestOf(digest) == Fold(H0, message[..transforms * 64])
    }

    constructor ()
      ensures Valid() && message == [] && fresh(digest)
    {
      digest := new Word[5];
      buffer, transforms, message := [], 0, [];
      new;
      Reset();
    }

    method Reset()
      requires digest.Length == 5
      modifies this, digest
      ensures Valid() && message == []
    {
      digest[0], digest[1], digest[2], digest[3], digest[4] := H0.a, H0.b, H0.c, H0.d, H0.e;
      buffer := [];
      transforms := 0;
      message := [];
    }

    /** buffer_to_block and transform. */
    method HashBlock(bytes: seq<byte>)
      requires digest.Length == 5 && |bytes| == 64
      modifies `transforms, digest
      ensures DigestOf(digest) == Compress(old(DigestOf(digest)), BlockWords(bytes)) && transforms == old(transforms) + 1
    {
      hide Compress;
      var block := BufferToBlock(bytes);
      TransformBlock(digest, block);
      transforms := transforms + 1;
    }

    static method BufferToBlock(bytes: seq<byte>) returns (block: array<Word>)
      requires |bytes| == 64
      ensures fresh(block) && block.Length == 16 && block[..] == BlockWords(bytes)
    {
      hide BeWord;
      block := new Word[16];
      for i := 0 to 16
        invariant forall k :: 0 <= k < i ==> block[k] == BeWord(bytes[4 * k], bytes[4 * k + 1], bytes[4 * k + 2], bytes[4 * k + 3])
      {
        block[i] := BeWord(bytes[4 * i], bytes[4 * i + 1], bytes[4 * i + 2], bytes[4 * i + 3]);
      }
    }

    /** Bytes that fit into the buffer. */
    method Fill(bytes: seq<byte>)
      requires Valid() && |buffer| + |bytes| <= BLOCK_BYTES
      modifies `buffer, `message
      ensures message == old(message) + bytes && buffer == old(buffer) + bytes && Buffered()
    {
      hide Fold, DigestOf;
      FillSplit(message, bytes, transforms * 64);
      message := message + bytes;
      buffer := buffer + bytes;
    }

    static lemma FillSplit(m: seq<byte>, bytes: seq<byte>, k: nat)
      requires k <= |m|
      ensures (m + bytes)[..k] == m[..k] && (m + bytes)[k..] == m[k..] + bytes
    {
    }

    /** A full buffer goes into the digest. */
    method Drain()
      requires digest.Length == 5 && |buffer| == BLOCK_BYTES && Buffered()
      modifies this, digest
      ensures Valid() && message == old(message) && buffer == []
    {
      hide Fold, Compress, BlockWords;
      assert message == message[..transforms * 64] + buffer;
      FoldAppend(H0, message[..transforms * 64], buffer);
      FoldOne(Fold(H0, message[..transforms * 64]), buffer);
      HashBlock(buffer);
      buffer := [];
      assert message[..transforms * 64] == message;
    }

    /** update. */
    method Update(s: seq<byte>)
      requires Valid()
      modifies this, digest
      ensures Valid() && message == old(message) + s
    {
      hide Fold, Compress, BlockWords;
      var rest := s;
      assert old(message) + s[..0] == old(message);
      while true
        invariant Valid() && |rest| <= |s| && rest == s[|s| - |rest|..] && message == old(message) + s[..|s| - |rest|]
        decreases |rest|
      {
        var count := if BLOCK_BYTES - |buffer| < |rest| then BLOCK_BYTES - |buffer| else |rest|;
        Pieces(old(message), s, |s| - |rest|, count);
        Fill(rest[..count]);
        rest := rest[count..];
        if |buffer| != BLOCK_BYTES {
          assert s[..|s|] == s;
          return;
        }
        Drain();
      }
    }

    static lemma Pieces(m: seq<byte>, s: seq<byte>, taken: nat, count: nat)
      requires taken + count <= |s|
      ensures (m + s[..taken]) + s[taken..][..count] == m + s[..taken + count] && s[taken..][count..] == s[taken + count..]
    {
    }

    /** final_bin: the digest of the whole message; the object is ready for the next one. */
    method FinalBin() returns (result: seq<byte>)
      requires Valid()
      modifies this, digest
      ensures result == Digest(old(message)) && Valid() && message == []
    {
      hide Fold, Compress, BlockWords, DigestBytes, High, Low, Be4;
      ghost var whole, d0 := message[..transforms * 64], DigestOf(digest);
      // uint64_t in the program: High and Low keep 64 bits
      var totalBits := (transforms * BLOCK_BYTES + |buffer|) * 8;
      var tail := buffer + [0x80];
      var origSize := |tail|;
      tail := tail + Zeros(BLOCK_BYTES - origSize);
      var block := BufferToBlock(tail);
      if origSize > BLOCK_BYTES - 8 {
        TransformBlock(digest, block);
        transforms := transforms + 1;
        for i := 0 to 14
          invariant forall k :: 0 <= k < i ==> block[k] == 0
          invariant DigestOf(digest) == Compress(d0, BlockWords(tail))
        {
          block[i] := 0;
        }
      }
      block[15] := Low(totalBits);
      block[14] := High(totalBits);
      FinalBlocks(d0, old(buffer), |old(message)|, block[..]);
      TransformBlock(digest, block);
      assert DigestOf(digest) == Fold(H0, old(message) + Padding(|old(message)|)) by {
        assert old(message) == whole + old(buffer);
        PaddingOfTail(old(message), whole, old(buffer));
        FoldAppend(H0, whole, old(buffer) + Padding(|old(message)|));
      }
      result := Bytes();
      Reset();
    }

    /** The digest as bytes, most significant first. */
    method Bytes() returns (result: seq<byte>)
      requires digest.Length == 5
      ensures result == DigestBytes(DigestOf(digest))
    {
      result := [];
      for i := 0 to 5
        invariant |result| == 4 * i
        invariant forall k :: 0 <= k < i ==> result[4 * k..4 * k + 4] == Be4(digest[k])
      {
        ghost var before := result;
        for b := 0 to 4
          invariant result == before + Be4(digest[i])[..b]
        {
          result := result + [ByteOf(digest[i], b)];
        }
        assert result[4 * i..4 * i + 4] == Be4(digest[i]);
        assert forall k :: 0 <= k < i ==> result[4 * k..4 * k + 4] == before[4 * k..4 * k + 4];
      }
      hide Be4;
      Join(result, Be4(digest[0]), Be4(digest[1]), Be4(digest[2]), Be4(digest[3]), Be4(digest[4]));
    }

    static lemma Join(s: seq<byte>, a: seq<byte>, b: seq<byte>, c: seq<byte>, d: seq<byte>, e: seq<byte>)
      requires |s| == 20 && s[0..4] == a && s[4..8] == b && s[8..12] == c && s[12..16] == d && s[16..20] == e
      ensures s == a + b + c + d + e
    {
    }
  }

  lemma PaddingOfTail(m: seq<byte>, whole: seq<byte>, rest: seq<byte>)
    requires m == whole + rest && |whole| % 64 == 0
    ensures (|rest| + |Padding(|m|)|) % 64 == 0 && whole + (rest + Padding(|m|)) == m + Padding(|m|)
  {
    var p := Padding(|m|);
    hide Padding;
    LessWhole(|whole|, |rest| + |p|);
    Regroup(whole, rest, p);
  }

  lemma LessWhole(a: nat, b: nat)
    requires a % 64 == 0 && (a + b) % 64 == 0
    ensures b % 64 == 0
  {
  }

  lemma Regroup<X>(a: seq<X>, b: seq<X>, c: seq<X>)
    ensures a + (b + c) == (a + b) + c
  {
  }

  /** The one or two last blocks that final_bin builds are the rest of the message with its padding. */
  lemma FinalBlocks(d: Vars, rest: seq<byte>, length: nat, block: seq<Word>)
    requires |rest| == length % 64 && |block| == 16
    requires var tail, bits := rest + [0x80] + Zeros(63 - |rest|), 8 * length;
             block == (if |rest| >= 56 then seq(16, _ => 0) else BlockWords(tail))[14 := High(bits)][15 := Low(bits)]
    ensures var tail := rest + [0x80] + Zeros(63 - |rest|);
            (|rest| + |Padding(length)|) % 64 == 0
            && Fold(d, rest + Padding(length)) == Compress(if |rest| >= 56 then Compress(d, BlockWords(tail)) else d, block)
  {
    hide Fold, Compress, BlockWords, High, Low, Be4, Zeros;
    var n, bits, k := |rest|, 8 * length, PadZeros(length);
    var hi, lo := Be4(High(bits)), Be4(Low(bits));
    var tail := rest + [0x80] + Zeros(63 - n);
    if n <= 55 {
      var x := rest + [0x80] + Zeros(55 - n);
      ZerosJoin(55 - n, 8);
      Regroup(rest + [0x80], Zeros(55 - n), Zeros(8));
      LengthWords(x, bits);
      assert rest + Padding(length) == x + hi + lo by { Join4(rest, [0x80], Zeros(k), hi, lo); }
      FoldOne(d, x + hi + lo);
    } else {
      var last := Zeros(56) + hi + lo;
      ZerosJoin(63 - n, 56);
      LengthWords(Zeros(56), bits);
      ZeroBlock();
      assert rest + Padding(length) == tail + last by {
        Join4(rest, [0x80], Zeros(k), hi, lo);
        Join5(rest + [0x80], Zeros(63 - n), Zeros(56), hi, lo);
      }
      FoldAppend(d, tail, last);
      FoldOne(d, tail);
      FoldOne(Compress(d, BlockWords(tail)), last);
    }
  }

  lemma Join4<X>(r: seq<X>, a: seq<X>, b: seq<X>, c: seq<X>, e: seq<X>)
    ensures r + (a + b + c + e) == r + a + b + c + e
  {
  }

  lemma Join5<X>(r: seq<X>, a: seq<X>, b: seq<X>, c: seq<X>, e: seq<X>)
    ensures r + (a + b) + c + e == (r + a) + (b + c + e)
  {
  }

  lemma ZerosJoin(m: nat, n: nat)
    ensures Zeros(m) + Zeros(n) == Zeros(m + n)
  {
  }

  lemma ZeroBlock()
    ensures BlockWords(Zeros(56) + Zeros(8)) == seq(16, _ => 0)
  {
    assert Zeros(56) + Zeros(8) == Zeros(64);
  }
}
