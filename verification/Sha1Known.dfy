/** What the words and constants of SHA-1 mean bit by bit: the definitions that specification and program
    share. */
module Sha1Known {
  import opened LittleEndian
  import opened Sha1Block
  import opened Sha1Stream

  function BitOf(b: bv32, i: bv32): bv32
    requires i < 32
  {
    (b >> i) & 1
  }

  /** The bit of a word at position i. */
  function BitAt(x: Word, i: bv32): bv32
    requires i < 32
  {
    BitOf(Sha1Block.Bits(x), i)
  }

  function Moved(i: bv32, n: bv32): (j: bv32)
    ensures j < 32
  {
    (i + n) & 31
  }

  /** Rotation to the left moves the bit at i to i + n modulo 32. */
  lemma RolMovesBits(x: Word, i: bv32)
    requires i < 32
    ensures BitAt(Rol(x, 1), Moved(i, 1)) == BitAt(x, i)
    ensures BitAt(Rol(x, 5), Moved(i, 5)) == BitAt(x, i)
    ensures BitAt(Rol(x, 30), Moved(i, 30)) == BitAt(x, i)
  {
    hide BitOf, Moved, RolBits;
    var b := Sha1Block.Bits(x);
    BitsOfBits(RolBits(b, 1));
    BitsOfBits(RolBits(b, 5));
    BitsOfBits(RolBits(b, 30));
    Rotated1(b, i);
    Rotated5(b, i);
    Rotated30(b, i);
  }

  lemma Rotated1(b: bv32, i: bv32)
    requires i < 32
    ensures BitOf(RolBits(b, 1), Moved(i, 1)) == BitOf(b, i)
  {
  }

  lemma Rotated5(b: bv32, i: bv32)
    requires i < 32
    ensures BitOf(RolBits(b, 5), Moved(i, 5)) == BitOf(b, i)
  {
  }

  lemma Rotated30(b: bv32, i: bv32)
    requires i < 32
    ensures BitOf(RolBits(b, 30), Moved(i, 30)) == BitOf(b, i)
  {
  }

  // ---- the functions of the rounds, bit by bit ----

  function Majority(a: bv32, b: bv32, c: bv32): bv32 { if a == b then a else c }

  lemma BitOfAnd(p: bv32, q: bv32, i: bv32)
    requires i < 32
    ensures BitOf(AndBits(p, q), i) == BitOf(p, i) & BitOf(q, i)
  {
  }

  lemma BitOfXor(p: bv32, q: bv32, i: bv32)
    requires i < 32
    ensures BitOf(XorBits(p, q), i) == BitOf(p, i) ^ BitOf(q, i)
  {
  }

  lemma BitOfNot(p: bv32, i: bv32)
    requires i < 32
    ensures BitOf(NotBits(p), i) == 1 ^ BitOf(p, i) && (BitOf(p, i) == 0 || BitOf(p, i) == 1)
  {
  }

  lemma BitAtAnd(x: Word, y: Word, i: bv32)
    requires i < 32
    ensures BitAt(And(x, y), i) == BitAt(x, i) & BitAt(y, i)
  {
    hide BitOf, AndBits;
    BitsOfBits(AndBits(Sha1Block.Bits(x), Sha1Block.Bits(y)));
    BitOfAnd(Sha1Block.Bits(x), Sha1Block.Bits(y), i);
  }

  lemma BitAtXor(x: Word, y: Word, i: bv32)
    requires i < 32
    ensures BitAt(Xor(x, y), i) == BitAt(x, i) ^ BitAt(y, i)
  {
    hide BitOf, XorBits;
    BitsOfBits(XorBits(Sha1Block.Bits(x), Sha1Block.Bits(y)));
    BitOfXor(Sha1Block.Bits(x), Sha1Block.Bits(y), i);
  }

  lemma BitAtNot(x: Word, i: bv32)
    requires i < 32
    ensures BitAt(Not(x), i) == 1 ^ BitAt(x, i) && (BitAt(x, i) == 0 || BitAt(x, i) == 1)
  {
    hide BitOf, NotBits;
    BitsOfBits(NotBits(Sha1Block.Bits(x)));
    BitOfNot(Sha1Block.Bits(x), i);
  }

  predicate IsBit(a: bv32) { a == 0 || a == 1 }

  lemma OneBit(a: bv32, b: bv32, c: bv32)
    requires IsBit(a) && IsBit(b) && IsBit(c)
    ensures (a & b) ^ ((1 ^ a) & c) == if a == 1 then b else c
    ensures ((a & b) ^ (a & c)) ^ (b & c) == Majority(a, b, c)
  {
  }

  /** Ch selects, Maj votes, Parity adds. */
  lemma RoundFunctionsByBit(x: Word, y: Word, z: Word, i: bv32)
    requires i < 32
    ensures BitAt(Ch(x, y, z), i) == if BitAt(x, i) == 1 then BitAt(y, i) else BitAt(z, i)
    ensures BitAt(Maj(x, y, z), i) == Majority(BitAt(x, i), BitAt(y, i), BitAt(z, i))
    ensures BitAt(Parity(x, y, z), i) == (BitAt(x, i) ^ BitAt(y, i)) ^ BitAt(z, i)
  {
    hide BitAt, Majority, And, Xor, Not;
    BitAtNot(x, i);
    BitAtNot(y, i);
    BitAtNot(z, i);
    BitAtAnd(x, y, i);
    BitAtAnd(x, z, i);
    BitAtAnd(y, z, i);
    BitAtAnd(Not(x), z, i);
    BitAtXor(And(x, y), And(Not(x), z), i);
    BitAtXor(And(x, y), And(x, z), i);
    BitAtXor(Xor(And(x, y), And(x, z)), And(y, z), i);
    BitAtXor(x, y, i);
    BitAtXor(Xor(x, y), z, i);
    OneBit(BitAt(x, i), BitAt(y, i), BitAt(z, i));
  }

  // ---- the constants ----

  predicate Root(k: nat, n: nat) { k * k <= n * 0x1000_0000_0000_0000 < (k + 1) * (k + 1) }

  /** The round constants are the roots of 2, 3, 5 and 10 with thirty binary places, and the digest starts
      as bytes that count up, down, and 0xf0 down. */
  lemma ConstantsAreRoots()
    ensures Root(K1, 2) && Root(K2, 3) && Root(K3, 5) && Root(K4, 10)
    ensures Sha1Stream.DigestBytes(H0)
            == [0x67, 0x45, 0x23, 0x01, 0xef, 0xcd, 0xab, 0x89, 0x98, 0xba, 0xdc, 0xfe, 0x10, 0x32, 0x54, 0x76, 0xc3, 0xd2, 0xe1, 0xf0]
  {
  }
}
