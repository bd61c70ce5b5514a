/** The SHA-1 compression of one block: sections 4 and 6.1 of FIPS 180-4, and the program's unrolled
    form over a circular schedule of 16 words, in which the working variables change roles instead
    of values. */
module Sha1Block {
  import opened Arithmetic
  import opened LittleEndian

  /** A uint32_t. */
  type Word = n: nat | n < 0x1_0000_0000

  function Bits(x: Word): bv32 { x as bv32 }
  function OfBits(b: bv32): Word { b as nat }

  function XorBits(p: bv32, q: bv32): bv32 { p ^ q }
  function AndBits(p: bv32, q: bv32): bv32 { p & q }
  function OrBits(p: bv32, q: bv32): bv32 { p | q }
  function NotBits(p: bv32): bv32 { !p }

  function Plus(x: Word, y: Word): Word { (x + y) % U32 }
  function Xor(x: Word, y: Word): Word { OfBits(XorBits(Bits(x), Bits(y))) }
  function And(x: Word, y: Word): Word { OfBits(AndBits(Bits(x), Bits(y))) }
  function Or(x: Word, y: Word): Word { OfBits(OrBits(Bits(x), Bits(y))) }
  function Not(x: Word): Word { OfBits(NotBits(Bits(x))) }

  function Rol(x: Word, bits: nat): Word
    requires 0 < bits < 32
  {
    OfBits(RolBits(Bits(x), bits))
  }

  function RolBits(b: bv32, bits: nat): bv32
    requires 0 < bits < 32
  {
    (b << bits) | (b >> (32 - bits))
  }

  // ---- the standard ----

  function Ch(x: Word, y: Word, z: Word): Word { Xor(And(x, y), And(Not(x), z)) }
  function Parity(x: Word, y: Word, z: Word): Word { Xor(Xor(x, y), z) }
  function Maj(x: Word, y: Word, z: Word): Word { Xor(Xor(And(x, y), And(x, z)), And(y, z)) }

  function F(t: nat, x: Word, y: Word, z: Word): Word {
    if t < 20 then Ch(x, y, z) else if t < 40 then Parity(x, y, z) else if t < 60 then Maj(x, y, z) else Parity(x, y, z)
  }

  const K1: Word := 0x5a82_7999
  const K2: Word := 0x6ed9_eba1
  const K3: Word := 0x8f1b_bcdc
  const K4: Word := 0xca62_c1d6

  function K(t: nat): Word { if t < 20 then K1 else if t < 40 then K2 else if t < 60 then K3 else K4 }

  /** The message schedule (the standard uses its first 80 words). */
  function W(block: seq<Word>, t: nat): Word
    requires |block| == 16
  {
    if t < 16 then block[t]
    else Rol(Xor(Xor(Xor(W(block, t - 3), W(block, t - 8)), W(block, t - 14)), W(block, t - 16)), 1)
  }

  datatype Vars = Vars(a: Word, b: Word, c: Word, d: Word, e: Word)

  function Round(s: Vars, t: nat, w: Word): Vars {
    Vars(Plus(Plus(Plus(Plus(Rol(s.a, 5), F(t, s.b, s.c, s.d)), s.e), K(t)), w), s.a, Rol(s.b, 30), s.c, s.d)
  }

  /** The working variables after t rounds. */
  function Rounds(block: seq<Word>, s: Vars, t: nat): Vars
    requires |block| == 16
  {
    if t == 0 then s else Round(Rounds(block, s, t - 1), t - 1, W(block, t - 1))
  }

  function Add(x: Vars, y: Vars): Vars {
    Vars(Plus(x.a, y.a), Plus(x.b, y.b), Plus(x.c, y.c), Plus(x.d, y.d), Plus(x.e, y.e))
  }

  function Compress(digest: Vars, block: seq<Word>): Vars
    requires |block| == 16
  {
    Add(digest, Rounds(block, digest, 80))
  }

  // ---- the circular schedule ----

  /** Before round t each of the last 16 schedule words is in the slot of its number. */
  ghost predicate Circular(slots: seq<Word>, block: seq<Word>, t: nat)
    requires |block| == 16
  {
    && |slots| == 16 && (t <= 16 ==> slots == block)
    && (t >= 16 ==> forall u | t - 16 <= u < t :: slots[u % 16] == W(block, u))
  }

  lemma SlotsOf(t: nat)
    requires 16 <= t
    ensures var i := t % 16;
            (t - 3) % 16 == (i + 13) % 16 && (t - 8) % 16 == (i + 8) % 16 && (t - 14) % 16 == (i + 2) % 16 && (t - 16) % 16 == i
  {
    SlotBack(t, 3);
    SlotBack(t, 8);
    SlotBack(t, 14);
    SlotBack(t, 16);
  }

  lemma SlotBack(t: nat, b: nat)
    requires 0 < b <= 16 <= t
    ensures (t - b) % 16 == (t % 16 + (16 - b)) % 16
  {
    var q, i := t / 16, t % 16;
    if i >= b {
      DivisionIsUnique(t - b, 16, q, i - b);
      DivisionIsUnique(i + (16 - b), 16, 1, i - b);
    } else {
      DivisionIsUnique(t - b, 16, q - 1, i + 16 - b);
      DivisionIsUnique(i + (16 - b), 16, 0, i + 16 - b);
    }
  }

  lemma OtherSlot(u: nat, t: nat)
    requires u < t < u + 16
    ensures u % 16 != t % 16
  {
  }

  /** The word that R1 to R4 compute is the next one of the schedule. */
  lemma NextSlot(slots: seq<Word>, block: seq<Word>, t: nat)
    requires |block| == 16 && Circular(slots, block, t) && 16 <= t
    ensures Blk(slots, t % 16) == W(block, t)
  {
    hide Rol, Xor;
    SlotsOf(t);
    assert slots[(t - 3) % 16] == W(block, t - 3) && slots[(t - 8) % 16] == W(block, t - 8);
    assert slots[(t - 14) % 16] == W(block, t - 14) && slots[(t - 16) % 16] == W(block, t - 16);
  }

  function Blk(slots: seq<Word>, i: nat): Word
    requires |slots| == 16 && i < 16
  {
    Rol(Xor(Xor(Xor(slots[(i + 13) % 16], slots[(i + 8) % 16]), slots[(i + 2) % 16]), slots[i]), 1)
  }

  lemma StoreSlot(slots: seq<Word>, block: seq<Word>, t: nat)
    requires |block| == 16 && Circular(slots, block, t) && 16 <= t
    ensures Circular(slots[t % 16 := W(block, t)], block, t + 1)
  {
    hide W;
    var slots' := slots[t % 16 := W(block, t)];
    forall u | t - 15 <= u < t + 1 ensures slots'[u % 16] == W(block, u) {
      if u < t {
        OtherSlot(u, t);
      }
    }
  }

  lemma KeepSlots(slots: seq<Word>, block: seq<Word>, t: nat)
    requires |block| == 16 && Circular(slots, block, t) && t < 16
    ensures Circular(slots, block, t + 1) && slots[t] == W(block, t)
  {
    hide Rol, Xor;
    assert forall u | 0 <= u < 16 :: u % 16 == u && W(block, u) == block[u];
  }

  lemma BitsOfBits(b: bv32)
    ensures Bits(OfBits(b)) == b
  {
  }

  lemma ChBits(p: bv32, q: bv32, r: bv32)
    ensures XorBits(AndBits(p, XorBits(q, r)), r) == XorBits(AndBits(p, q), AndBits(NotBits(p), r))
  {
  }

  lemma ChIsMux(x: Word, y: Word, z: Word)
    ensures Xor(And(x, Xor(y, z)), z) == Ch(x, y, z)
  {
    hide Bits, OfBits, XorBits, AndBits, NotBits;
    var p, q, r := Bits(x), Bits(y), Bits(z);
    BitsOfBits(XorBits(q, r));
    BitsOfBits(AndBits(p, XorBits(q, r)));
    BitsOfBits(AndBits(p, q));
    BitsOfBits(NotBits(p));
    BitsOfBits(AndBits(NotBits(p), r));
    ChBits(p, q, r);
  }

  lemma MajBits(p: bv32, q: bv32, r: bv32)
    ensures OrBits(AndBits(OrBits(p, q), r), AndBits(p, q)) == XorBits(XorBits(AndBits(p, q), AndBits(p, r)), AndBits(q, r))
  {
    var pq, pr, qr, poq := AndBits(p, q), AndBits(p, r), AndBits(q, r), OrBits(p, q);
    assert AndBits(poq, r) == pr | qr by { Distribute(p, q, r); }
    Agree(pq, pr, qr, p, q, r);
    hide AndBits, OrBits, XorBits;
  }

  lemma Distribute(p: bv32, q: bv32, r: bv32)
    ensures AndBits(OrBits(p, q), r) == AndBits(p, r) | AndBits(q, r)
  {
  }

  lemma Agree(pq: bv32, pr: bv32, qr: bv32, p: bv32, q: bv32, r: bv32)
    requires pq == p & q && pr == p & r && qr == q & r
    ensures OrBits(pr | qr, pq) == XorBits(XorBits(pq, pr), qr)
  {
  }

  lemma MajIsOr(x: Word, y: Word, z: Word)
    ensures Or(And(Or(x, y), z), And(x, y)) == Maj(x, y, z)
  {
    hide Bits, OfBits, XorBits, AndBits, OrBits;
    var p, q, r := Bits(x), Bits(y), Bits(z);
    BitsOfBits(OrBits(p, q));
    BitsOfBits(AndBits(OrBits(p, q), r));
    BitsOfBits(AndBits(p, q));
    BitsOfBits(AndBits(p, r));
    BitsOfBits(AndBits(q, r));
    BitsOfBits(XorBits(AndBits(p, q), AndBits(p, r)));
    MajBits(p, q, r);
  }

  lemma Associative(x: Word, y: Word, z: Word)
    ensures Plus(Plus(x, y), z) == Plus(x, Plus(y, z))
  {
  }

  lemma Commutative(x: Word, y: Word)
    ensures Plus(x, y) == Plus(y, x)
  {
  }

  /** The program adds up in another order. */
  lemma Sum(f: Word, m: Word, k: Word, r: Word, z: Word)
    ensures Plus(z, Plus(Plus(Plus(f, m), k), r)) == Plus(Plus(Plus(Plus(r, f), z), k), m)
  {
    hide Plus;
    var rf, km := Plus(r, f), Plus(k, m);
    Commutative(Plus(Plus(f, m), k), r);
    Associative(f, m, k);
    Commutative(m, k);
    Associative(r, f, km);
    Commutative(z, Plus(rf, km));
    Associative(rf, km, z);
    Commutative(km, z);
    Associative(rf, z, km);
    Associative(Plus(rf, z), k, m);
  }

  // ---- the program ----

  /** The state of one call of transform: the block it overwrites, and what it started from. */
  class Transform {
    const block: array<Word>
    ghost const message: seq<Word>
    ghost const start: Vars
    ghost var t: nat

    constructor (block: array<Word>, ghost start: Vars)
      requires block.Length == 16
      ensures this.block == block && message == block[..] && this.start == start && t == 0 && Valid()
      ensures At(start.a, start.b, start.c, start.d, start.e)
    {
      this.block := block;
      this.message := block[..];
      this.start := start;
      t := 0;
    }

    ghost predicate Valid()
      reads this, block
    {
      block.Length == 16 == |message| && Circular(block[..], message, t)
    }

    /** Before round t the program's variables hold the standard's a to e, in this order. */
    ghost predicate At(v: Word, w: Word, x: Word, y: Word, z: Word)
      reads this
      requires |message| == 16
    {
      Rounds(message, start, t) == Vars(v, w, x, y, z)
    }

    /** A round in the program's roles: the fifth variable receives the new value, the second one is
        rotated, and every variable moves on by one role. */
    lemma Turn(v: Word, w: Word, x: Word, y: Word, z: Word, f: Word, k: Word, m: Word)
      requires |message| == 16 && At(v, w, x, y, z) && f == F(t, w, x, y) && k == K(t) && m == W(message, t)
      ensures Rounds(message, start, t + 1) == Vars(Plus(z, Plus(Plus(Plus(f, m), k), Rol(v, 5))), v, Rol(w, 30), x, y)
    {
      Sum(f, m, k, Rol(v, 5), z);
      hide W, F, K, Rol, Plus;
    }

    method R0(v: Word, w: Word, x: Word, y: Word, z: Word, i: nat) returns (w': Word, z': Word)
      requires Valid() && At(v, w, x, y, z) && t < 16 && i == t
      modifies this`t
      ensures Valid() && t == old(t) + 1 && At(z', v, w', x, y)
    {
      hide W, Rol, Rounds, Circular, Ch, Parity, Maj, Plus, Xor, And;
      ChIsMux(w, x, y);
      KeepSlots(block[..], message, t);
      Turn(v, w, x, y, z, Ch(w, x, y), K1, block[i]);
      z' := Plus(z, Plus(Plus(Plus(Xor(And(w, Xor(x, y)), y), block[i]), K1), Rol(v, 5)));
      w' := Rol(w, 30);
      t := t + 1;
    }

    /** What R1 to R4 do first: the next schedule word takes the place of the oldest. */
    method Extend(i: nat)
      requires Valid() && 16 <= t && i == t % 16
      modifies block
      ensures block.Length == 16 && Circular(block[..], message, t + 1) && block[i] == W(message, t)
    {
      hide W, Rol, Circular, Xor;
      ghost var slots := block[..];
      NextSlot(slots, message, t);
      StoreSlot(slots, message, t);
      block[i] := Rol(Xor(Xor(Xor(block[(i + 13) % 16], block[(i + 8) % 16]), block[(i + 2) % 16]), block[i]), 1);
      assert block[..] == slots[i := W(message, t)];
    }

    method R1(v: Word, w: Word, x: Word, y: Word, z: Word, i: nat) returns (w': Word, z': Word)
      requires Valid() && At(v, w, x, y, z) && 16 <= t < 20 && i < 16 && (t == 16 + i || t == 32 + i)
      modifies this`t, block
      ensures Valid() && t == old(t) + 1 && At(z', v, w', x, y)
    {
      hide W, Rol, Rounds, Circular, Ch, Maj, Plus, Xor, And, Or;
      ChIsMux(w, x, y);
      Extend(i);
      Turn(v, w, x, y, z, Ch(w, x, y), K1, block[i]);
      z' := Plus(z, Plus(Plus(Plus(Xor(And(w, Xor(x, y)), y), block[i]), K1), Rol(v, 5)));
      w' := Rol(w, 30);
      t := t + 1;
    }

    method R2(v: Word, w: Word, x: Word, y: Word, z: Word, i: nat) returns (w': Word, z': Word)
      requires Valid() && At(v, w, x, y, z) && 20 <= t < 40 && i < 16 && (t == 16 + i || t == 32 + i)
      modifies this`t, block
      ensures Valid() && t == old(t) + 1 && At(z', v, w', x, y)
    {
      hide W, Rol, Rounds, Circular, Ch, Maj, Plus, Xor, And, Or;
      Extend(i);
      Turn(v, w, x, y, z, Parity(w, x, y), K2, block[i]);
      z' := Plus(z, Plus(Plus(Plus(Xor(Xor(w, x), y), block[i]), K2), Rol(v, 5)));
      w' := Rol(w, 30);
      t := t + 1;
    }

    method R3(v: Word, w: Word, x: Word, y: Word, z: Word, i: nat) returns (w': Word, z': Word)
      requires Valid() && At(v, w, x, y, z) && 40 <= t < 60 && i < 16 && (t == 32 + i || t == 48 + i)
      modifies this`t, block
      ensures Valid() && t == old(t) + 1 && At(z', v, w', x, y)
    {
      hide W, Rol, Rounds, Circular, Ch, Maj, Plus, Xor, And, Or;
      MajIsOr(w, x, y);
      Extend(i);
      Turn(v, w, x, y, z, Maj(w, x, y), K3, block[i]);
      z' := Plus(z, Plus(Plus(Plus(Or(And(Or(w, x), y), And(w, x)), block[i]), K3), Rol(v, 5)));
      w' := Rol(w, 30);
      t := t + 1;
    }

    method R4(v: Word, w: Word, x: Word, y: Word, z: Word, i: nat) returns (w': Word, z': Word)
      requires Valid() && At(v, w, x, y, z) && 60 <= t < 80 && i < 16 && (t == 48 + i || t == 64 + i)
      modifies this`t, block
      ensures Valid() && t == old(t) + 1 && At(z', v, w', x, y)
    {
      hide W, Rol, Rounds, Circular, Ch, Maj, Plus, Xor, And, Or;
      Extend(i);
      Turn(v, w, x, y, z, Parity(w, x, y), K4, block[i]);
      z' := Plus(z, Plus(Plus(Plus(Xor(Xor(w, x), y), block[i]), K4), Rol(v, 5)));
      w' := Rol(w, 30);
      t := t + 1;
    }

    method Operations1(a0: Word, b0: Word, c0: Word, d0: Word, e0: Word) returns (a: Word, b: Word, c: Word, d: Word, e: Word)
      requires Valid() && t == 0 && At(a0, b0, c0, d0, e0)
      modifies this`t, block
      ensures Valid() && t == 20 && At(a, b, c, d, e)
    {
      hide W, Rounds, Circular, At;
      a, b, c, d, e := a0, b0, c0, d0, e0;
      b, e := R0(a, b, c, d, e, 0);
      a, d := R0(e, a, b, c, d, 1);
      e, c := R0(d, e, a, b, c, 2);
      d, b := R0(c, d, e, a, b, 3);
      c, a := R0(b, c, d, e, a, 4);
      b, e := R0(a, b, c, d, e, 5);
      a, d := R0(e, a, b, c, d, 6);
      e, c := R0(d, e, a, b, c, 7);
      d, b := R0(c, d, e, a, b, 8);
      c, a := R0(b, c, d, e, a, 9);
      b, e := R0(a, b, c, d, e, 10);
      a, d := R0(e, a, b, c, d, 11);
      e, c := R0(d, e, a, b, c, 12);
      d, b := R0(c, d, e, a, b, 13);
      c, a := R0(b, c, d, e, a, 14);
      b, e := R0(a, b, c, d, e, 15);
      a, d := R1(e, a, b, c, d, 0);
      e, c := R1(d, e, a, b, c, 1);
      d, b := R1(c, d, e, a, b, 2);
      c, a := R1(b, c, d, e, a, 3);
    }

    method Operations2(a0: Word, b0: Word, c0: Word, d0: Word, e0: Word) returns (a: Word, b: Word, c: Word, d: Word, e: Word)
      requires Valid() && t == 20 && At(a0, b0, c0, d0, e0)
      modifies this`t, block
      ensures Valid() && t == 40 && At(a, b, c, d, e)
    {
      hide W, Rounds, Circular, At;
      a, b, c, d, e := a0, b0, c0, d0, e0;
      b, e := R2(a, b, c, d, e, 4);
      a, d := R2(e, a, b, c, d, 5);
      e, c := R2(d, e, a, b, c, 6);
      d, b := R2(c, d, e, a, b, 7);
      c, a := R2(b, c, d, e, a, 8);
      b, e := R2(a, b, c, d, e, 9);
      a, d := R2(e, a, b, c, d, 10);
      e, c := R2(d, e, a, b, c, 11);
      d, b := R2(c, d, e, a, b, 12);
      c, a := R2(b, c, d, e, a, 13);
      b, e := R2(a, b, c, d, e, 14);
      a, d := R2(e, a, b, c, d, 15);
      e, c := R2(d, e, a, b, c, 0);
      d, b := R2(c, d, e, a, b, 1);
      c, a := R2(b, c, d, e, a, 2);
      b, e := R2(a, b, c, d, e, 3);
      a, d := R2(e, a, b, c, d, 4);
      e, c := R2(d, e, a, b, c, 5);
      d, b := R2(c, d, e, a, b, 6);
      c, a := R2(b, c, d, e, a, 7);
    }

    method Operations3(a0: Word, b0: Word, c0: Word, d0: Word, e0: Word) returns (a: Word, b: Word, c: Word, d: Word, e: Word)
      requires Valid() && t == 40 && At(a0, b0, c0, d0, e0)
      modifies this`t, block
      ensures Valid() && t == 60 && At(a, b, c, d, e)
    {
      hide W, Rounds, Circular, At;
      a, b, c, d, e := a0, b0, c0, d0, e0;
      b, e := R3(a, b, c, d, e, 8);
      a, d := R3(e, a, b, c, d, 9);
      e, c := R3(d, e, a, b, c, 10);
      d, b := R3(c, d, e, a, b, 11);
      c, a := R3(b, c, d, e, a, 12);
      b, e := R3(a, b, c, d, e, 13);
      a, d := R3(e, a, b, c, d, 14);
      e, c := R3(d, e, a, b, c, 15);
      d, b := R3(c, d, e, a, b, 0);
      c, a := R3(b, c, d, e, a, 1);
      b, e := R3(a, b, c, d, e, 2);
      a, d := R3(e, a, b, c, d, 3);
      e, c := R3(d, e, a, b, c, 4);
      d, b := R3(c, d, e, a, b, 5);
      c, a := R3(b, c, d, e, a, 6);
      b, e := R3(a, b, c, d, e, 7);
      a, d := R3(e, a, b, c, d, 8);
      e, c := R3(d, e, a, b, c, 9);
      d, b := R3(c, d, e, a, b, 10);
      c, a := R3(b, c, d, e, a, 11);
    }

    method Operations4(a0: Word, b0: Word, c0: Word, d0: Word, e0: Word) returns (a: Word, b: Word, c: Word, d: Word, e: Word)
      requires Valid() && t == 60 && At(a0, b0, c0, d0, e0)
      modifies this`t, block
      ensures Valid() && t == 80 && At(a, b, c, d, e)
    {
      hide W, Rounds, Circular, At;
      a, b, c, d, e := a0, b0, c0, d0, e0;
      b, e := R4(a, b, c, d, e, 12);
      a, d := R4(e, a, b, c, d, 13);
      e, c := R4(d, e, a, b, c, 14);
      d, b := R4(c, d, e, a, b, 15);
      c, a := R4(b, c, d, e, a, 0);
      b, e := R4(a, b, c, d, e, 1);
      a, d := R4(e, a, b, c, d, 2);
      e, c := R4(d, e, a, b, c, 3);
      d, b := R4(c, d, e, a, b, 4);
      c, a := R4(b, c, d, e, a, 5);
      b, e := R4(a, b, c, d, e, 6);
      a, d := R4(e, a, b, c, d, 7);
      e, c := R4(d, e, a, b, c, 8);
      d, b := R4(c, d, e, a, b, 9);
      c, a := R4(b, c, d, e, a, 10);
      b, e := R4(a, b, c, d, e, 11);
      a, d := R4(e, a, b, c, d, 12);
      e, c := R4(d, e, a, b, c, 13);
      d, b := R4(c, d, e, a, b, 14);
      c, a := R4(b, c, d, e, a, 15);
    }
  }

  ghost function DigestOf(digest: array<Word>): Vars
    reads digest
    requires digest.Length == 5
  {
    Vars(digest[0], digest[1], digest[2], digest[3], digest[4])
  }

  /** transform computes the compression function of the standard, and overwrites the block. */
  method TransformBlock(digest: array<Word>, block: array<Word>)
    requires digest.Length == 5 && block.Length == 16 && digest != block
    modifies digest, block
    ensures DigestOf(digest) == Compress(old(DigestOf(digest)), old(block[..]))
  {
    hide W, Rounds, Circular, Plus;
    var a, b, c, d, e := digest[0], digest[1], digest[2], digest[3], digest[4];
    var run := new Transform(block, Vars(a, b, c, d, e));
    a, b, c, d, e := run.Operations1(a, b, c, d, e);
    a, b, c, d, e := run.Operations2(a, b, c, d, e);
    a, b, c, d, e := run.Operations3(a, b, c, d, e);
    a, b, c, d, e := run.Operations4(a, b, c, d, e);
    digest[0] := Plus(digest[0], a);
    digest[1] := Plus(digest[1], b);
    digest[2] := Plus(digest[2], c);
    digest[3] := Plus(digest[3], d);
    digest[4] := Plus(digest[4], e);
  }
}
