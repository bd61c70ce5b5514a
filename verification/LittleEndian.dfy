/** Fixed-width words and the little-endian byte accessors of src/Util/Byte.hpp. */
module LittleEndian {
  import opened Arithmetic

  const U8: nat := 0x100
  const U16: nat := 0x1_0000
  const U32: nat := 0x1_0000_0000

  type byte = b: int | 0 <= b < 0x100

  /** The bytes a Set2BytesLE call stores: each one is a truncating cast of a shift. */
  function Le2(v: nat): (s: seq<byte>)
    ensures |s| == 2
  {
    [v % U8, v / 0x100 % U8]
  }

  /** The bytes a Set4BytesLE call stores. */
  function Le4(v: nat): (s: seq<byte>)
    ensures |s| == 4
  {
    [v % U8, v / 0x100 % U8, v / 0x1_0000 % U8, v / 0x100_0000 % U8]
  }

  // The shifted bytes do not overlap, so `|` in the source is a sum.
  function Get2(s: seq<byte>, i: nat): (v: nat)
    requires i + 2 <= |s|
    ensures v < U16
  {
    (s[i] as int) + 0x100 * (s[i + 1] as int)
  }

  function Get4(s: seq<byte>, i: nat): (v: nat)
    requires i + 4 <= |s|
    ensures v < U32
  {
    Get2(s, i) + 0x1_0000 * Get2(s, i + 2)
  }

  lemma SplitWord(v: nat)
    ensures v / 0x1_0000 == v / 0x100 / 0x100
    ensures v / 0x100_0000 == v / 0x1_0000 / 0x100
    ensures v % U32 == v % U16 + 0x1_0000 * (v / 0x1_0000 % U16)
  {
    var q1, r0 := v / 0x100, v % 0x100;
    var q2, r1 := q1 / 0x100, q1 % 0x100;
    var q3, r2 := q2 / 0x100, q2 % 0x100;
    DivisionIsUnique(v, 0x1_0000, q2, r0 + 0x100 * r1);
    DivisionIsUnique(v, 0x100_0000, q3, r0 + 0x100 * r1 + 0x1_0000 * r2);
    var q, r := q2 / U16, q2 % U16;
    DivisionIsUnique(v, U32, q, r0 + 0x100 * r1 + 0x1_0000 * r);
  }

  lemma GetOfLe2(v: nat)
    ensures Get2(Le2(v), 0) == v % U16
  {
  }

  /** What is read back is what was stored, truncated to the width of the field. */
  lemma GetOfLe4(v: nat)
    ensures Get4(Le4(v), 0) == v % U32
  {
    SplitWord(v);
    GetOfLe2(v);
    GetOfLe2(v / 0x1_0000);
    var s := Le4(v);
    assert Get2(s, 0) == Get2(Le2(v), 0);
    assert Get2(s, 2) == Get2(Le2(v / 0x1_0000), 0);
  }

  lemma LeOfGet2(s: seq<byte>, i: nat)
    requires i + 2 <= |s|
    ensures Le2(Get2(s, i)) == s[i..i + 2]
  {
  }

  /** Storing what was read changes nothing. */
  lemma LeOfGet4(s: seq<byte>, i: nat)
    requires i + 4 <= |s|
    ensures Le4(Get4(s, i)) == s[i..i + 4]
  {
    var v := Get4(s, i);
    SplitWord(v);
    LeOfGet2(s, i);
    LeOfGet2(s, i + 2);
    assert v / 0x1_0000 == Get2(s, i + 2) && v % 0x1_0000 == Get2(s, i);
    Le2OfMod(v);
    assert Le4(v) == Le2(v) + Le2(v / 0x1_0000);
  }

  lemma Le2OfMod(v: nat)
    ensures Le2(v) == Le2(v % U16)
  {
    var q, r := v / U16, v % U16;
    DivisionIsUnique(v, 0x100, 0x100 * q + r / 0x100, r % 0x100);
    DivisionIsUnique(v / 0x100, 0x100, q, r / 0x100);
  }

  method Set1Byte(data: array<byte>, i: nat, value: nat)
    requires i < data.Length
    modifies data
    ensures data[..] == old(data[..i]) + [value % U8] + old(data[i + 1..])
  {
    data[i] := value % U8;
  }

  method Set2BytesLE(data: array<byte>, i: nat, value: nat)
    requires i + 2 <= data.Length
    modifies data
    ensures data[..] == old(data[..i]) + Le2(value) + old(data[i + 2..])
  {
    data[i] := value % U8;
    data[i + 1] := value / 0x100 % U8;
  }

  method Set4BytesLE(data: array<byte>, i: nat, value: nat)
    requires i + 4 <= data.Length
    modifies data
    ensures data[..] == old(data[..i]) + Le4(value) + old(data[i + 4..])
  {
    data[i] := value % U8;
    data[i + 1] := value / 0x100 % U8;
    data[i + 2] := value / 0x1_0000 % U8;
    data[i + 3] := value / 0x100_0000 % U8;
  }
}
