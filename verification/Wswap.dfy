// Model of drivers/common/wswap.h and of the words a 32- or 64-bit field of the
// packed frame struct occupies on the little-endian target.
module Wswap {
  function Wswap32(data: bv32): bv32 {
    ((data & 0xFFFF) << 16) | ((data >> 16) & 0xFFFF)
  }

  function Wswap64(data: bv64): bv64 {
    ((data >> 48) & 0xFFFF) |
    (((data >> 32) & 0xFFFF) << 16) |
    (((data >> 16) & 0xFFFF) << 32) |
    ((data & 0xFFFF) << 48)
  }

  // Word k (of 16 bits) of a field, in memory order.
  function Word32(data: bv32, k: nat): bv16
    requires k < 2
  {
    ((if k == 0 then data else data >> 16) & 0xFFFF) as bv16
  }

  function Word64(data: bv64, k: nat): bv16
    requires k < 4
  {
    ((if k == 0 then data else if k == 1 then data >> 16 else if k == 2 then data >> 32 else data >> 48)
     & 0xFFFF) as bv16
  }

  function Join32(a: bv16, b: bv16): bv32 {
    (a as bv32) | ((b as bv32) << 16)
  }

  function Join64(a: bv16, b: bv16, c: bv16, d: bv16): bv64 {
    (a as bv64) | ((b as bv64) << 16) | ((c as bv64) << 32) | ((d as bv64) << 48)
  }

  // A field and its words determine each other.
  lemma Join32Words(a: bv16, b: bv16)
    ensures Word32(Join32(a, b), 0) == a && Word32(Join32(a, b), 1) == b
  {
  }

  lemma Words32Join(x: bv32)
    ensures Join32(Word32(x, 0), Word32(x, 1)) == x
  {
  }

  lemma Join64Words(a: bv16, b: bv16, c: bv16, d: bv16)
    ensures Word64(Join64(a, b, c, d), 0) == a && Word64(Join64(a, b, c, d), 1) == b
    ensures Word64(Join64(a, b, c, d), 2) == c && Word64(Join64(a, b, c, d), 3) == d
  {
  }

  lemma Words64Join(x: bv64)
    ensures Join64(Word64(x, 0), Word64(x, 1), Word64(x, 2), Word64(x, 3)) == x
  {
  }

  // The target is little-endian: the first word in memory is the least significant.
  lemma LowWordFirst32(x: bv32)
    ensures Word32(x, 0) as bv32 == x & 0xFFFF && Word32(x, 1) as bv32 == x >> 16
  {
  }

  lemma LowWordFirst64(x: bv64)
    ensures Word64(x, 0) as bv64 == x & 0xFFFF && Word64(x, 1) as bv64 == (x >> 16) & 0xFFFF
    ensures Word64(x, 2) as bv64 == (x >> 32) & 0xFFFF && Word64(x, 3) as bv64 == x >> 48
  {
  }

  // wswap reverses the order of the words, so it undoes itself.
  lemma Wswap32OfWords(a: bv16, b: bv16)
    ensures Wswap32(Join32(a, b)) == Join32(b, a)
  {
  }

  lemma Wswap64OfWords(a: bv16, b: bv16, c: bv16, d: bv16)
    ensures Wswap64(Join64(a, b, c, d)) == Join64(d, c, b, a)
  {
  }

  lemma WswapTwice(x: bv32, y: bv64)
    ensures Wswap32(Wswap32(x)) == x && Wswap64(Wswap64(y)) == y
  {
    hide Wswap32, Wswap64, Join32, Join64, Word32, Word64;
    Words32Join(x);
    Words64Join(y);
    Wswap32OfWords(Word32(x, 0), Word32(x, 1));
    Wswap32OfWords(Word32(x, 1), Word32(x, 0));
    Wswap64OfWords(Word64(y, 0), Word64(y, 1), Word64(y, 2), Word64(y, 3));
    Wswap64OfWords(Word64(y, 3), Word64(y, 2), Word64(y, 1), Word64(y, 0));
  }

  // On the little-endian target, storing the swapped value puts the most
  // significant word first.
  lemma Wswap32Stored(x: bv32)
    ensures Word32(Wswap32(x), 0) == Word32(x, 1) && Word32(Wswap32(x), 1) == Word32(x, 0)
  {
    hide Wswap32, Join32, Word32;
    Words32Join(x);
    Wswap32OfWords(Word32(x, 0), Word32(x, 1));
    Join32Words(Word32(x, 1), Word32(x, 0));
  }

  lemma Wswap64Stored(x: bv64)
    ensures Word64(Wswap64(x), 0) == Word64(x, 3) && Word64(Wswap64(x), 1) == Word64(x, 2)
    ensures Word64(Wswap64(x), 2) == Word64(x, 1) && Word64(Wswap64(x), 3) == Word64(x, 0)
  {
    hide Wswap64, Join64, Word64;
    Words64Join(x);
    Wswap64OfWords(Word64(x, 0), Word64(x, 1), Word64(x, 2), Word64(x, 3));
    Join64Words(Word64(x, 3), Word64(x, 2), Word64(x, 1), Word64(x, 0));
  }
}
