// Model of drivers/common/crc16.c.
//
// The reference definition is the serial one: a 16-bit feedback register that
// takes in one message bit per step, most significant bit first.  The two C
// loops (byte-wise and word-wise) are proved to compute it, and the error
// detection theorem is proved about it.
module Crc16 {
  const INIT: bv16 := 0xFFFF  // the code's start value; the T10-DIF standard uses 0

  // ---------- the register ----------

  function Plus(x: bv16, y: bv16): bv16 { x ^ y }

  function Double(x: bv16): bv16 { x << 1 }

  predicate TopBit(x: bv16) { x & 0x8000 != 0 }

  // One shift with the T10-DIF polynomial 0x8BB7.
  function Shift(crc: bv16): bv16 {
    if TopBit(crc) then Plus(Double(crc), 0x8BB7) else Double(crc)
  }

  function Shifts(crc: bv16, n: nat): bv16
    decreases n
  {
    if n == 0 then crc else Shifts(Shift(crc), n - 1)
  }

  function BitAtTop(bit: bool): bv16 { if bit then 0x8000 else 0 }

  function Feed(crc: bv16, bit: bool): bv16 { Shift(Plus(crc, BitAtTop(bit))) }

  function FeedAll(crc: bv16, bits: seq<bool>): bv16
    decreases |bits|
  {
    if bits == [] then crc else FeedAll(Feed(crc, bits[0]), bits[1..])
  }

  // ---------- bit streams ----------

  // The n most significant bits of x, most significant first.
  function TopBits(x: bv16, n: nat): (bits: seq<bool>)
    ensures |bits| == n
    decreases n
  {
    if n == 0 then [] else [TopBit(x)] + TopBits(Double(x), n - 1)
  }

  function ByteBits(b: bv8): (bits: seq<bool>)
    ensures |bits| == 8
  {
    TopBits((b as bv16) << 8, 8)
  }

  function WordBits(w: bv16): (bits: seq<bool>)
    ensures |bits| == 16
  {
    TopBits(w, 16)
  }

  function BytesBits(buf: seq<bv8>): (bits: seq<bool>)
    ensures |bits| == 8 * |buf|
  {
    if buf == [] then [] else BytesBits(buf[..|buf| - 1]) + ByteBits(buf[|buf| - 1])
  }

  function WordsBits(buf: seq<bv16>): (bits: seq<bool>)
    ensures |bits| == 16 * |buf|
  {
    if buf == [] then [] else WordsBits(buf[..|buf| - 1]) + WordBits(buf[|buf| - 1])
  }

  function HighByte(w: bv16): bv8 { ((w >> 8) & 0xFF) as bv8 }
  function LowByte(w: bv16): bv8 { (w & 0xFF) as bv8 }

  function BigEndianBytes(buf: seq<bv16>): (bytes: seq<bv8>)
    ensures |bytes| == 2 * |buf|
  {
    if buf == [] then []
    else BigEndianBytes(buf[..|buf| - 1]) + [HighByte(buf[|buf| - 1]), LowByte(buf[|buf| - 1])]
  }

  function CrcOfBits(bits: seq<bool>): bv16 { FeedAll(INIT, bits) }

  function CrcOfWords(buf: seq<bv16>): bv16 { CrcOfBits(WordsBits(buf)) }

  // A frame whose last word is the CRC of the words before it.
  predicate CrcValid(frame: seq<bv16>)
    requires |frame| > 0
  {
    frame[|frame| - 1] == CrcOfWords(frame[..|frame| - 1])
  }

  // ---------- the two C functions ----------

  method Crc16D8(buf: seq<bv8>) returns (crc: bv16)
    ensures crc == CrcOfBits(BytesBits(buf))
  {
    hide FeedAll, Shifts, Feed, Shift, Plus, ByteBits;
    crc := INIT;
    assert CrcOfBits([]) == INIT by { FeedNone(INIT); }
    for i := 0 to |buf|
      invariant crc == CrcOfBits(BytesBits(buf[..i]))
    {
      FeedByte(crc, buf[i]);
      FeedAllAppend(INIT, BytesBits(buf[..i]), ByteBits(buf[i]));
      crc := MixByte(crc, buf[i] as bv16);
      assert buf[..i + 1][..i] == buf[..i];
    }
    assert buf[..|buf|] == buf;
  }

  method Crc16Be16(buf: seq<bv16>) returns (crc: bv16)
    ensures crc == CrcOfWords(buf)
    ensures crc == CrcOfBits(BytesBits(BigEndianBytes(buf)))
  {
    hide FeedAll, Shifts, Feed, Shift, Plus, ByteBits, WordBits;
    crc := INIT;
    assert CrcOfBits([]) == INIT by { FeedNone(INIT); }
    for i := 0 to |buf|
      invariant crc == CrcOfBits(WordsBits(buf[..i]))
    {
      FeedWord(crc, buf[i]);
      FeedAllAppend(INIT, WordsBits(buf[..i]), WordBits(buf[i]));
      crc := MixByte(crc, (buf[i] >> 8) & 0xFF);
      crc := MixByte(crc, buf[i] & 0xFF);
      assert buf[..i + 1][..i] == buf[..i];
    }
    assert buf[..|buf|] == buf;
    BigEndianSameBits(buf);
  }

  // The loop body both C functions repeat.
  method MixByte(start: bv16, data: bv16) returns (crc: bv16)
    ensures crc == Shifts(Plus(start, data << 8), 8)
  {
    hide Shift, Plus;
    crc := start ^ (data << 8);
    assert crc == Plus(start, data << 8) by { PlusIsXor(start, data << 8); }
    for k := 0 to 8
      invariant Shifts(crc, 8 - k) == Shifts(Plus(start, data << 8), 8)
    {
      ShiftIsStep(crc);
      crc := if crc & 0x8000 != 0 then (crc << 1) ^ 0x8BB7 else crc << 1;
    }
  }

  lemma PlusIsXor(x: bv16, y: bv16)
    ensures Plus(x, y) == x ^ y
  {
  }

  lemma ShiftIsStep(crc: bv16)
    ensures Shift(crc) == if crc & 0x8000 != 0 then (crc << 1) ^ 0x8BB7 else crc << 1
  {
  }

  // ---------- algebra of the register ----------

  lemma MaskXor(x: bv16, y: bv16)
    ensures (x ^ y) & 0x8000 == (x & 0x8000) ^ (y & 0x8000)
    ensures (x ^ y) << 1 == (x << 1) ^ (y << 1)
  {
  }

  lemma TopBitIsOneBit(x: bv16)
    ensures x & 0x8000 == BitAtTop(TopBit(x))
  {
  }

  lemma DoublePlus(x: bv16, y: bv16)
    ensures Double(Plus(x, y)) == Plus(Double(x), Double(y))
    ensures TopBit(Plus(x, y)) <==> TopBit(x) != TopBit(y)
  {
    MaskXor(x, y);
    TopPlus(x, y);
  }

  lemma TopPlus(x: bv16, y: bv16)
    ensures TopBit(Plus(x, y)) <==> TopBit(x) != TopBit(y)
  {
    hide TopBit, Plus;
    TopBitIsOneBit(x);
    TopBitIsOneBit(y);
    TopBitIsOneBit(Plus(x, y));
    assert Plus(x, y) & 0x8000 == Plus(x & 0x8000, y & 0x8000) by { MaskPlus(x, y); }
    BitAtTopLinear(TopBit(x), TopBit(y));
  }

  lemma MaskPlus(x: bv16, y: bv16)
    ensures Plus(x, y) & 0x8000 == Plus(x & 0x8000, y & 0x8000)
  {
  }

  lemma PlusAssociates(x: bv16, y: bv16, p: bv16)
    ensures Plus(Plus(x, y), p) == Plus(x, Plus(y, p))
  {
  }

  lemma PlusCommutes(x: bv16, y: bv16)
    ensures Plus(x, y) == Plus(y, x)
  {
  }

  lemma PlusCancel(x: bv16, y: bv16, p: bv16)
    ensures Plus(Plus(x, p), y) == Plus(Plus(x, y), p)
    ensures Plus(x, Plus(y, p)) == Plus(Plus(x, y), p)
    ensures Plus(Plus(x, p), Plus(y, p)) == Plus(x, y)
  {
    hide Plus;
    PlusCommutes(y, p);
    PlusAssociates(x, y, p);
    PlusAssociates(x, p, y);
    PlusAssociates(x, p, Plus(y, p));
    PlusAssociates(y, p, p);
    PlusCommutes(p, Plus(y, p));
    PlusSelf(y, p);
  }

  lemma ShiftLinear(x: bv16, y: bv16)
    ensures Shift(Plus(x, y)) == Plus(Shift(x), Shift(y))
  {
    hide Double, Plus, TopBit;
    DoublePlus(x, y);
    PlusCancel(Double(x), Double(y), 0x8BB7);
  }

  lemma ShiftKeepsNonzero(x: bv16)
    ensures Shift(x) == 0 <==> x == 0
  {
  }

  lemma PlusLaws(x: bv16, y: bv16, p: bv16, q: bv16)
    ensures Plus(Plus(x, y), Plus(p, q)) == Plus(Plus(x, p), Plus(y, q))
    ensures Plus(x, 0) == x
    ensures Plus(x, y) == 0 <==> x == y
  {
    PlusZeros(x, y);
    hide Plus;
    PlusCancel(Plus(x, y), p, q);
    PlusCancel(x, y, p);
    PlusCancel(Plus(x, p), y, q);
  }

  lemma PlusZeros(x: bv16, y: bv16)
    ensures Plus(x, 0) == x
    ensures Plus(x, y) == 0 <==> x == y
  {
    hide Plus;
    PlusZero(x);
    PlusZero(y);
    PlusSelf(x, y);
  }

  lemma PlusSelf(x: bv16, y: bv16)
    ensures Plus(Plus(x, y), y) == x && Plus(x, x) == 0
  {
  }

  lemma {:induction false} ShiftsKeepNonzero(x: bv16, n: nat)
    ensures Shifts(x, n) == 0 <==> x == 0
    decreases n
  {
    hide Shift;
    if n == 0 {
    } else {
      ShiftKeepsNonzero(x);
      ShiftsKeepNonzero(Shift(x), n - 1);
    }
  }

  lemma FeedNone(crc: bv16)
    ensures FeedAll(crc, []) == crc
  {
  }

  lemma {:induction false} FeedAllAppend(crc: bv16, a: seq<bool>, b: seq<bool>)
    ensures FeedAll(crc, a + b) == FeedAll(FeedAll(crc, a), b)
    decreases |a|
  {
    hide Feed;
    if a == [] {
      assert a + b == b;
    } else {
      assert (a + b)[1..] == a[1..] + b;
      FeedAllAppend(Feed(crc, a[0]), a[1..], b);
    }
  }

  function Xor(a: seq<bool>, b: seq<bool>): (c: seq<bool>)
    requires |a| == |b|
    ensures |c| == |a|
    ensures forall i :: 0 <= i < |a| ==> c[i] == (a[i] != b[i])
  {
    seq(|a|, i requires 0 <= i < |a| => a[i] != b[i])
  }

  lemma BitAtTopLinear(a: bool, b: bool)
    ensures BitAtTop(a != b) == Plus(BitAtTop(a), BitAtTop(b))
  {
  }

  lemma FeedLinear(x: bv16, y: bv16, a: bool, b: bool)
    ensures Feed(Plus(x, y), a != b) == Plus(Feed(x, a), Feed(y, b))
  {
    hide Shift, Plus, BitAtTop;
    BitAtTopLinear(a, b);
    PlusLaws(x, y, BitAtTop(a), BitAtTop(b));
    ShiftLinear(Plus(x, BitAtTop(a)), Plus(y, BitAtTop(b)));
  }

  lemma {:induction false} FeedAllLinear(x: bv16, y: bv16, a: seq<bool>, b: seq<bool>)
    requires |a| == |b|
    ensures FeedAll(Plus(x, y), Xor(a, b)) == Plus(FeedAll(x, a), FeedAll(y, b))
    decreases |a|
  {
    hide Feed, Plus;
    if a == [] {
    } else {
      FeedLinear(x, y, a[0], b[0]);
      assert Xor(a, b)[1..] == Xor(a[1..], b[1..]);
      FeedAllLinear(Feed(x, a[0]), Feed(y, b[0]), a[1..], b[1..]);
    }
  }

  predicate Quiet(bits: seq<bool>) { forall i :: 0 <= i < |bits| ==> !bits[i] }

  lemma FeedQuietBit(crc: bv16)
    ensures Feed(crc, false) == Shift(crc)
  {
    hide Shift;
  }

  lemma {:induction false} FeedQuiet(crc: bv16, bits: seq<bool>)
    requires Quiet(bits)
    ensures FeedAll(crc, bits) == Shifts(crc, |bits|)
    decreases |bits|
  {
    hide Feed, Shift;
    if bits == [] {
    } else {
      FeedQuietBit(crc);
      FeedQuiet(Feed(crc, bits[0]), bits[1..]);
    }
  }

  // ---------- words and bytes as bit streams ----------

  function Doubles(x: bv16, n: nat): bv16
    decreases n
  {
    if n == 0 then x else Doubles(Double(x), n - 1)
  }

  lemma TopAndRest(x: bv16)
    ensures Plus(BitAtTop(TopBit(x)), x & 0x7FFF) == x
    ensures Shift(x & 0x7FFF) == Double(x)
  {
  }

  lemma FeedTopBit(crc: bv16, x: bv16)
    ensures Plus(Feed(crc, TopBit(x)), Double(x)) == Shift(Plus(crc, x))
  {
    hide Shift, Plus, BitAtTop, TopBit, Double;
    var top, rest := BitAtTop(TopBit(x)), x & 0x7FFF;
    TopAndRest(x);
    PlusLaws(crc, 0, top, rest);
    PlusLaws(crc, 0, 0, 0);
    PlusZero(rest);
    ShiftLinear(Plus(crc, top), rest);
  }

  lemma PlusZero(x: bv16)
    ensures Plus(0, x) == x && Plus(x, 0) == x
  {
  }

  // Feeding n bits of x one at a time is n shifts of the register with x mixed in.
  lemma {:induction false} FeedTopBits(crc: bv16, x: bv16, n: nat)
    ensures Plus(FeedAll(crc, TopBits(x, n)), Doubles(x, n)) == Shifts(Plus(crc, x), n)
    decreases n
  {
    hide Feed, Plus, Shift, Double, TopBit;
    if n == 0 {
    } else {
      FeedTopBit(crc, x);
      assert TopBits(x, n)[1..] == TopBits(Double(x), n - 1);
      FeedTopBits(Feed(crc, TopBit(x)), Double(x), n - 1);
    }
  }

  lemma Doubles8(x: bv16)
    ensures Doubles(x, 8) == x << 8
  {
  }

  lemma {:induction false} DoublesSum(x: bv16, m: nat, n: nat)
    ensures Doubles(x, m + n) == Doubles(Doubles(x, m), n)
    decreases m
  {
    hide Double;
    if m == 0 {
    } else {
      DoublesSum(Double(x), m - 1, n);
    }
  }

  lemma Doubles16(x: bv16)
    ensures Doubles(x, 16) == 0
  {
    hide Doubles, Double;
    DoublesSum(x, 8, 8);
    Doubles8(x);
    Doubles8(x << 8);
    assert (x << 8) << 8 == 0;
  }

  // The byte step of the C loop: mix the byte into the top half, shift eight times.
  lemma FeedByte(crc: bv16, b: bv8)
    ensures FeedAll(crc, ByteBits(b)) == Shifts(Plus(crc, (b as bv16) << 8), 8)
  {
    hide FeedAll, Plus, Shifts, Doubles, TopBits;
    var x := (b as bv16) << 8;
    FeedTopBits(crc, x, 8);
    Doubles8(x);
    assert x << 8 == 0;
    PlusZero(FeedAll(crc, ByteBits(b)));
  }

  lemma {:induction false} TopBitsSplit(x: bv16, m: nat, n: nat)
    ensures TopBits(x, m + n) == TopBits(x, m) + TopBits(Doubles(x, m), n)
    decreases m
  {
    hide Double, TopBit;
    if m == 0 {
    } else {
      TopBitsSplit(Double(x), m - 1, n);
    }
  }

  // The n most significant bits of mask are all set.
  predicate AllTop(mask: bv16, n: nat)
    decreases n
  {
    n == 0 || (TopBit(mask) && AllTop(Double(mask), n - 1))
  }

  lemma {:induction false} TopBitsMasked(x: bv16, mask: bv16, n: nat)
    requires AllTop(mask, n)
    ensures TopBits(x & mask, n) == TopBits(x, n)
    decreases n
  {
    hide Double, TopBit;
    if n == 0 {
    } else {
      DoubleMasked(x, mask);
      TopBitsMasked(Double(x), Double(mask), n - 1);
    }
  }

  lemma DoubleMasked(x: bv16, mask: bv16)
    ensures Double(x & mask) == Double(x) & Double(mask)
    ensures TopBit(mask) ==> TopBit(x & mask) == TopBit(x)
  {
  }

  lemma WordHalves(w: bv16)
    ensures w << 8 == (LowByte(w) as bv16) << 8
    ensures w & 0xFF00 == (HighByte(w) as bv16) << 8
    ensures LowByte(w) as bv16 == w & 0xFF
    ensures HighByte(w) as bv16 == (w >> 8) & 0xFF
  {
  }

  lemma HighMask()
    ensures AllTop(0xFF00, 8)
  {
  }

  lemma WordIsTwoBytes(w: bv16)
    ensures WordBits(w) == ByteBits(HighByte(w)) + ByteBits(LowByte(w))
  {
    hide TopBits, Doubles, HighByte, LowByte;
    TopBitsSplit(w, 8, 8);
    Doubles8(w);
    WordHalves(w);
    HighMask();
    TopBitsMasked(w, 0xFF00, 8);
  }

  lemma FeedWord(crc: bv16, w: bv16)
    ensures FeedAll(crc, WordBits(w)) ==
      Shifts(Plus(Shifts(Plus(crc, ((w >> 8) & 0xFF) << 8), 8), (w & 0xFF) << 8), 8)
  {
    hide FeedAll, Plus, Shifts, WordBits, ByteBits, HighByte, LowByte;
    WordIsTwoBytes(w);
    WordHalves(w);
    FeedAllAppend(crc, ByteBits(HighByte(w)), ByteBits(LowByte(w)));
    FeedByte(crc, HighByte(w));
    FeedByte(FeedAll(crc, ByteBits(HighByte(w))), LowByte(w));
  }

  lemma {:induction false} BytesBitsAppend(a: seq<bv8>, b: seq<bv8>)
    ensures BytesBits(a + b) == BytesBits(a) + BytesBits(b)
    decreases |b|
  {
    hide ByteBits;
    if b == [] {
      assert a + b == a;
    } else {
      assert (a + b)[..|a + b| - 1] == a + b[..|b| - 1];
      BytesBitsAppend(a, b[..|b| - 1]);
    }
  }

  lemma TwoBytesBits(x: bv8, y: bv8)
    ensures BytesBits([x, y]) == ByteBits(x) + ByteBits(y)
  {
    hide ByteBits;
    assert [x, y][..1] == [x];
    assert [x][..0] == [];
    assert BytesBits([x]) == [] + ByteBits(x);
  }

  lemma {:induction false} BigEndianSameBits(buf: seq<bv16>)
    ensures BytesBits(BigEndianBytes(buf)) == WordsBits(buf)
  {
    hide ByteBits, HighByte, LowByte, WordBits, BytesBits;
    if buf == [] {
      assert BytesBits([]) == [];
    } else {
      var w := buf[|buf| - 1];
      BigEndianSameBits(buf[..|buf| - 1]);
      WordIsTwoBytes(w);
      BytesBitsAppend(BigEndianBytes(buf[..|buf| - 1]), [HighByte(w), LowByte(w)]);
      TwoBytesBits(HighByte(w), LowByte(w));
    }
  }

  // ---------- error detection ----------

  // The register after a whole frame, CRC word included.  A frame is valid
  // exactly when this is zero.
  lemma ResidueZero(frame: seq<bv16>)
    requires |frame| > 0
    ensures CrcValid(frame) <==> CrcOfBits(WordsBits(frame)) == 0
  {
    hide FeedAll, Plus, Shifts, TopBits, Doubles;
    var body := frame[..|frame| - 1];
    var last := frame[|frame| - 1];
    var crc := CrcOfWords(body);
    FeedAllAppend(INIT, WordsBits(body), WordBits(last));
    FeedTopBits(crc, last, 16);
    Doubles16(last);
    PlusZero(FeedAll(crc, WordBits(last)));
    ShiftsKeepNonzero(Plus(crc, last), 16);
    PlusLaws(crc, last, 0, 0);
  }

  // Two frames of equal length and equal validity differ by bits that leave the
  // zero register at zero: the start value plays no part in what is detected.
  lemma DifferenceDecides(good: seq<bv16>, bad: seq<bv16>)
    requires |good| == |bad| > 0
    requires CrcValid(good)
    ensures CrcValid(bad) <==> FeedAll(0, Xor(WordsBits(good), WordsBits(bad))) == 0
  {
    hide FeedAll, Plus, WordsBits;
    var g, b := WordsBits(good), WordsBits(bad);
    ResidueZero(good);
    ResidueZero(bad);
    FeedAllLinear(INIT, INIT, g, b);
    PlusLaws(INIT, INIT, 0, 0);
    PlusZero(FeedAll(INIT, b));
  }

  // The word whose n most significant bits are the given ones.
  function FromBits(bits: seq<bool>): bv16
    decreases |bits|
  {
    if bits == [] then 0 else Prepend(bits[0], FromBits(bits[1..]))
  }

  function Prepend(bit: bool, y: bv16): bv16 { Plus(BitAtTop(bit), y >> 1) }

  lemma PrependBit(bit: bool, y: bv16)
    ensures TopBit(Prepend(bit, y)) == bit
    ensures Double(Prepend(bit, y)) == y & 0xFFFE
  {
    hide Plus;
    DoublePlus(BitAtTop(bit), y >> 1);
    assert (y >> 1) << 1 == y & 0xFFFE;
    assert (y >> 1) & 0x8000 == 0;
    PlusZero(y & 0xFFFE);
  }

  lemma {:induction false} AllTopPrefix(mask: bv16, m: nat, n: nat)
    requires m <= n && AllTop(mask, n)
    ensures AllTop(mask, m)
    decreases m
  {
    hide Double, TopBit;
    if m == 0 {
    } else {
      AllTopPrefix(Double(mask), m - 1, n - 1);
    }
  }

  lemma EvenMask()
    ensures AllTop(0xFFFE, 15)
  {
  }

  lemma {:induction false} FromBitsReads(bits: seq<bool>)
    requires |bits| <= 16
    ensures TopBits(FromBits(bits), |bits|) == bits
    decreases |bits|
  {
    hide Double, TopBit, Prepend, AllTop;
    if bits == [] {
    } else {
      var y := FromBits(bits[1..]);
      FromBitsReads(bits[1..]);
      PrependBit(bits[0], y);
      EvenMask();
      AllTopPrefix(0xFFFE, |bits| - 1, 15);
      TopBitsMasked(y, 0xFFFE, |bits| - 1);
    }
  }

  lemma {:induction false} ZeroHasNoBits(n: nat)
    ensures Quiet(TopBits(0, n))
    decreases n
  {
    if n == 0 {
    } else {
      assert Double(0) == 0;
      ZeroHasNoBits(n - 1);
    }
  }

  // A nonzero pattern of at most 16 bits never leaves the register at zero.
  lemma ShortPatternSeen(bits: seq<bool>)
    requires |bits| == 16 && !Quiet(bits)
    ensures FeedAll(0, bits) != 0
  {
    hide FeedAll, Shifts, Plus, TopBits, Doubles;
    var p := FromBits(bits);
    FromBitsReads(bits);
    ZeroHasNoBits(16);
    FeedTopBits(0, p, 16);
    Doubles16(p);
    PlusZero(FeedAll(0, bits));
    PlusZero(p);
    ShiftsKeepNonzero(p, 16);
  }

  // Everything outside the 16 positions from k on is quiet.
  predicate Burst(bits: seq<bool>, k: nat) {
    forall i :: 0 <= i < |bits| && !(k <= i < k + 16) ==> !bits[i]
  }

  lemma BurstSeen(bits: seq<bool>, k: nat)
    requires k + 16 <= |bits| && Burst(bits, k) && !Quiet(bits)
    ensures FeedAll(0, bits) != 0
  {
    hide FeedAll, Shifts;
    var head, burst, tail := bits[..k], bits[k..k + 16], bits[k + 16..];
    assert bits == head + (burst + tail);
    assert Quiet(head) && Quiet(tail);
    assert !Quiet(burst) by {
      var i :| 0 <= i < |bits| && bits[i];
      assert burst[i - k];
    }
    FeedAllAppend(0, head, burst + tail);
    FeedQuiet(0, head);
    ShiftsKeepNonzero(0, k);
    FeedAllAppend(0, burst, tail);
    ShortPatternSeen(burst);
    FeedQuiet(FeedAll(0, burst), tail);
    ShiftsKeepNonzero(FeedAll(0, burst), |tail|);
  }

  // Main result: a received frame that differs from a valid one, but only within
  // 16 consecutive bits (CRC word included), fails the CRC check.
  lemma BurstErrorDetected(good: seq<bv16>, bad: seq<bv16>, k: nat)
    requires |good| == |bad| > 0
    requires CrcValid(good) && good != bad
    requires forall i :: 0 <= i < 16 * |good| && !(k <= i < k + 16) ==>
               WordsBits(good)[i] == WordsBits(bad)[i]
    ensures !CrcValid(bad)
  {
    hide FeedAll, WordsBits;
    var difference := Xor(WordsBits(good), WordsBits(bad));
    var start := if k + 16 <= |difference| then k else |difference| - 16;
    assert Burst(difference, start);
    if Quiet(difference) {
      assert forall i :: 0 <= i < |difference| ==> !difference[i];
      assert WordsBits(good) == WordsBits(bad);
      WordsBitsInjective(good, bad);
    }
    BurstSeen(difference, start);
    DifferenceDecides(good, bad);
  }

  lemma {:induction false} TopBitsInjective(x: bv16, y: bv16, n: nat)
    requires TopBits(x, n) == TopBits(y, n)
    ensures Doubles(Plus(x, y), n) == Shifts(Plus(x, y), n)
    decreases n
  {
    hide Double, Plus, TopBit, Shift;
    if n == 0 {
    } else {
      assert TopBit(x) == TopBits(x, n)[0] && TopBit(y) == TopBits(y, n)[0];
      assert TopBits(x, n)[1..] == TopBits(Double(x), n - 1);
      assert TopBits(y, n)[1..] == TopBits(Double(y), n - 1);
      DoublePlus(x, y);
      ShiftOfClear(Plus(x, y));
      TopBitsInjective(Double(x), Double(y), n - 1);
    }
  }

  lemma ShiftOfClear(x: bv16)
    requires !TopBit(x)
    ensures Shift(x) == Double(x)
  {
  }

  lemma {:induction false} WordsBitsInjective(a: seq<bv16>, b: seq<bv16>)
    requires |a| == |b| && WordsBits(a) == WordsBits(b)
    ensures a == b
    decreases |a|
  {
    hide WordBits, Shifts, Doubles, Plus;
    if a == [] {
    } else {
      var n := |a| - 1;
      assert WordBits(a[n]) == WordsBits(a)[16 * n..] == WordBits(b[n]);
      assert WordsBits(a[..n]) == WordsBits(a)[..16 * n] == WordsBits(b[..n]);
      WordsBitsInjective(a[..n], b[..n]);
      WordBitsInjective(a[n], b[n]);
      assert a == a[..n] + [a[n]] && b == b[..n] + [b[n]];
    }
  }

  lemma WordBitsInjective(x: bv16, y: bv16)
    requires WordBits(x) == WordBits(y)
    ensures x == y
  {
    hide Shifts, Doubles, Plus, TopBits;
    TopBitsInjective(x, y, 16);
    Doubles16(Plus(x, y));
    ShiftsKeepNonzero(Plus(x, y), 16);
    PlusLaws(x, y, 0, 0);
  }

  // ---------- the start value and the polynomial ----------

  lemma EmptyCrc()
    ensures CrcOfWords([]) == 0xFFFF && CrcOfBits([]) == 0xFFFF
  {
  }

  lemma {:induction false} ZeroWordsQuiet(n: nat)
    ensures Quiet(WordsBits(seq(n, _ => 0)))
    decreases n
  {
    hide TopBits;
    if n == 0 {
    } else {
      var zeros: seq<bv16> := seq(n, _ => 0);
      assert zeros[..n - 1] == seq(n - 1, _ => 0);
      ZeroWordsQuiet(n - 1);
      ZeroHasNoBits(16);
      assert WordsBits(zeros) == WordsBits(zeros[..n - 1]) + WordBits(0);
    }
  }

  // The nonzero start value: no frame of zero words is valid, however long.
  lemma ZerosInvalid(n: nat)
    requires n > 0
    ensures !CrcValid(seq(n, _ => 0))
  {
    hide FeedAll, Shifts, WordsBits;
    var frame: seq<bv16> := seq(n, _ => 0);
    ResidueZero(frame);
    ZeroWordsQuiet(n);
    FeedQuiet(INIT, WordsBits(frame));
    ShiftsKeepNonzero(INIT, 16 * n);
  }

  // x^16 + x^15 + x^11 + x^9 + x^8 + x^7 + x^5 + x^4 + x^2 + x + 1
  function Generator(): (bits: seq<bool>)
    ensures |bits| == 17
  {
    [true] + WordBits(0x8BB7)
  }

  lemma GeneratorVanishes()
    ensures FeedAll(0, Generator()) == 0
  {
    hide FeedAll, Shifts, TopBits, Doubles, Plus;
    var w: bv16 := 0x8BB7;
    assert Feed(0, true) == w by { FirstOne(); }
    assert Generator() == [true] + WordBits(w);
    FeedAllAppend(0, [true], WordBits(w));
    FeedOne(0, true);
    FeedTopBits(w, w, 16);
    Doubles16(w);
    PlusZero(FeedAll(w, WordBits(w)));
    PlusLaws(w, w, 0, 0);
    ShiftsKeepNonzero(0, 16);
  }

  lemma FirstOne()
    ensures Feed(0, true) == 0x8BB7
  {
  }

  lemma FeedOne(crc: bv16, bit: bool)
    ensures FeedAll(crc, [bit]) == Feed(crc, bit)
  {
    hide Feed;
    assert [bit][1..] == [];
  }

  // The 16 bits of BurstErrorDetected are sharp: a valid frame hit by the 17 bits of
  // the generator, at any position, is valid.
  lemma GeneratorBurstMissed(good: seq<bv16>, bad: seq<bv16>, k: nat)
    requires |good| == |bad| > 0 && CrcValid(good) && k + 17 <= 16 * |good|
    requires forall i :: 0 <= i < 16 * |good| ==>
               (WordsBits(good)[i] != WordsBits(bad)[i] <==> k <= i < k + 17 && Generator()[i - k])
    ensures CrcValid(bad)
  {
    hide FeedAll, Shifts, WordsBits, Generator;
    var bits := Xor(WordsBits(good), WordsBits(bad));
    var head, burst, tail := bits[..k], bits[k..k + 17], bits[k + 17..];
    assert bits == head + (burst + tail);
    assert Quiet(head) && Quiet(tail) && burst == Generator();
    FeedAllAppend(0, head, burst + tail);
    FeedQuiet(0, head);
    ShiftsKeepNonzero(0, k);
    FeedAllAppend(0, burst, tail);
    GeneratorVanishes();
    FeedQuiet(0, tail);
    ShiftsKeepNonzero(0, |tail|);
    DifferenceDecides(good, bad);
  }
}
