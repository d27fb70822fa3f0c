// Model of dev/fpga/fpga_io.c: 16-, 32-, 64-bit and block access to the FPGA's
// 16-bit registers.  The bus may fail at any access.
module FpgaIo {
  import opened Wswap

  const ADDR_SPACE := 0x1_0000_0000  // addresses are uint32_t and wrap
  const REGIO_WORD_SIZE := 2

  type Registers = map<int, bv16>

  function Wrapped(addr: int): int { addr % ADDR_SPACE }

  function Reg(regs: Registers, addr: int): bv16 {
    if Wrapped(addr) in regs then regs[Wrapped(addr)] else 0
  }

  // The registers after writing the words to consecutive addresses, in order.
  function Stored(regs: Registers, addr: int, words: seq<bv16>): Registers {
    if words == [] then regs
    else
      var n := |words| - 1;
      Stored(regs, addr, words[..n])[Wrapped(addr + n) := words[n]]
  }

  // "addr &= ~1" and "addr &= ~3".
  function Align(addr: nat, n: nat): int
    requires n > 0
  {
    addr - addr % n
  }

  function Split32(data: bv32): seq<bv16> { [Word32(data, 0), Word32(data, 1)] }
  function Split64(data: bv64): seq<bv16> {
    [Word64(data, 0), Word64(data, 1), Word64(data, 2), Word64(data, 3)]
  }

  // The aligned addresses are those of the pair or quadruple the address lies in.
  lemma AlignedAddress(addr: nat)
    ensures Align(addr, 2) == addr / 2 * 2 && Align(addr, 4) == addr / 4 * 4
  {
  }

  // ---------- which accesses a transfer makes ----------

  // Whether access number i gets through: nothing is assumed about it.
  type Bus = nat -> bool

  // Accesses number from up to, not including, to all get through.
  predicate Works(bus: Bus, from: nat, to: nat) { forall m :: from <= m < to ==> bus(m) }

  // Of up to count accesses from number n on, how many succeed before one fails.
  function Done(bus: Bus, n: nat, count: nat): (done: nat)
    ensures done <= count && Works(bus, n, n + done)
    ensures done < count ==> !bus(n + done)
    decreases count
  {
    if count == 0 || !bus(n) then 0 else 1 + Done(bus, n + 1, count - 1)
  }

  // How many are made: all, or those up to and including the first failure.
  function Made(bus: Bus, n: nat, count: nat): (made: nat)
    ensures made <= count
  {
    if Done(bus, n, count) == count then count else Done(bus, n, count) + 1
  }

  lemma DoneIs(bus: Bus, n: nat, count: nat, done: nat)
    requires done <= count && Works(bus, n, n + done) && (done < count ==> !bus(n + done))
    ensures Done(bus, n, count) == done
  {
    hide Done;
  }

  // ---------- bytes in memory ----------

  // Word k of a byte buffer on the little-endian target, as the C cast reads it.
  function WordAt(bytes: seq<bv8>, k: nat): bv16
    requires 2 * k + 1 < |bytes|
  {
    JoinBytes(bytes[2 * k], bytes[2 * k + 1])
  }

  function JoinBytes(lo: bv8, hi: bv8): bv16 { (lo as bv16) | ((hi as bv16) << 8) }
  function LowHalf(w: bv16): bv8 { (w & 0xFF) as bv8 }
  function HighHalf(w: bv16): bv8 { ((w >> 8) & 0xFF) as bv8 }

  function WordsOf(bytes: seq<bv8>): (words: seq<bv16>)
    ensures |words| == |bytes| / REGIO_WORD_SIZE
  {
    seq(|bytes| / REGIO_WORD_SIZE, k requires 0 <= k < |bytes| / REGIO_WORD_SIZE => WordAt(bytes, k))
  }

  // The buffer after its first count words have been read from addr on.
  function Filled(buffer: seq<bv8>, regs: Registers, addr: int, count: nat): (bytes: seq<bv8>)
    ensures |bytes| == |buffer|
  {
    seq(|buffer|, i requires 0 <= i < |buffer| =>
          if i < REGIO_WORD_SIZE * count then
            if i % 2 == 0 then LowHalf(Reg(regs, addr + i / 2)) else HighHalf(Reg(regs, addr + i / 2))
          else buffer[i])
  }

  // The first byte in memory is the less significant one.
  lemma LowByteFirst(lo: bv8, hi: bv8)
    ensures JoinBytes(lo, hi) & 0xFF == lo as bv16 && JoinBytes(lo, hi) >> 8 == hi as bv16
  {
  }

  lemma HalvesJoin(lo: bv8, hi: bv8)
    ensures LowHalf(JoinBytes(lo, hi)) == lo && HighHalf(JoinBytes(lo, hi)) == hi
  {
  }

  class Fpga {
    var regs: Registers
    const bus: Bus
    var accesses: nat

    constructor (regs: Registers, bus: Bus)
      ensures this.regs == regs && this.bus == bus && accesses == 0
    {
      this.regs := regs;
      this.bus := bus;
      accesses := 0;
    }

    method R16(addr: int) returns (ok: bool, data: bv16)
      modifies this`accesses
      ensures ok == bus(old(accesses)) && accesses == old(accesses) + 1
      ensures ok ==> data == Reg(regs, addr)
    {
      accesses := accesses + 1;
      ok, data := bus(accesses - 1), Reg(regs, addr);
    }

    method W16(addr: int, data: bv16) returns (ok: bool)
      modifies this`accesses, this`regs
      ensures ok == bus(old(accesses)) && accesses == old(accesses) + 1
      ensures regs == if ok then Stored(old(regs), addr, [data]) else old(regs)
    {
      accesses := accesses + 1;
      ok := bus(accesses - 1);
      if ok {
        assert [data][..0] == [];
        regs := regs[Wrapped(addr) := data];
      }
    }

    method R32(addr: nat, target: bv32) returns (ok: bool, data: bv32)
      modifies this`accesses
      ensures ok <==> Done(bus, old(accesses), 2) == 2
      ensures accesses == old(accesses) + Made(bus, old(accesses), 2)
      ensures data == if ok then Join32(Reg(regs, addr / 2 * 2), Reg(regs, addr / 2 * 2 + 1)) else target
    {
      AlignedAddress(addr);
      ghost var n, done := accesses, 0;
      var a := Align(addr, 2);
      var lo, hi := 0, 0;
      data := target;
      ok, lo := R16(a);
      if ok {
        done := 1;
        ok, hi := R16(a + 1);
      }
      if ok {
        done := 2;
        data := Join32(lo, hi);
      }
      DoneIs(bus, n, 2, done);
    }

    method W32(addr: nat, data: bv32) returns (ok: bool)
      modifies this`accesses, this`regs
      ensures ok <==> Done(bus, old(accesses), 2) == 2
      ensures accesses == old(accesses) + Made(bus, old(accesses), 2)
      ensures regs == Stored(old(regs), addr / 2 * 2, Split32(data)[..Done(bus, old(accesses), 2)])
    {
      AlignedAddress(addr);
      var words := Split32(data);
      assert words[..2] == words;
      ok := WriteWords(Align(addr, 2), words);
    }

    method R64(addr: nat, target: bv64) returns (ok: bool, data: bv64)
      modifies this`accesses
      ensures ok <==> Done(bus, old(accesses), 4) == 4
      ensures accesses == old(accesses) + Made(bus, old(accesses), 4)
      ensures data == if ok then Join64(Reg(regs, addr / 4 * 4), Reg(regs, addr / 4 * 4 + 1),
                                        Reg(regs, addr / 4 * 4 + 2), Reg(regs, addr / 4 * 4 + 3))
                      else target
    {
      AlignedAddress(addr);
      ghost var n, done := accesses, 0;
      var a := Align(addr, 4);
      var w0, w1, w2, w3 := 0, 0, 0, 0;
      data := target;
      ok, w0 := R16(a);
      if ok {
        done := 1;
        ok, w1 := R16(a + 1);
      }
      if ok {
        done := 2;
        ok, w2 := R16(a + 2);
      }
      if ok {
        done := 3;
        ok, w3 := R16(a + 3);
      }
      if ok {
        done := 4;
        data := Join64(w0, w1, w2, w3);
      }
      DoneIs(bus, n, 4, done);
    }

    method W64(addr: nat, data: bv64) returns (ok: bool)
      modifies this`accesses, this`regs
      ensures ok <==> Done(bus, old(accesses), 4) == 4
      ensures accesses == old(accesses) + Made(bus, old(accesses), 4)
      ensures regs == Stored(old(regs), addr / 4 * 4, Split64(data)[..Done(bus, old(accesses), 4)])
    {
      AlignedAddress(addr);
      var words := Split64(data);
      assert words[..4] == words;
      ok := WriteWords(Align(addr, 4), words);
    }

    // fpga_w16 for word after word, given up at the first failure.
    method WriteWords(addr: int, words: seq<bv16>) returns (ok: bool)
      modifies this`accesses, this`regs
      ensures ok <==> Done(bus, old(accesses), |words|) == |words|
      ensures accesses == old(accesses) + Made(bus, old(accesses), |words|)
      ensures regs == Stored(old(regs), addr, words[..Done(bus, old(accesses), |words|)])
    {
      hide Stored, Done;
      ghost var n := accesses;
      NoneStored(regs, addr, words);
      for i := 0 to |words|
        invariant accesses == n + i && Works(bus, n, n + i)
        invariant regs == Stored(old(regs), addr, words[..i])
      {
        StoredNext(old(regs), addr, words, i);
        ok := W16(addr + i, words[i]);
        if !ok {
          DoneIs(bus, n, |words|, i);
          return false;
        }
      }
      DoneIs(bus, n, |words|, |words|);
      return true;
    }

    // size is in bytes; the guard "size % 1" never fires.
    method Read(addr: int, buffer: array<bv8>, size: nat) returns (ok: bool)
      requires size <= buffer.Length
      modifies this`accesses, buffer
      ensures ok <==> Done(bus, old(accesses), size / REGIO_WORD_SIZE) == size / REGIO_WORD_SIZE
      ensures accesses == old(accesses) + Made(bus, old(accesses), size / REGIO_WORD_SIZE)
      ensures buffer[..] == Filled(old(buffer[..]), regs, addr, Done(bus, old(accesses), size / REGIO_WORD_SIZE))
    {
      hide Done;
      var count := size / REGIO_WORD_SIZE;
      ghost var n := accesses;
      for i := 0 to count
        invariant accesses == n + i && Works(bus, n, n + i)
        invariant regs == old(regs) && buffer[..] == Filled(old(buffer[..]), regs, addr, i)
      {
        var word;
        ok, word := R16(addr + i);
        if !ok {
          DoneIs(bus, n, count, i);
          return false;
        }
        FilledNext(old(buffer[..]), regs, addr, i);
        buffer[2 * i] := LowHalf(word);
        buffer[2 * i + 1] := HighHalf(word);
      }
      DoneIs(bus, n, count, count);
      return true;
    }

    method Write(addr: int, buffer: seq<bv8>) returns (ok: bool)
      modifies this`accesses, this`regs
      ensures ok <==> Done(bus, old(accesses), |WordsOf(buffer)|) == |WordsOf(buffer)|
      ensures accesses == old(accesses) + Made(bus, old(accesses), |WordsOf(buffer)|)
      ensures regs == Stored(old(regs), addr, WordsOf(buffer)[..Done(bus, old(accesses), |WordsOf(buffer)|)])
    {
      ok := WriteWords(addr, WordsOf(buffer));
    }
  }

  lemma NoneStored(regs: Registers, addr: int, words: seq<bv16>)
    ensures Stored(regs, addr, words[..0]) == regs
  {
  }

  lemma StoredNext(regs: Registers, addr: int, words: seq<bv16>, i: nat)
    requires i < |words|
    ensures Stored(Stored(regs, addr, words[..i]), addr + i, [words[i]]) == Stored(regs, addr, words[..i + 1])
  {
    assert words[..i + 1][..i] == words[..i];
    assert [words[i]][..0] == [];
  }

  lemma FilledNext(buffer: seq<bv8>, regs: Registers, addr: int, i: nat)
    requires 2 * i + 1 < |buffer|
    ensures var word := Reg(regs, addr + i);
            Filled(buffer, regs, addr, i + 1) ==
              Filled(buffer, regs, addr, i)[2 * i := LowHalf(word)][2 * i + 1 := HighHalf(word)]
  {
    hide Reg, LowHalf, HighHalf;
    assert (2 * i) / 2 == i && (2 * i + 1) / 2 == i && (2 * i) % 2 == 0 && (2 * i + 1) % 2 == 1;
  }

  // Reading back a block gives the words written, and nothing else has changed.
  lemma {:induction false} StoredReadsBack(regs: Registers, addr: int, words: seq<bv16>, i: nat)
    requires i < |words| <= ADDR_SPACE
    ensures Reg(Stored(regs, addr, words), addr + i) == words[i]
    decreases |words|
  {
    var n := |words| - 1;
    if i == n {
    } else {
      StoredReadsBack(regs, addr, words[..n], i);
      DistinctAddresses(addr, i, n);
    }
  }

  lemma DistinctAddresses(addr: int, i: nat, j: nat)
    requires i < j < ADDR_SPACE
    ensures Wrapped(addr + i) != Wrapped(addr + j)
  {
  }

  // other is at least |words| addresses beyond addr, counted around the space.
  lemma {:induction false} StoredKeepsOthers(regs: Registers, addr: int, words: seq<bv16>, other: int)
    requires |words| <= Wrapped(other - addr)
    ensures Reg(Stored(regs, addr, words), other) == Reg(regs, other)
    decreases |words|
  {
    if words == [] {
    } else {
      var n := |words| - 1;
      StoredKeepsOthers(regs, addr, words[..n], other);
      OtherAddress(addr, n, other);
    }
  }

  lemma OtherAddress(addr: int, n: nat, other: int)
    requires n < Wrapped(other - addr)
    ensures Wrapped(addr + n) != Wrapped(other)
  {
  }

  // A 32- or 64-bit write followed by a read of the same (aligned) address.
  lemma WideRoundTrip(regs: Registers, addr: int, x: bv32, y: bv64)
    ensures var after := Stored(regs, addr, Split32(x));
            Join32(Reg(after, addr), Reg(after, addr + 1)) == x
    ensures var after := Stored(regs, addr, Split64(y));
            Join64(Reg(after, addr), Reg(after, addr + 1), Reg(after, addr + 2), Reg(after, addr + 3)) == y
  {
    hide Stored, Reg, Join32, Join64, Word32, Word64;
    StoredReadsBack(regs, addr, Split32(x), 0);
    StoredReadsBack(regs, addr, Split32(x), 1);
    StoredReadsBack(regs, addr, Split64(y), 0);
    StoredReadsBack(regs, addr, Split64(y), 1);
    StoredReadsBack(regs, addr, Split64(y), 2);
    StoredReadsBack(regs, addr, Split64(y), 3);
    Words32Join(x);
    Words64Join(y);
  }

  // ---------- round trips over the calls ----------

  method WriteThenRead32(fpga: Fpga, addr: nat, data: bv32, target: bv32) returns (ok: bool, back: bv32)
    modifies fpga
    ensures ok <==> Done(fpga.bus, old(fpga.accesses), 4) == 4
    ensures ok ==> back == data
  {
    hide Stored, Reg, Join32, Word32, Done;
    ghost var n := fpga.accesses;
    back := target;
    ok := fpga.W32(addr, data);
    if ok {
      WideRoundTrip(old(fpga.regs), addr / 2 * 2, data, 0);
      assert Split32(data)[..2] == Split32(data);
      ok, back := fpga.R32(addr, target);
    }
    DoneSplits(fpga.bus, n, 2, 2);
  }

  method WriteThenRead64(fpga: Fpga, addr: nat, data: bv64, target: bv64) returns (ok: bool, back: bv64)
    modifies fpga
    ensures ok <==> Done(fpga.bus, old(fpga.accesses), 8) == 8
    ensures ok ==> back == data
  {
    hide Stored, Reg, Join64, Word64, Done;
    ghost var n := fpga.accesses;
    back := target;
    ok := fpga.W64(addr, data);
    if ok {
      WideRoundTrip(old(fpga.regs), addr / 4 * 4, 0, data);
      assert Split64(data)[..4] == Split64(data);
      ok, back := fpga.R64(addr, target);
    }
    DoneSplits(fpga.bus, n, 4, 4);
  }

  lemma DoneSplits(bus: Bus, n: nat, a: nat, b: nat)
    ensures Done(bus, n, a + b) == a + b <==> Done(bus, n, a) == a && Done(bus, n + a, b) == b
  {
    hide Done;
    if Done(bus, n, a + b) == a + b {
      DoneIs(bus, n, a, a);
      DoneIs(bus, n + a, b, b);
    }
    if Done(bus, n, a) == a && Done(bus, n + a, b) == b {
      DoneIs(bus, n, a + b, a + b);
    }
  }

  lemma ByteComesBack(regs: Registers, addr: int, data: seq<bv8>, buffer: seq<bv8>, i: nat)
    requires |buffer| == |data| && |data| / REGIO_WORD_SIZE <= ADDR_SPACE && i < 2 * (|data| / REGIO_WORD_SIZE)
    ensures Filled(buffer, Stored(regs, addr, WordsOf(data)), addr, |data| / REGIO_WORD_SIZE)[i] == data[i]
  {
    hide Stored, Reg, JoinBytes, LowHalf, HighHalf;
    StoredReadsBack(regs, addr, WordsOf(data), i / 2);
    HalvesJoin(data[i / 2 * 2], data[i / 2 * 2 + 1]);
  }

  // A block written and read back over the same number of bytes returns whatever the
  // buffer held before if and only if the size is even: an odd last byte is lost.
  lemma BlockRoundTrip(regs: Registers, addr: int, data: seq<bv8>)
    requires |data| / REGIO_WORD_SIZE <= ADDR_SPACE
    ensures (forall buffer: seq<bv8> :: |buffer| == |data| ==>
               Filled(buffer, Stored(regs, addr, WordsOf(data)), addr, |data| / REGIO_WORD_SIZE) == data)
       <==> |data| % 2 == 0
  {
    hide Stored, Reg, WordsOf, LowHalf, HighHalf;
    var n, after := |data| / REGIO_WORD_SIZE, Stored(regs, addr, WordsOf(data));
    if |data| % 2 == 0 {
      forall buffer: seq<bv8> | |buffer| == |data| ensures Filled(buffer, after, addr, n) == data {
        forall i | 0 <= i < |data| ensures Filled(buffer, after, addr, n)[i] == data[i] {
          ByteComesBack(regs, addr, data, buffer, i);
        }
      }
    } else {
      var other: bv8 := if data[2 * n] == 0 then 1 else 0;
      assert Filled(data[2 * n := other], after, addr, n)[2 * n] == other;
    }
  }
}
