// Model of the command history of other/microrl/microrl.c: a 64-byte ring of
// length-prefixed records that may straddle the end of the buffer.
//
// The ring is proved to refine a plain queue of lines.  A zero length byte marks
// the end, but data bytes may be zero too, so only a walk over the record
// headers finds it.
module History {
  type byte = x: int | 0 <= x < 256
  type Line = seq<byte>

  const RING_HISTORY_LEN := 64
  const COMMAND_LINE_LEN := 101  // 1 + 100

  // ---------- the queue the ring stands for ----------

  predicate Storable(line: Line) { 1 <= |line| <= RING_HISTORY_LEN - 2 }

  predicate AllStorable(lines: seq<Line>) {
    forall i :: 0 <= i < |lines| ==> Storable(lines[i])
  }

  function Record(line: Line): seq<byte>
    requires Storable(line)
  {
    [|line| as byte] + line
  }

  function Encode(lines: seq<Line>): seq<byte>
    requires AllStorable(lines)
  {
    if lines == [] then [] else Record(lines[0]) + Encode(lines[1..])
  }

  // Ring bytes taken by the records.
  function Total(lines: seq<Line>): nat
    requires AllStorable(lines)
  {
    |Encode(lines)|
  }

  // One byte of the ring is kept for the end marker.
  predicate Fits(lines: seq<Line>)
    requires AllStorable(lines)
  {
    Total(lines) <= RING_HISTORY_LEN - 1
  }

  predicate HasSpace(lines: seq<Line>, len: nat)
    requires AllStorable(lines)
  {
    lines == [] || Total(lines) + len + 1 <= RING_HISTORY_LEN - 1
  }

  function Evicted(lines: seq<Line>, len: nat): (kept: seq<Line>)
    requires AllStorable(lines)
    ensures AllStorable(kept)
  {
    if HasSpace(lines, len) then lines else Evicted(lines[1..], len)
  }

  function Saved(lines: seq<Line>, line: Line): (kept: seq<Line>)
    requires AllStorable(lines) && line != []
    ensures AllStorable(kept)
  {
    if Storable(line) then Evicted(lines, |line|) + [line] else lines
  }

  // What the browse cursor shows: nothing at 0, else the cur-th most recent line.
  function Recall(lines: seq<Line>, cur: nat): Line
    requires cur <= |lines|
  {
    if cur == 0 then [] else lines[|lines| - cur]
  }

  // ---------- bytes laid out around the ring ----------

  // The code's "if (x >= LEN) x -= LEN".
  function Wrap(pos: int): int {
    if pos >= RING_HISTORY_LEN then pos - RING_HISTORY_LEN else pos
  }

  // Read circularly from pos, the buffer holds data.
  ghost predicate Holds(buffer: seq<byte>, pos: int, data: seq<byte>) {
    && |buffer| == RING_HISTORY_LEN && 0 <= pos < RING_HISTORY_LEN
    && |data| <= RING_HISTORY_LEN
    && forall i :: 0 <= i < |data| ==> buffer[Wrap(pos + i)] == data[i]
  }

  // Position p is one of the len positions from start on, read circularly.
  predicate InWindow(p: int, start: int, len: int) {
    (if p >= start then p - start else p - start + RING_HISTORY_LEN) < len
  }

  ghost predicate SameOutside(before: seq<byte>, after: seq<byte>, start: int, len: int) {
    && |before| == |after|
    && forall p :: 0 <= p < |before| && !InWindow(p, start, len) ==> after[p] == before[p]
  }

  lemma HoldsConcat(buffer: seq<byte>, pos: int, a: seq<byte>, b: seq<byte>)
    requires Holds(buffer, pos, a) && |a| + |b| <= RING_HISTORY_LEN
    requires |a| < RING_HISTORY_LEN && Holds(buffer, Wrap(pos + |a|), b)
    ensures Holds(buffer, pos, a + b)
  {
    forall i | 0 <= i < |a + b| ensures buffer[Wrap(pos + i)] == (a + b)[i] {
      if i >= |a| { assert Wrap(pos + i) == Wrap(Wrap(pos + |a|) + (i - |a|)); }
    }
  }

  lemma HoldsSplit(buffer: seq<byte>, pos: int, a: seq<byte>, b: seq<byte>)
    requires Holds(buffer, pos, a + b) && b != []
    ensures Holds(buffer, pos, a) && Holds(buffer, Wrap(pos + |a|), b)
  {
    forall i | 0 <= i < |a| ensures buffer[Wrap(pos + i)] == a[i] {
      assert (a + b)[i] == a[i];
    }
    forall i | 0 <= i < |b| ensures buffer[Wrap(Wrap(pos + |a|) + i)] == b[i] {
      assert (a + b)[|a| + i] == b[i];
    }
  }

  lemma HoldsKept(before: seq<byte>, after: seq<byte>, pos: int, data: seq<byte>, len: nat)
    requires Holds(before, pos, data) && |data| + len <= RING_HISTORY_LEN
    requires SameOutside(before, after, Wrap(pos + |data|), len)
    ensures Holds(after, pos, data)
  {
    forall i | 0 <= i < |data| ensures after[Wrap(pos + i)] == data[i] {
      assert !InWindow(Wrap(pos + i), Wrap(pos + |data|), len);
    }
  }

  lemma {:induction false} EncodeSplit(lines: seq<Line>, j: nat)
    requires AllStorable(lines) && j <= |lines|
    ensures Encode(lines) == Encode(lines[..j]) + Encode(lines[j..])
    decreases |lines|
  {
    if j == 0 {
      assert lines[..j] == [] && lines[j..] == lines;
    } else {
      var first := Record(lines[0]);
      var a, b := lines[..j][1..], lines[j..];
      EncodeSplit(lines[1..], j - 1);
      assert lines[1..][..j - 1] == a && lines[1..][j - 1..] == b;
      assert Encode(lines[1..]) == Encode(a) + Encode(b);
      assert Encode(lines[..j]) == first + Encode(a) by { assert lines[..j][0] == lines[0]; }
      assert Encode(lines) == first + Encode(lines[1..]);
      Associative(first, Encode(a), Encode(b));
    }
  }

  lemma Associative(a: seq<byte>, b: seq<byte>, c: seq<byte>)
    ensures a + (b + c) == (a + b) + c
  {
  }

  lemma EncodeLast(lines: seq<Line>, line: Line)
    requires AllStorable(lines) && Storable(line)
    ensures AllStorable(lines + [line])
    ensures Encode(lines + [line]) == Encode(lines) + Record(line)
  {
    var all := lines + [line];
    EncodeSplit(all, |lines|);
    assert all[..|lines|] == lines && all[|lines|..] == [line];
    assert Encode([line]) == Record(line) + Encode([line][1..]);
  }

  lemma HoldsHead(buffer: seq<byte>, pos: int, data: seq<byte>)
    requires Holds(buffer, pos, data) && data != []
    ensures |buffer| == RING_HISTORY_LEN && 0 <= pos < RING_HISTORY_LEN
    ensures buffer[pos] == data[0]
  {
    assert buffer[Wrap(pos + 0)] == data[0];
  }

  // The ring of these lines: records from begin on, then a zero header.
  ghost predicate Layout(buffer: seq<byte>, begin: int, lines: seq<Line>) {
    && AllStorable(lines) && Fits(lines)
    && Holds(buffer, begin, Encode(lines) + [0])
  }

  function HeaderValue(lines: seq<Line>, j: nat): nat
    requires j <= |lines|
  {
    if j < |lines| then |lines[j]| else 0
  }

  // What a walk over the headers finds at record j, or at the end marker.
  lemma HeaderAt(buffer: seq<byte>, begin: int, lines: seq<Line>, j: nat)
    requires Layout(buffer, begin, lines) && j <= |lines|
    ensures Total(lines[..j]) <= Total(lines)
    ensures var header := Wrap(begin + Total(lines[..j]));
            && Layout(buffer, header, lines[j..])
            && |buffer| == RING_HISTORY_LEN && 0 <= header < RING_HISTORY_LEN
            && buffer[header] == HeaderValue(lines, j)
  {
    hide Holds, Encode;
    EncodeSplit(lines, j);
    var header := Wrap(begin + Total(lines[..j]));
    var tail := Encode(lines[j..]) + [0];
    Associative(Encode(lines[..j]), Encode(lines[j..]), [0]);
    HoldsSplit(buffer, begin, Encode(lines[..j]), tail);
    HoldsHead(buffer, header, tail);
    TailHead(lines, j);
  }

  lemma TailHead(lines: seq<Line>, j: nat)
    requires AllStorable(lines) && j <= |lines|
    ensures (Encode(lines[j..]) + [0])[0] == HeaderValue(lines, j)
  {
    if j == |lines| {
      assert Encode(lines[j..]) == [];
    } else {
      assert Encode(lines[j..])[0] == |lines[j]|;
    }
  }

  lemma TotalStep(lines: seq<Line>, j: nat)
    requires AllStorable(lines) && j < |lines|
    ensures Total(lines[..j + 1]) == Total(lines[..j]) + 1 + |lines[j]|
  {
    EncodeLast(lines[..j], lines[j]);
    assert lines[..j] + [lines[j]] == lines[..j + 1];
  }

  lemma FirstRecord(buffer: seq<byte>, begin: int, lines: seq<Line>)
    requires Layout(buffer, begin, lines) && lines != []
    ensures Holds(buffer, begin, Record(lines[0]))
    ensures AllStorable(lines[1..]) && Fits(lines[1..])
    ensures Layout(buffer, Wrap(begin + 1 + |lines[0]|), lines[1..])
    ensures Total(lines) == 1 + |lines[0]| + Total(lines[1..])
  {
    hide Holds;
    var rest := Encode(lines[1..]) + [0];
    assert Encode(lines) + [0] == Record(lines[0]) + rest;
    HoldsSplit(buffer, begin, Record(lines[0]), rest);
  }

  lemma AppendRecord(before: seq<byte>, after: seq<byte>, begin: int, lines: seq<Line>, line: Line)
    requires Layout(before, begin, lines) && Storable(line)
    requires Total(lines) + |line| + 1 <= RING_HISTORY_LEN - 1
    requires var end := Wrap(begin + Total(lines));
             && Holds(after, end, Record(line) + [0])
             && SameOutside(before, after, end, |line| + 2)
    ensures Layout(after, begin, lines + [line])
    ensures Total(lines + [line]) == Total(lines) + |line| + 1
  {
    hide Holds, SameOutside, Encode;
    var body := Encode(lines);
    HoldsSplit(before, begin, body, [0]);
    HoldsKept(before, after, begin, body, |line| + 2);
    HoldsConcat(after, begin, body, Record(line) + [0]);
    EncodeLast(lines, line);
    assert Encode(lines + [line]) + [0] == body + (Record(line) + [0]);
  }

  method CopyBytes(dst: array<byte>, to: nat, src: array<byte>, from: nat, len: nat)
    requires dst != src && to + len <= dst.Length && from + len <= src.Length
    modifies dst
    ensures forall i :: 0 <= i < dst.Length ==>
              dst[i] == if to <= i < to + len then src[from + (i - to)] else old(dst[i])
  {
    for k := 0 to len
      invariant forall i :: 0 <= i < dst.Length ==>
                  dst[i] == if to <= i < to + k then src[from + (i - to)] else old(dst[i])
    {
      dst[to + k] := src[from + k];
    }
  }

  method ZeroBytes(dst: array<byte>)
    modifies dst
    ensures forall i :: 0 <= i < dst.Length ==> dst[i] == 0
  {
    for k := 0 to dst.Length
      invariant forall i :: 0 <= i < k ==> dst[i] == 0
    {
      dst[k] := 0;
    }
  }

  // ---------- the ring ----------

  class RingHistory {
    const ring: array<byte>
    var begin: int
    var end: int
    var cur: int
    ghost var lines: seq<Line>

    ghost predicate ValidRing()
      reads this, ring
    {
      && ring.Length == RING_HISTORY_LEN
      && AllStorable(lines) && Fits(lines)
      && Layout(ring[..], begin, lines)
      && end == Wrap(begin + Total(lines))
    }

    ghost predicate Valid()
      reads this, ring
    {
      ValidRing() && 0 <= cur <= |lines|
    }

    // header is where record j starts, or the end marker when j is the record count.
    ghost predicate AtHeader(header: int, j: int)
      reads this, ring
      requires ValidRing()
    {
      && 0 <= j <= |lines| && 0 <= header < RING_HISTORY_LEN
      && header == Wrap(begin + Total(lines[..j]))
      && ring[header] == HeaderValue(lines, j)
    }

    constructor ()
      ensures Valid() && fresh(ring) && lines == [] && cur == 0
    {
      ring := new byte[RING_HISTORY_LEN](_ => 0);
      begin, end, cur := 0, 0, 0;
      lines := [];
    }

    lemma FirstHeader()
      requires ValidRing()
      ensures AtHeader(begin, 0)
    {
      HeaderAt(ring[..], begin, lines, 0);
      assert lines[..0] == [] && Total([]) == 0;
    }

    method EraseOlder()
      requires ValidRing() && lines != []
      modifies this`begin, this`lines
      ensures ValidRing() && lines == old(lines)[1..]
    {
      hide Layout, Encode, AllStorable;
      FirstHeader();
      FirstRecord(ring[..], begin, lines);
      var newPos := begin + ring[begin] + 1;
      if newPos >= RING_HISTORY_LEN {
        newPos := newPos - RING_HISTORY_LEN;
      }
      begin := newPos;
      lines := lines[1..];
    }

    method IsSpaceForNew(len: nat) returns (space: bool)
      requires ValidRing()
      ensures space <==> HasSpace(lines, len)
    {
      FirstHeader();
      if ring[begin] == 0 {
        return true;
      }
      if end >= begin {
        if RING_HISTORY_LEN - end + begin - 1 > len {
          return true;
        }
      } else {
        if begin - end - 1 > len {
          return true;
        }
      }
      return false;
    }

    // Called by the editor for nonempty command lines only.
    method SaveLine(line: array<byte>, len: nat)
      requires ValidRing() && line != ring && 0 < len <= line.Length
      modifies this, ring
      ensures ValidRing()
      ensures lines == Saved(old(lines), line[..len])
      ensures cur == if Storable(line[..len]) then 0 else old(cur)
    {
      if len > RING_HISTORY_LEN - 2 {
        return;
      }
      var space := IsSpaceForNew(len);
      while !space
        invariant ValidRing() && space == HasSpace(lines, len)
        invariant Evicted(lines, len) == Evicted(old(lines), len)
        invariant ring[..] == old(ring[..])
        decreases |lines|, !space
      {
        EraseOlder();
        space := IsSpaceForNew(len);
      }
      Append(line, len);
    }

    // The rest of hist_save_line, once there is room for the line.
    method Append(line: array<byte>, len: nat)
      requires ValidRing() && line != ring && 0 < len <= line.Length
      requires Storable(line[..len]) && HasSpace(lines, len)
      modifies this, ring
      ensures ValidRing()
      ensures lines == old(lines) + [line[..len]] && cur == 0
    {
      hide Layout;
      ghost var before, text := ring[..], line[..len];
      FirstHeader();
      if ring[begin] == 0 {
        assert end == begin;
        ring[begin] := len;
      }
      assert SameOutside(before, ring[..], end, len + 2);
      PutRecord(line, len);
      cur := 0;
      assert SameOutside(before, ring[..], old(end), len + 2);
      AppendRecord(before, ring[..], begin, lines, text);
      lines := lines + [text];
    }

    // The "store line" part of hist_save_line: data, header, new end marker.
    method PutRecord(line: array<byte>, len: nat)
      requires ring.Length == RING_HISTORY_LEN && 0 <= end < RING_HISTORY_LEN
      requires line != ring && len <= line.Length && Storable(line[..len])
      modifies this`end, ring
      ensures end == Wrap(old(end) + len + 1)
      ensures Holds(ring[..], old(end), Record(line[..len]) + [0])
      ensures SameOutside(old(ring[..]), ring[..], old(end), len + 2)
    {
      PutData(line, len);
      ring[end] := len;
      end := end + len + 1;
      if end >= RING_HISTORY_LEN {
        end := end - RING_HISTORY_LEN;
      }
      ring[end] := 0;
    }

    method PutData(line: array<byte>, len: nat)
      requires ring.Length == RING_HISTORY_LEN && 0 <= end < RING_HISTORY_LEN
      requires line != ring && len <= line.Length && Storable(line[..len])
      modifies ring
      ensures forall i :: 0 <= i < len ==> ring[Wrap(old(end) + 1 + i)] == line[i]
      ensures SameOutside(old(ring[..]), ring[..], old(end), len + 2)
    {
      if len < RING_HISTORY_LEN - end - 1 {
        CopyBytes(ring, end + 1, line, 0, len);
      } else {
        var partLen := RING_HISTORY_LEN - end - 1;
        CopyBytes(ring, end + 1, line, 0, partLen);
        CopyBytes(ring, 0, line, partLen, len - partLen);
      }
    }

    // Copies the line the cursor moves to; -1 when there is no older line.
    method RestoreLine(line: array<byte>, up: bool) returns (len: int)
      requires Valid() && line != ring && line.Length == COMMAND_LINE_LEN
      modifies this`cur, line
      ensures Valid()
      ensures up && old(cur) == |lines| ==>
                len == -1 && cur == old(cur) && line[..] == old(line[..])
      ensures up && old(cur) < |lines| ==> cur == old(cur) + 1
      ensures !up ==> cur == if old(cur) > 0 then old(cur) - 1 else 0
      ensures !(up && old(cur) == |lines|) ==>
                len == |Recall(lines, cur)| && line[..len] == Recall(lines, cur)
      ensures len <= RING_HISTORY_LEN - 2
      ensures up && old(cur) < |lines| ==> forall i :: len <= i < line.Length ==> line[i] == 0
      ensures !up ==> forall i :: len <= i < line.Length ==> line[i] == old(line[i])
    {
      hide Layout;
      var cnt := CountRecords();
      if up {
        if cnt >= cur {
          ghost var j;
          var header;
          header, j := Seek(cnt, cur + 1);
          if ring[header] != 0 {
            cur := cur + 1;
            ZeroBytes(line);
            CopyRecord(line, header, j);
            return ring[header];
          }
        }
      } else {
        if cur > 0 {
          cur := cur - 1;
          ghost var j;
          var header;
          header, j := Seek(cnt, cur);
          CopyRecord(line, header, j);
          return ring[header];
        } else {
          return 0;
        }
      }
      return -1;
    }

    // The first header walk: count the records.
    method CountRecords() returns (cnt: nat)
      requires ValidRing()
      ensures cnt == |lines|
    {
      hide Layout;
      cnt := 0;
      var header := begin;
      FirstHeader();
      while ring[header] != 0
        invariant AtHeader(header, cnt)
        decreases |lines| - cnt
      {
        header := NextHeader(header, cnt);
        cnt := cnt + 1;
      }
    }

    // The second header walk: the record that is the back-th most recent.  Both
    // directions use it; it ends at the end marker when there is no such record.
    method Seek(cnt: nat, back: nat) returns (header: int, ghost j: nat)
      requires ValidRing() && cnt == |lines|
      ensures AtHeader(header, j)
      ensures j == if 1 <= back <= cnt then cnt - back else cnt
    {
      hide Layout;
      header, j := begin, 0;
      FirstHeader();
      var i := 0;
      while ring[header] != 0 && cnt - i != back
        invariant AtHeader(header, j) && i == j
        invariant back <= cnt ==> j <= cnt - back
        decreases cnt - i
      {
        header := NextHeader(header, j);
        j := j + 1;
        i := i + 1;
      }
    }

    // The three lines every header walk of hist_restore_line repeats.
    method NextHeader(header: int, ghost j: int) returns (next: int)
      requires ValidRing() && AtHeader(header, j) && j < |lines|
      ensures AtHeader(next, j + 1)
    {
      HeaderAt(ring[..], begin, lines, j + 1);
      TotalStep(lines, j);
      next := header + ring[header] + 1;
      if next >= RING_HISTORY_LEN {
        next := next - RING_HISTORY_LEN;
      }
    }

    // The memcpy calls of hist_restore_line for the record (or end marker) at header.
    method CopyRecord(line: array<byte>, header: int, ghost j: int)
      requires ValidRing() && AtHeader(header, j)
      requires line != ring && line.Length == COMMAND_LINE_LEN
      modifies line
      ensures ring[header] <= RING_HISTORY_LEN - 2
      ensures line[..ring[header]] == if j < |lines| then lines[j] else []
      ensures forall i :: ring[header] <= i < line.Length ==> line[i] == old(line[i])
    {
      ghost var text: Line := if j < |lines| then lines[j] else [];
      RecordBytes(header, j);
      if ring[header] + header < RING_HISTORY_LEN {
        CopyBytes(line, 0, ring, header + 1, ring[header]);
      } else {
        var part0 := RING_HISTORY_LEN - header - 1;
        CopyBytes(line, 0, ring, header + 1, part0);
        CopyBytes(line, part0, ring, 0, ring[header] - part0);
      }
      assert line[..ring[header]] == text;
    }

    lemma RecordBytes(header: int, j: int)
      requires ValidRing() && AtHeader(header, j)
      ensures j < |lines| ==> Storable(lines[j])
      ensures j < |lines| ==>
                forall i :: 0 <= i < |lines[j]| ==> ring[Wrap(header + 1 + i)] == lines[j][i]
    {
      if j < |lines| {
        HeaderAt(ring[..], begin, lines, j);
        FirstRecord(ring[..], header, lines[j..]);
        forall i | 0 <= i < |lines[j]| ensures ring[Wrap(header + 1 + i)] == lines[j][i] {
          assert Record(lines[j])[1 + i] == lines[j][i];
        }
      }
    }
  }

  // ---------- what the ring holds after any sequence of saves ----------

  // The bytes alone determine the queue: zero data bytes cause no ambiguity.
  lemma {:induction false} LayoutUnique(buffer: seq<byte>, begin: int, a: seq<Line>, b: seq<Line>)
    requires Layout(buffer, begin, a) && Layout(buffer, begin, b)
    ensures a == b
    decreases |a|
  {
    HeaderAt(buffer, begin, a, 0);
    HeaderAt(buffer, begin, b, 0);
    assert a[..0] == [] && b[..0] == [];
    EmptyTotal();
    HoldsHead(buffer, begin, Encode(a) + [0]);
    assert HeaderValue(a, 0) == HeaderValue(b, 0);
    if a != [] && b != [] {
      FirstRecord(buffer, begin, a);
      FirstRecord(buffer, begin, b);
      assert |a[0]| == |b[0]|;
      forall i | 0 <= i < |a[0]| ensures a[0][i] == b[0][i] {
        assert Record(a[0])[1 + i] == a[0][i] && Record(b[0])[1 + i] == b[0][i];
      }
      assert a[0] == b[0];
      LayoutUnique(buffer, Wrap(begin + 1 + |a[0]|), a[1..], b[1..]);
      assert a == [a[0]] + a[1..] && b == [b[0]] + b[1..];
    }
  }

  function SaveAll(lines: seq<Line>): (kept: seq<Line>)
    requires forall i :: 0 <= i < |lines| ==> lines[i] != []
    ensures AllStorable(kept)
  {
    if lines == [] then []
    else Saved(SaveAll(lines[..|lines| - 1]), lines[|lines| - 1])
  }

  function Accepted(lines: seq<Line>): (accepted: seq<Line>)
    ensures AllStorable(accepted)
  {
    if lines == [] then []
    else
      var before := Accepted(lines[..|lines| - 1]);
      if Storable(lines[|lines| - 1]) then before + [lines[|lines| - 1]] else before
  }

  function Suffix(lines: seq<Line>, n: nat): seq<Line>
    requires n <= |lines|
  {
    lines[|lines| - n..]
  }

  ghost predicate LongestFit(kept: seq<Line>, accepted: seq<Line>)
    requires AllStorable(accepted)
  {
    && |kept| <= |accepted| && kept == Suffix(accepted, |kept|) && Fits(kept)
    && forall n :: |kept| < n <= |accepted| ==> !Fits(Suffix(accepted, n))
  }

  function TotalLength(lines: seq<Line>): nat {
    if lines == [] then 0 else TotalLength(lines[..|lines| - 1]) + |lines[|lines| - 1]| + 1
  }

  // Lines of 1 to 62 bytes are accepted, and fit when their lengths plus one each total
  // at most 63.
  lemma {:induction false} FitsMeans(lines: seq<Line>)
    requires AllStorable(lines)
    ensures Total(lines) == TotalLength(lines) && (Fits(lines) <==> TotalLength(lines) <= 63)
    ensures forall i :: 0 <= i < |lines| ==> 1 <= |lines[i]| <= 62
    decreases |lines|
  {
    hide Encode;
    if lines == [] {
      EmptyTotal();
    } else {
      var n := |lines| - 1;
      FitsMeans(lines[..n]);
      EncodeLast(lines[..n], lines[n]);
      assert lines == lines[..n] + [lines[n]];
    }
  }

  lemma StorableMeans(line: Line)
    ensures Storable(line) <==> 1 <= |line| <= 62
  {
  }

  // Main result: the ring always holds the longest run of the most recently
  // accepted lines that fits its 63 usable bytes.
  lemma {:induction false} HistoryIsLongestFit(lines: seq<Line>)
    requires forall i :: 0 <= i < |lines| ==> lines[i] != []
    ensures LongestFit(SaveAll(lines), Accepted(lines))
    decreases |lines|
  {
    if lines == [] {
    } else {
      var before, line := lines[..|lines| - 1], lines[|lines| - 1];
      HistoryIsLongestFit(before);
      if Storable(line) {
        SaveKeepsLongestFit(SaveAll(before), Accepted(before), line);
      }
    }
  }

  lemma SaveKeepsLongestFit(kept: seq<Line>, accepted: seq<Line>, line: Line)
    requires AllStorable(accepted) && LongestFit(kept, accepted) && Storable(line)
    ensures LongestFit(Saved(kept, line), accepted + [line])
  {
    hide Evicted, Fits, HasSpace;
    var left := Evicted(kept, |line|);
    var all := accepted + [line];
    EvictedIsMaximal(kept, |line|);
    EvictedFits(kept, line);
    assert Saved(kept, line) == left + [line] == Suffix(all, |left| + 1);
    forall n | |left| + 1 < n <= |all| ensures !Fits(Suffix(all, n)) {
      LongerDoesNotFit(kept, accepted, line, n - 1);
      assert Suffix(all, n) == Suffix(accepted, n - 1) + [line];
    }
  }

  lemma EvictedFits(lines: seq<Line>, line: Line)
    requires AllStorable(lines) && Storable(line)
    ensures Fits(Evicted(lines, |line|) + [line])
  {
    hide Evicted;
    var left := Evicted(lines, |line|);
    EvictedIsMaximal(lines, |line|);
    EncodeLast(left, line);
  }

  lemma LongerDoesNotFit(kept: seq<Line>, accepted: seq<Line>, line: Line, n: nat)
    requires AllStorable(accepted) && LongestFit(kept, accepted) && Storable(line)
    requires |Evicted(kept, |line|)| < n <= |accepted|
    ensures !Fits(Suffix(accepted, n) + [line])
  {
    hide Encode, Evicted;
    var older := Suffix(accepted, n);
    EvictedIsMaximal(kept, |line|);
    EncodeLast(older, line);
    if n <= |kept| {
      assert older == Suffix(kept, n);
    } else {
      assert !Fits(older);
    }
  }

  lemma EmptyTotal()
    ensures Encode([]) == []
  {
  }

  // Eviction stops at the first suffix with room: every longer one has none.
  lemma {:induction false} EvictedIsMaximal(lines: seq<Line>, len: nat)
    requires AllStorable(lines)
    ensures var left := Evicted(lines, len);
            && |left| <= |lines| && left == Suffix(lines, |left|) && HasSpace(left, len)
            && forall n :: |left| < n <= |lines| ==> !HasSpace(Suffix(lines, n), len)
    decreases |lines|
  {
    hide Encode, HasSpace;
    assert HasSpace([], len) by { EmptyHasSpace(len); }
    if !HasSpace(lines, len) {
      EvictedIsMaximal(lines[1..], len);
      forall n | |Evicted(lines, len)| < n <= |lines|
        ensures !HasSpace(Suffix(lines, n), len)
      {
        if n < |lines| {
          assert Suffix(lines, n) == Suffix(lines[1..], n);
        } else {
          assert Suffix(lines, n) == lines;
        }
      }
    }
  }

  lemma EmptyHasSpace(len: nat)
    ensures HasSpace([], len)
  {
  }
}
