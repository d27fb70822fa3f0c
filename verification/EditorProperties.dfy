// What the microrl editor guarantees over whole key sequences.
module EditorProperties {
  import opened History
  import opened CommandLine

  // ---------- runs of keys ----------

  function PressAll(e: Editor, keys: seq<int>): (after: Editor)
    requires e.Ok()
    ensures after.Ok()
  {
    if keys == [] then e else Press(PressAll(e, keys[..|keys| - 1]), keys[|keys| - 1])
  }

  // The nonempty lines entered by these keys, in order.
  function Entered(e: Editor, keys: seq<int>): (texts: seq<Line>)
    requires e.Ok()
    ensures forall i :: 0 <= i < |texts| ==> texts[i] != []
  {
    if keys == [] then []
    else
      var n := |keys| - 1;
      var before := PressAll(e, keys[..n]);
      var texts := Entered(e, keys[..n]);
      if !before.escape && keys[n] == KEY_LF && before.Text() != [] then texts + [before.Text()] else texts
  }

  lemma LinesChangeOnEnterOnly(e: Editor, ch: int)
    requires e.Ok()
    ensures Press(e, ch).lines ==
              if !e.escape && ch == KEY_LF && e.Text() != [] then Saved(e.lines, e.Text()) else e.lines
  {
    hide Saved, Fits, AllStorable;
    EraseKeepsRest(e);
  }

  lemma {:induction false} EraseKeepsRest(e: Editor)
    requires e.tail != []
    ensures EraseLeft(e) == e.(left := [], tail := EraseLeft(e).tail)
    decreases |e.left|
  {
    if e.left == [] {
    } else {
      EraseKeepsRest(Backspace(e));
    }
  }

  // Main result: after any keys whatsoever the history is the longest run of the
  // most recently entered, storable lines that fits the ring.
  lemma {:induction false} HistoryAfterAnyKeys(keys: seq<int>)
    ensures PressAll(START, keys).lines == SaveAll(Entered(START, keys))
    ensures LongestFit(PressAll(START, keys).lines, Accepted(Entered(START, keys)))
    decreases |keys|
  {
    hide Press, Saved, LongestFit, Accepted;
    if keys == [] {
    } else {
      var n := |keys| - 1;
      HistoryAfterAnyKeys(keys[..n]);
      LinesChangeOnEnterOnly(PressAll(START, keys[..n]), keys[n]);
      var texts := Entered(START, keys);
      if texts != Entered(START, keys[..n]) {
        assert texts[..|texts| - 1] == Entered(START, keys[..n]);
      }
    }
    HistoryIsLongestFit(Entered(START, keys));
  }

  // ---------- browsing ----------

  function BrowseAll(e: Editor, moves: seq<bool>): (after: Editor)
    requires e.Ok()
    ensures after.Ok()
  {
    if moves == [] then e
    else
      var before := BrowseAll(e, moves[..|moves| - 1]);
      SearchKeepsOk(before, moves[|moves| - 1]);
      HistSearch(before, moves[|moves| - 1])
  }

  // The cursor walks over 0..n and stays at the ends.
  function Walk(n: nat, cur: nat, moves: seq<bool>): nat {
    if moves == [] then cur
    else
      var before := Walk(n, cur, moves[..|moves| - 1]);
      if moves[|moves| - 1] then (if before < n then before + 1 else before)
      else if before > 0 then before - 1 else 0
  }

  // Some of the moves was not an up at the oldest line.
  predicate Moved(n: nat, cur: nat, moves: seq<bool>) {
    moves != [] &&
    (Moved(n, cur, moves[..|moves| - 1]) || !(moves[|moves| - 1] && Walk(n, cur, moves[..|moves| - 1]) == n))
  }

  // After any ups and downs from anywhere: unless every one was an up at the oldest
  // line, which changes nothing, the text is the cur-th most recent line (empty at 0).
  lemma {:induction false} BrowsingShowsLine(e: Editor, moves: seq<bool>)
    requires e.Ok()
    ensures var after := BrowseAll(e, moves);
            && after.lines == e.lines && after.cur == Walk(|e.lines|, e.cur, moves) <= |e.lines|
            && (if Moved(|e.lines|, e.cur, moves) then after.left == Recall(e.lines, after.cur) && after.right == []
                else after == e)
    decreases |moves|
  {
    hide Fits, AllStorable, Zeros;
    if moves == [] {
    } else {
      var n := |moves| - 1;
      BrowsingShowsLine(e, moves[..n]);
      Searched(BrowseAll(e, moves[..n]), moves[n]);
    }
  }

  // The keys that browse, and what the terminal sends for them.
  datatype BrowseKey = ArrowUp | ArrowDown | CtrlP | CtrlN {
    predicate Up() { ArrowUp? || CtrlP? }

    predicate Arrow() { ArrowUp? || ArrowDown? }

    function Codes(): seq<int> {
      match this
      case ArrowUp => [27, 91, 65]
      case ArrowDown => [27, 91, 66]
      case CtrlP => [16]
      case CtrlN => [14]
    }
  }

  function Typed(keys: seq<BrowseKey>): seq<int> {
    if keys == [] then [] else Typed(keys[..|keys| - 1]) + keys[|keys| - 1].Codes()
  }

  function Directions(keys: seq<BrowseKey>): (moves: seq<bool>)
    ensures |moves| == |keys|
  {
    if keys == [] then [] else Directions(keys[..|keys| - 1]) + [keys[|keys| - 1].Up()]
  }

  // The sequence state an arrow key leaves behind.
  function Sequence(start: EscapeSeq, keys: seq<BrowseKey>): EscapeSeq {
    if keys == [] then start
    else if keys[|keys| - 1].Arrow() then Bracket else Sequence(start, keys[..|keys| - 1])
  }

  // Arrow keys (ESC [ A and ESC [ B) and ^P/^N all are one history step.
  lemma UpAndDownKeys(e: Editor)
    requires e.Ok() && !e.escape
    ensures Press(e, KEY_DLE) == HistSearch(e, true) && Press(e, KEY_SO) == HistSearch(e, false)
    ensures PressAll(e, [KEY_ESC, 91, 65]) == HistSearch(e, true).(escapeSeq := Bracket)
    ensures PressAll(e, [KEY_ESC, 91, 66]) == HistSearch(e, false).(escapeSeq := Bracket)
  {
    hide HistSearch, Fits, AllStorable, PressAll, Press;
    ThreeKeys(e, KEY_ESC, 91, 65);
    ThreeKeys(e, KEY_ESC, 91, 66);
    HistoryKeys(e);
    SearchIgnoresEscape(e, true);
    SearchIgnoresEscape(e, false);
  }

  lemma HistoryKeys(e: Editor)
    requires e.Ok() && !e.escape
    ensures Press(e, KEY_DLE) == HistSearch(e, true) && Press(e, KEY_SO) == HistSearch(e, false)
    ensures var inside := e.(escape := true, escapeSeq := Bracket);
            && inside.Ok() && Press(Press(e, KEY_ESC), 91) == inside
            && Press(inside, 65) == HistSearch(inside, true).(escape := false)
            && Press(inside, 66) == HistSearch(inside, false).(escape := false)
  {
    hide HistSearch, Fits, AllStorable, NewLine, MoveLeft, MoveRight, ToStart, ToEnd;
    EscapeKeys(e);
  }

  lemma EscapeKeys(e: Editor)
    requires e.Ok() && !e.escape
    ensures Press(e, KEY_ESC) == e.(escape := true)
    ensures e.(escape := true).Ok()
    ensures Press(e.(escape := true), 91) == e.(escape := true, escapeSeq := Bracket)
  {
    hide HistSearch, Fits, AllStorable, NewLine, MoveLeft, MoveRight, ToStart, ToEnd;
  }

  lemma SearchIgnoresEscape(e: Editor, up: bool)
    requires e.Ok() && !e.escape
    ensures var inside := e.(escape := true, escapeSeq := Bracket);
            && inside.Ok()
            && HistSearch(inside, up).(escape := false) == HistSearch(e, up).(escapeSeq := Bracket)
  {
    hide Fits;
  }

  lemma {:induction false} PressAppend(e: Editor, a: seq<int>, b: seq<int>)
    requires e.Ok()
    ensures PressAll(e, a + b) == PressAll(PressAll(e, a), b)
    decreases |b|
  {
    hide Press;
    if b == [] {
      assert a + b == a;
    } else {
      var n := |b| - 1;
      assert (a + b)[..|a + b| - 1] == a + b[..n];
      PressAppend(e, a, b[..n]);
    }
  }

  lemma OneBrowseKey(e: Editor, key: BrowseKey)
    requires e.Ok() && !e.escape
    ensures PressAll(e, key.Codes()) ==
              HistSearch(e, key.Up()).(escapeSeq := if key.Arrow() then Bracket else e.escapeSeq)
  {
    hide HistSearch, Press;
    UpAndDownKeys(e);
    SearchKeepsEscape(e, key.Up());
    assert PressAll(e, [KEY_DLE]) == Press(e, KEY_DLE) && PressAll(e, [KEY_SO]) == Press(e, KEY_SO) by {
      assert [KEY_DLE][..0] == [] && [KEY_SO][..0] == [];
    }
  }

  lemma SearchKeepsEscape(e: Editor, up: bool)
    requires e.Ok()
    ensures HistSearch(e, up).escape == e.escape && HistSearch(e, up).escapeSeq == e.escapeSeq
    ensures forall q :: e.(escapeSeq := q).Ok() && HistSearch(e.(escapeSeq := q), up) == HistSearch(e, up).(escapeSeq := q)
  {
    hide Fits;
  }

  // Any browsing keys amount to their ups and downs.
  lemma {:induction false} KeysBrowse(e: Editor, keys: seq<BrowseKey>)
    requires e.Ok() && !e.escape
    ensures PressAll(e, Typed(keys)) == BrowseAll(e, Directions(keys)).(escapeSeq := Sequence(e.escapeSeq, keys))
    ensures !BrowseAll(e, Directions(keys)).escape && BrowseAll(e, Directions(keys)).escapeSeq == e.escapeSeq
    decreases |keys|
  {
    hide HistSearch, Press;
    if keys == [] {
    } else {
      var n := |keys| - 1;
      var before := BrowseAll(e, Directions(keys)[..n]);
      assert Directions(keys)[..n] == Directions(keys[..n]);
      KeysBrowse(e, keys[..n]);
      SearchKeepsEscape(before, keys[n].Up());
      PressAppend(e, Typed(keys[..n]), keys[n].Codes());
      OneBrowseKey(PressAll(e, Typed(keys[..n])), keys[n]);
    }
  }

  // Main result: after any mix of arrow keys and ^P/^N, from any state outside an
  // escape sequence, cur is the clamped walk and the text is the cur-th most recent
  // line (empty at 0); keys that were all ups at the oldest line change nothing.
  lemma BrowsingShowsHistory(e: Editor, keys: seq<BrowseKey>)
    requires e.Ok() && !e.escape
    ensures var after, moves := PressAll(e, Typed(keys)), Directions(keys);
            && after.lines == e.lines && after.cur == Walk(|e.lines|, e.cur, moves) <= |e.lines| && !after.escape
            && (if Moved(|e.lines|, e.cur, moves) then after.left == Recall(e.lines, after.cur) && after.right == []
                else after == e.(escapeSeq := after.escapeSeq))
  {
    hide PressAll, BrowseAll;
    BrowsingShowsLine(e, Directions(keys));
    KeysBrowse(e, keys);
  }

  lemma ThreeKeys(e: Editor, a: int, b: int, c: int)
    requires e.Ok()
    ensures PressAll(e, [a, b, c]) == Press(Press(Press(e, a), b), c)
  {
    hide Press;
    assert [a, b, c][..2] == [a, b] && [a, b][..1] == [a] && [a][..0] == [];
    assert PressAll(e, [a]) == Press(e, a);
    assert PressAll(e, [a, b]) == Press(Press(e, a), b);
  }

  // ---------- the text does not depend on what lies behind it ----------

  predicate SameButTail(a: Editor, b: Editor) {
    a.(tail := []) == b.(tail := [])
  }

  lemma TextIgnoresTail(a: Editor, b: Editor, ch: int)
    requires a.Ok() && b.Ok() && SameButTail(a, b)
    ensures SameButTail(Press(a, ch), Press(b, ch))
  {
    if a.escape {
      SequenceIgnoresTail(a, b, ch);
    } else {
      KeyIgnoresTail(a, b, ch);
    }
  }

  lemma SequenceIgnoresTail(a: Editor, b: Editor, ch: int)
    requires a.Ok() && b.Ok() && SameButTail(a, b) && a.escape
    ensures SameButTail(Press(a, ch), Press(b, ch))
  {
    hide MoveRight, MoveLeft, ToStart, ToEnd, HistSearch, Fits, AllStorable;
    MovesIgnoreTail(a, b);
    SearchIgnoresTail(a, b, true);
    SearchIgnoresTail(a, b, false);
  }

  lemma KeyIgnoresTail(a: Editor, b: Editor, ch: int)
    requires a.Ok() && b.Ok() && SameButTail(a, b) && !a.escape
    ensures SameButTail(Press(a, ch), Press(b, ch))
  {
    hide Backspace, EraseLeft, KillRight, Insert, MoveRight, MoveLeft, ToStart, ToEnd,
         HistSearch, NewLine, EscapeProcess, Fits, AllStorable;
    PartsIgnoreTail(a, b, LowByte(ch));
    SearchIgnoresTail(a, b, true);
    SearchIgnoresTail(a, b, false);
  }

  lemma PartsIgnoreTail(a: Editor, b: Editor, c: byte)
    requires a.Ok() && b.Ok() && SameButTail(a, b)
    ensures SameButTail(Backspace(a), Backspace(b)) && SameButTail(EraseLeft(a), EraseLeft(b))
    ensures SameButTail(KillRight(a), KillRight(b)) && SameButTail(Insert(a, [c]), Insert(b, [c]))
    ensures SameButTail(MoveRight(a), MoveRight(b)) && SameButTail(MoveLeft(a), MoveLeft(b))
    ensures SameButTail(ToStart(a), ToStart(b)) && SameButTail(ToEnd(a), ToEnd(b))
    ensures SameButTail(NewLine(a), NewLine(b))
  {
    hide Backspace, EraseLeft, KillRight, Insert, MoveRight, MoveLeft, ToStart, ToEnd, NewLine, Fits, AllStorable;
    EditsIgnoreTail(a, b, c);
    MovesIgnoreTail(a, b);
    NewLineIgnoresTail(a, b);
  }

  lemma EditsIgnoreTail(a: Editor, b: Editor, c: byte)
    requires a.Ok() && b.Ok() && SameButTail(a, b)
    ensures SameButTail(Backspace(a), Backspace(b)) && SameButTail(EraseLeft(a), EraseLeft(b))
    ensures SameButTail(KillRight(a), KillRight(b)) && SameButTail(Insert(a, [c]), Insert(b, [c]))
  {
    hide Fits, AllStorable, EraseLeft, Stored;
    EraseKeepsRest(a);
    EraseKeepsRest(b);
  }

  lemma MovesIgnoreTail(a: Editor, b: Editor)
    requires SameButTail(a, b)
    ensures SameButTail(MoveRight(a), MoveRight(b)) && SameButTail(MoveLeft(a), MoveLeft(b))
    ensures SameButTail(ToStart(a), ToStart(b)) && SameButTail(ToEnd(a), ToEnd(b))
  {
  }

  lemma NewLineIgnoresTail(a: Editor, b: Editor)
    requires a.Ok() && b.Ok() && SameButTail(a, b)
    ensures SameButTail(NewLine(a), NewLine(b))
  {
    hide Fits, AllStorable, Saved, Zeros;
  }

  lemma SearchIgnoresTail(a: Editor, b: Editor, up: bool)
    requires a.Ok() && b.Ok() && SameButTail(a, b)
    ensures SameButTail(HistSearch(a, up), HistSearch(b, up))
  {
    hide Fits, Zeros;
  }

  // ---------- typing ----------

  predicate Printable(ch: int) { 32 <= ch <= 255 && ch != KEY_DEL }

  function Bytes(keys: seq<int>): (text: Line)
    requires forall i :: 0 <= i < |keys| ==> Printable(keys[i])
    ensures |text| == |keys|
  {
    seq(|keys|, i requires 0 <= i < |keys| && Printable(keys[i]) => keys[i] as byte)
  }

  // Typed anywhere in a line, printable keys go in at the cursor as long as the
  // line stays within 100 characters.
  lemma {:induction false} TypingInserts(e: Editor, keys: seq<int>)
    requires e.Ok() && !e.escape
    requires forall i :: 0 <= i < |keys| ==> Printable(keys[i])
    requires |keys| < |e.tail|
    requires e.Text() == [] && keys != [] ==> keys[0] != SPACE
    ensures var after := PressAll(e, keys);
            && after.left == e.left + Stored(Bytes(keys))
            && SameButTail(after, e.(left := after.left))
            && (keys != [] ==> after.tail[0] == 0)
    decreases |keys|
  {
    hide Fits, AllStorable, Press;
    if keys == [] {
      assert Stored(Bytes(keys)) == [];
    } else {
      var n := |keys| - 1;
      TypingInserts(e, keys[..n]);
      var before := PressAll(e, keys[..n]);
      assert |before.tail| == |e.tail| - n;
      assert before.Text() == [] ==> n == 0 && e.Text() == [];
      PrintableInserts(before, keys[n]);
      assert Stored(Bytes(keys)) == Stored(Bytes(keys[..n])) + Stored([keys[n]]);
    }
  }

  lemma PrintableInserts(e: Editor, ch: int)
    requires e.Ok() && !e.escape && Printable(ch)
    requires e.Text() == [] ==> ch != SPACE
    ensures Press(e, ch) == Insert(e, [ch])
  {
    hide Fits, AllStorable;
  }

  // Backspace undoes a key that was accepted, wherever the cursor is.
  lemma BackspaceUndoesKey(e: Editor, ch: int)
    requires e.Ok() && !e.escape && Printable(ch)
    requires e.Text() == [] ==> ch != SPACE
    requires |e.Text()| < COMMAND_LINE_LEN - 1
    ensures SameButTail(Press(Press(e, ch), KEY_BS), e)
  {
    hide Fits, AllStorable, Press;
    PrintableInserts(e, ch);
    var typed := Insert(e, [ch]);
    BackspaceKey(typed);
    assert typed.left[..|typed.left| - 1] == e.left;
  }

  lemma BackspaceKey(e: Editor)
    requires e.Ok() && !e.escape
    ensures Press(e, KEY_BS) == Backspace(e)
  {
    hide Fits, AllStorable;
  }

  // ---------- what the command receives ----------

  // Token k of the text, and the C string the command reads at its start.
  function Token(e: Editor, k: nat): Line
    requires k <= |e.Text()|
  {
    Run(e.Text(), k)
  }

  function CString(e: Editor, k: nat): Line
    requires k <= |e.Buffer()|
  {
    Run(e.Buffer(), k)
  }

  lemma {:induction false} RunOverBoundary(text: Line, tail: Line, k: nat)
    requires k <= |text|
    ensures Run(text + tail, k) ==
              if k + |Run(text, k)| == |text| then Run(text, k) + Run(tail, 0) else Run(text, k)
    ensures k + |Run(text, k)| <= |text|
    decreases |text| - k
  {
    if k == |text| {
      RunShift(text, tail, 0);
    } else if text[k] != 0 {
      RunOverBoundary(text, tail, k + 1);
    }
  }

  lemma {:induction false} RunShift(text: Line, tail: Line, k: nat)
    requires k <= |tail|
    ensures Run(text + tail, |text| + k) == Run(tail, k)
    decreases |tail| - k
  {
    if k == |tail| {
    } else {
      RunShift(text, tail, k + 1);
    }
  }

  // The run that reaches the end of a text ending in a nonzero byte.
  lemma {:induction false} LastRun(text: Line) returns (k: nat)
    requires text != [] && text[|text| - 1] != 0
    ensures IsStart(text, k) && k + |Run(text, k)| == |text|
    decreases |text|
  {
    k := |text| - 1;
    assert Run(text, |text|) == [];
    while k > 0 && text[k - 1] != 0
      invariant 0 <= k < |text| && text[k] != 0
      invariant k + |Run(text, k)| == |text|
    {
      k := k - 1;
    }
  }

  // Nothing is handed over with eight or more tokens; otherwise every C string passed
  // to the command is its token.
  ghost predicate HandsTokens(e: Editor)
    requires e.Ok()
  {
    |Starts(e.Text())| < COMMAND_TOKEN_NMB ==> forall k :: IsStart(e.Text(), k) ==> CString(e, k) == Token(e, k)
  }

  predicate Terminated(e: Editor) { e.tail != [] && e.tail[0] == 0 }

  // Main result: the command receives its tokens if and only if there are too many to
  // hand over, or the text ends in a separator, or a zero byte follows it.
  lemma CommandReceivesTokens(e: Editor)
    requires e.Ok()
    ensures HandsTokens(e) <==>
              || |Starts(e.Text())| >= COMMAND_TOKEN_NMB
              || e.Text() == [] || e.Text()[|e.Text()| - 1] == 0 || Terminated(e)
  {
    hide Fits, AllStorable, Starts;
    var text := e.Text();
    assert e.Buffer() == text + e.tail;
    if text != [] && text[|text| - 1] != 0 {
      var k := LastRun(text);
      RunOverBoundary(text, e.tail, k);
      assert Run(e.tail, 0) == [] <==> e.tail[0] == 0;
    }
    forall k | IsStart(text, k) && (text[|text| - 1] == 0 || e.tail[0] == 0)
      ensures CString(e, k) == Token(e, k)
    {
      RunOverBoundary(text, e.tail, k);
      if text[|text| - 1] == 0 { RunEndsAtZero(text, k); }
    }
  }

  lemma {:induction false} RunEndsAtZero(text: Line, k: nat)
    requires k < |text| && text[|text| - 1] == 0
    ensures k + |Run(text, k)| < |text|
    decreases |text| - k
  {
    if text[k] == 0 {
    } else {
      RunEndsAtZero(text, k + 1);
    }
  }

  // ---------- which keys leave the text unterminated ----------

  // ^K cuts before a byte that is not a separator.
  predicate Breaks(e: Editor, ch: int) {
    !e.escape && ch == KEY_VT && e.right != [] && e.right[0] != 0
  }

  // A key that shows a line of the history.
  predicate Shows(e: Editor, ch: int) {
    if e.escape then
      e.escapeSeq == Bracket && (LowByte(ch) == 66 || (LowByte(ch) == 65 && e.cur < |e.lines|))
    else ch == KEY_SO || (ch == KEY_DLE && e.cur < |e.lines|)
  }

  // An accepted character.
  predicate Inserts(e: Editor, ch: int) {
    !e.escape && ch > 31 && ch != KEY_DEL && !(ch == SPACE && e.Text() == []) && |e.Text()| < COMMAND_LINE_LEN - 1
  }

  // Keys after which a zero byte follows the text, whatever was there.
  predicate Mends(e: Editor, ch: int) {
    || Shows(e, ch) || Inserts(e, ch)
    || (!e.escape && (ch == KEY_LF || (ch == KEY_VT && e.right != [] && e.right[0] == 0)))
  }

  lemma {:induction false} EraseKeepsTerminator(e: Editor)
    requires e.tail != []
    ensures Terminated(EraseLeft(e)) == Terminated(e)
    decreases |e.left|
  {
    if e.left == [] {
    } else {
      EraseKeepsTerminator(Backspace(e));
    }
  }

  lemma SearchTerminates(e: Editor, up: bool)
    requires e.Ok()
    ensures Terminated(HistSearch(e, up)) == (if up && e.cur == |e.lines| then Terminated(e) else true)
  {
    hide Fits;
  }

  lemma EscapeTerminator(e: Editor, c: byte)
    requires e.Ok() && e.escape
    ensures Terminated(EscapeProcess(e, c).0) == (Shows(e, c) || Terminated(e))
  {
    hide HistSearch, Fits, AllStorable;
    SearchTerminates(e, true);
    SearchTerminates(e, false);
  }

  lemma KeyTerminator(e: Editor, ch: int)
    requires e.Ok()
    ensures Terminated(Press(e, ch)) == (!Breaks(e, ch) && (Mends(e, ch) || Terminated(e)))
  {
    hide HistSearch, EscapeProcess, EraseLeft, Fits, AllStorable, Saved;
    if e.escape {
      EscapeTerminator(e, LowByte(ch));
    } else {
      SearchTerminates(e, true);
      SearchTerminates(e, false);
      EraseKeepsTerminator(e);
    }
  }

  predicate BreaksAt(keys: seq<int>, k: int) {
    0 <= k < |keys| && Breaks(PressAll(START, keys[..k]), keys[k])
  }

  predicate MendsAt(keys: seq<int>, k: int) {
    0 <= k < |keys| && Mends(PressAll(START, keys[..k]), keys[k])
  }

  // Key k breaks, and no later key mends.
  predicate LastBreak(keys: seq<int>, k: int) {
    BreaksAt(keys, k) && forall m :: k < m < |keys| ==> !MendsAt(keys, m)
  }

  lemma EarlierKey(before: seq<int>, ch: int, k: int)
    requires k < |before|
    ensures BreaksAt(before + [ch], k) == BreaksAt(before, k) && MendsAt(before + [ch], k) == MendsAt(before, k)
  {
    hide PressAll, Breaks, Mends;
    if k >= 0 {
      assert (before + [ch])[..k] == before[..k];
    }
  }

  lemma LastBreakStep(before: seq<int>, ch: int, k: int)
    ensures LastBreak(before + [ch], k) <==>
              || (k < |before| && LastBreak(before, k) && !Mends(PressAll(START, before), ch))
              || (k == |before| && Breaks(PressAll(START, before), ch))
  {
    hide PressAll, Breaks, Mends;
    var keys, n := before + [ch], |before|;
    assert keys[..n] == before;
    forall m | m < n ensures BreaksAt(keys, m) == BreaksAt(before, m) && MendsAt(keys, m) == MendsAt(before, m) {
      EarlierKey(before, ch, m);
    }
    assert MendsAt(keys, n) == Mends(PressAll(START, before), ch);
  }

  // Main result: after any keys the text is unterminated exactly when some ^K cut
  // before a character and no later key showed a line, went in, entered the line or
  // cut before a separator.
  lemma {:induction false} UnterminatedExactly(keys: seq<int>)
    ensures !Terminated(PressAll(START, keys)) <==> exists k :: LastBreak(keys, k)
    decreases |keys|
  {
    hide Press, Breaks, Mends, LastBreak;
    if keys == [] {
      forall k ensures !LastBreak(keys, k) { NoKeys(k); }
    } else {
      var n := |keys| - 1;
      var e := PressAll(START, keys[..n]);
      assert keys == keys[..n] + [keys[n]];
      UnterminatedExactly(keys[..n]);
      KeyTerminator(e, keys[n]);
      forall k
        ensures LastBreak(keys, k) <==>
                  (k < n && LastBreak(keys[..n], k) && !Mends(e, keys[n])) || (k == n && Breaks(e, keys[n]))
      {
        LastBreakStep(keys[..n], keys[n], k);
      }
      forall k | LastBreak(keys[..n], k) ensures k < n { LastBreakInRange(keys[..n], k); }
      NotBothKinds(e, keys[n]);
      assert LastBreak(keys, n) <==> Breaks(e, keys[n]);
    }
  }

  lemma NoKeys(k: int)
    ensures !LastBreak([], k)
  {
  }

  lemma LastBreakInRange(keys: seq<int>, k: int)
    requires LastBreak(keys, k)
    ensures 0 <= k < |keys|
  {
  }

  lemma NotBothKinds(e: Editor, ch: int)
    ensures !(Breaks(e, ch) && Mends(e, ch))
  {
  }

  // So without ^K the command always receives its tokens.
  lemma TokensWithoutKill(keys: seq<int>)
    requires KEY_VT !in keys
    ensures HandsTokens(PressAll(START, keys))
  {
    hide Press;
    UnterminatedExactly(keys);
    CommandReceivesTokens(PressAll(START, keys));
  }

  // The condition can fail: type "ab", step left, kill to the end (^K).  The text
  // is "a", but a command run now would receive "ab".
  lemma KillLeavesStaleBytes()
    ensures var e := PressAll(START, [97, 98, KEY_STX, KEY_VT]);
            && e.Text() == [97] && IsStart(e.Text(), 0)
            && Token(e, 0) == [97] && CString(e, 0) == [97, 98]
  {
    hide Press, Fits, AllStorable, HistSearch, NewLine;
    StartOk();
    TypingInserts(START, [97, 98]);
    var typed := PressAll(START, [97, 98]);
    assert Stored(Bytes([97, 98])) == [97, 98];
    var keys := [97, 98, KEY_STX, KEY_VT];
    assert keys[..3] == [97, 98, KEY_STX] && [97, 98, KEY_STX][..2] == [97, 98];
    StepLeftKey(typed);
    var stepped := MoveLeft(typed);
    KillKey(stepped);
    var e := KillRight(stepped);
    assert e.left == [97] && e.right == [] && e.tail[0] == 98 && e.tail[1] == 0;
    assert e.Buffer()[0] == 97 && e.Buffer()[1] == 98 && e.Buffer()[2] == 0;
    assert Run(e.Buffer(), 2) == [];
    assert Run(e.Buffer(), 1) == [98];
    assert Run(e.Text(), 1) == [];
  }

  lemma StartOk()
    ensures START.Ok()
  {
  }

  lemma StepLeftKey(e: Editor)
    requires e.Ok() && !e.escape
    ensures Press(e, KEY_STX) == MoveLeft(e)
  {
    hide Fits, AllStorable;
  }

  lemma KillKey(e: Editor)
    requires e.Ok() && !e.escape
    ensures Press(e, KEY_VT) == KillRight(e)
  {
    hide Fits, AllStorable;
  }

  // ---------- the cursor keys ----------

  function Move(e: Editor, right: bool): Editor { if right then MoveRight(e) else MoveLeft(e) }

  datatype CursorKey = ArrowRight | ArrowLeft | CtrlF | CtrlB {
    predicate Right() { ArrowRight? || CtrlF? }

    predicate IsArrow() { ArrowRight? || ArrowLeft? }

    function Codes(): seq<int> {
      match this
      case ArrowRight => [27, 91, 67]
      case ArrowLeft => [27, 91, 68]
      case CtrlF => [6]
      case CtrlB => [2]
    }
  }

  function TypedCursor(keys: seq<CursorKey>): seq<int> {
    if keys == [] then [] else TypedCursor(keys[..|keys| - 1]) + keys[|keys| - 1].Codes()
  }

  function Rights(keys: seq<CursorKey>): (moves: seq<bool>)
    ensures |moves| == |keys|
  {
    if keys == [] then [] else Rights(keys[..|keys| - 1]) + [keys[|keys| - 1].Right()]
  }

  // The two keys that open a sequence.
  lemma OpenSequence(e: Editor)
    requires e.Ok() && !e.escape
    ensures e.(escape := true, escapeSeq := Bracket).Ok()
    ensures PressAll(e, [27, 91]) == e.(escape := true, escapeSeq := Bracket)
  {
    hide Press, Fits, AllStorable;
    EscapeKeys(e);
    assert [27, 91][..1] == [27] && [27][..0] == [];
    assert PressAll(e, [27]) == Press(e, 27);
  }

  lemma PressNext(e: Editor, keys: seq<int>, ch: int)
    requires e.Ok()
    ensures PressAll(e, keys + [ch]) == Press(PressAll(e, keys), ch)
  {
    hide Press;
    assert (keys + [ch])[..|keys|] == keys;
  }

  lemma InSequence(e: Editor)
    requires e.Ok() && e.escape && e.escapeSeq == Bracket
    ensures Press(e, 67) == MoveRight(e).(escape := false) && Press(e, 68) == MoveLeft(e).(escape := false)
    ensures Press(e, 55) == e.(escapeSeq := Home) && Press(e, 56) == e.(escapeSeq := End)
    ensures e.(escapeSeq := Home).Ok() && e.(escapeSeq := End).Ok()
    ensures Press(e.(escapeSeq := Home), 126) == ToStart(e).(escape := false, escapeSeq := Home)
    ensures Press(e.(escapeSeq := End), 126) == ToEnd(e).(escape := false, escapeSeq := End)
  {
    hide Fits, AllStorable, HistSearch;
  }

  lemma MoveControls(e: Editor)
    requires e.Ok() && !e.escape
    ensures Press(e, 6) == MoveRight(e) && Press(e, 2) == MoveLeft(e)
  {
    hide Fits, AllStorable;
  }

  lemma EndControls(e: Editor)
    requires e.Ok() && !e.escape
    ensures Press(e, 1) == ToStart(e) && Press(e, 5) == ToEnd(e)
  {
    hide Fits, AllStorable;
  }

  lemma EraseLineKey(e: Editor)
    requires e.Ok() && !e.escape
    ensures Press(e, 21) == EraseLeft(e)
  {
    hide Fits, AllStorable;
  }

  lemma DeleteKey(e: Editor)
    requires e.Ok() && !e.escape
    ensures Press(e, 127) == Backspace(e)
  {
    hide Fits, AllStorable;
  }

  lemma ArrowSequence(e: Editor, letter: int)
    requires e.Ok() && !e.escape && (letter == 67 || letter == 68)
    ensures PressAll(e, [27, 91, letter]) == Move(e, letter == 67).(escapeSeq := Bracket)
  {
    hide Press, PressAll, Fits, AllStorable, MoveRight, MoveLeft;
    OpenSequence(e);
    var inside := e.(escape := true, escapeSeq := Bracket);
    InSequence(inside);
    PressNext(e, [27, 91], letter);
    assert [27, 91] + [letter] == [27, 91, letter];
    MoveIgnoresEscape(e);
  }

  lemma MoveIgnoresEscape(e: Editor)
    requires !e.escape
    ensures var inside := e.(escape := true, escapeSeq := Bracket);
            && MoveRight(inside).(escape := false) == MoveRight(e).(escapeSeq := Bracket)
            && MoveLeft(inside).(escape := false) == MoveLeft(e).(escapeSeq := Bracket)
  {
  }

  lemma MoveKeepsSequence(e: Editor, right: bool)
    ensures Move(e, right) == Move(e, right).(escapeSeq := e.escapeSeq)
  {
  }

  lemma OneCursorKey(e: Editor, key: CursorKey)
    requires e.Ok() && !e.escape
    ensures PressAll(e, key.Codes()) == Move(e, key.Right()).(escapeSeq := if key.IsArrow() then Bracket else e.escapeSeq)
  {
    hide Press, PressAll, Fits, AllStorable, MoveRight, MoveLeft;
    if key.IsArrow() {
      ArrowSequence(e, if key.Right() then 67 else 68);
    } else {
      MoveControls(e);
      MoveKeepsSequence(e, key.Right());
      OneKey(e, if key.Right() then 6 else 2);
    }
  }

  lemma OneKey(e: Editor, ch: int)
    requires e.Ok()
    ensures PressAll(e, [ch]) == Press(e, ch)
  {
    hide Press;
    assert [ch][..0] == [];
  }

  lemma MoveWalks(e: Editor, right: bool)
    requires e.Ok()
    ensures var t := Move(e, right);
            && t.Ok() && t.Text() == e.Text() && t.Buffer() == e.Buffer()
            && t.(left := e.left, right := e.right) == e
            && |t.left| == if right then (if |e.left| < |e.Text()| then |e.left| + 1 else |e.left|)
                           else if |e.left| > 0 then |e.left| - 1 else 0
  {
    hide Fits, AllStorable;
    MovesKeepBuffer(e);
  }

  // Main result: after any mix of ESC [ C, ESC [ D, ^F and ^B, from any state outside an
  // escape sequence, the text, the history and cur are unchanged and the cursor has
  // walked right and left, clamped to the text.
  lemma {:induction false} CursorKeysWalk(e: Editor, keys: seq<CursorKey>)
    requires e.Ok() && !e.escape
    ensures var after := PressAll(e, TypedCursor(keys));
            && after.Text() == e.Text() && after.tail == e.tail && after.lines == e.lines && after.cur == e.cur
            && !after.escape && |after.left| == Walk(|e.Text()|, |e.left|, Rights(keys))
    decreases |keys|
  {
    hide Press, Fits, AllStorable, Move;
    if keys == [] {
    } else {
      var n := |keys| - 1;
      CursorKeysWalk(e, keys[..n]);
      var before := PressAll(e, TypedCursor(keys[..n]));
      assert Rights(keys)[..n] == Rights(keys[..n]);
      PressAppend(e, TypedCursor(keys[..n]), keys[n].Codes());
      OneCursorKey(before, keys[n]);
      MoveWalks(before, keys[n].Right());
    }
  }

  // ^A and ESC [ 7 ~ put the cursor before the text, ^E and ESC [ 8 ~ behind it.
  lemma HomeAndEndKeys(e: Editor)
    requires e.Ok() && !e.escape
    ensures Press(e, 1) == e.(left := [], right := e.Text()) && Press(e, 5) == e.(left := e.Text(), right := [])
    ensures PressAll(e, [27, 91, 55, 126]) == e.(left := [], right := e.Text(), escapeSeq := Home)
    ensures PressAll(e, [27, 91, 56, 126]) == e.(left := e.Text(), right := [], escapeSeq := End)
  {
    hide Press, PressAll, Fits, AllStorable;
    EndControls(e);
    LongSequence(e, 55, Home);
    LongSequence(e, 56, End);
  }

  lemma LongSequence(e: Editor, digit: int, last: EscapeSeq)
    requires e.Ok() && !e.escape && ((digit == 55 && last == Home) || (digit == 56 && last == End))
    ensures PressAll(e, [27, 91, digit, 126]) == (if digit == 55 then ToStart(e) else ToEnd(e)).(escapeSeq := last)
  {
    hide Press, PressAll, Fits, AllStorable;
    OpenSequence(e);
    var inside := e.(escape := true, escapeSeq := Bracket);
    InSequence(inside);
    PressNext(e, [27, 91], digit);
    assert [27, 91] + [digit] == [27, 91, digit];
    assert PressAll(e, [27, 91, digit]) == inside.(escapeSeq := last);
    PressNext(e, [27, 91, digit], 126);
    assert [27, 91, digit] + [126] == [27, 91, digit, 126];
  }

  // ^U removes what is left of the cursor, ^K what is right of it, backspace and DEL
  // the byte to its left, if there is one.
  lemma ErasingKeys(e: Editor)
    requires e.Ok() && !e.escape
    ensures var t := Press(e, 21); t.left == [] && t.right == e.right && t.lines == e.lines && t.cur == e.cur
    ensures var t := Press(e, 11); t.left == e.left && t.right == [] && t.lines == e.lines && t.cur == e.cur
    ensures Press(e, 127) == Press(e, 8)
    ensures var t := Press(e, 8);
            && t.right == e.right && t.lines == e.lines && t.cur == e.cur
            && (e.left == [] ==> t == e)
            && (e.left != [] ==> t.left + [e.left[|e.left| - 1]] == e.left)
  {
    hide Press, Fits, AllStorable, EraseLeft;
    EraseLineKey(e);
    KillKey(e);
    BackspaceKey(e);
    DeleteKey(e);
    EraseKeepsRest(e);
  }

  // Enter clears the line and ends browsing.
  lemma EnterClears(e: Editor)
    requires e.Ok() && !e.escape
    ensures var t := Press(e, 10);
            && t.Text() == [] && (forall i :: 0 <= i < |t.tail| ==> t.tail[i] == 0) && t.cur == 0 && !t.escape
            && t.lines == if e.Text() == [] then e.lines else Saved(e.lines, e.Text())
  {
    hide Fits, AllStorable, Saved;
  }

  // The other control characters, and anything typed into a full line, do nothing.
  lemma IgnoredKeys(e: Editor, ch: int)
    requires e.Ok() && !e.escape
    requires (ch <= 31 && ch !in {1, 2, 5, 6, 8, 10, 11, 14, 16, 21, 27})
             || (Printable(ch) && |e.Text()| == 100) || (ch == 32 && e.Text() == [])
    ensures Press(e, ch) == e
  {
    hide Fits, AllStorable, HistSearch;
  }

  // A sequence goes on after [, and after 7 or 8 if a [ came last; any other character
  // ends it. Only A, B, C and D after [, and ~ after 7 or 8, do more than that.
  lemma SequenceEnds(e: Editor, ch: int)
    requires e.Ok() && e.escape
    ensures var c, t := ch % 256, Press(e, ch);
            && (t.escape <==> c == 91 || (e.escapeSeq == Bracket && (c == 55 || c == 56)))
            && t.escapeSeq == (if c == 91 then Bracket
                               else if e.escapeSeq == Bracket && c == 55 then Home
                               else if e.escapeSeq == Bracket && c == 56 then End
                               else e.escapeSeq)
            && (!(e.escapeSeq == Bracket && 65 <= c <= 68) && !(e.escapeSeq in {Home, End} && c == 126)
                ==> t == e.(escape := t.escape, escapeSeq := t.escapeSeq))
  {
    hide Fits, AllStorable;
  }

  // The sequence state outlives its sequence: after an arrow key, ESC and a letter,
  // without [, act as an arrow key.
  lemma LeftoverBracket(e: Editor)
    requires e.Ok() && !e.escape && e.escapeSeq == Bracket
    ensures PressAll(e, [27, 67]) == MoveRight(e) && PressAll(e, [27, 68]) == MoveLeft(e)
  {
    hide Press, PressAll, MoveRight, MoveLeft, Fits, AllStorable;
    MoveIgnoresEscape(e);
    MoveKeepsSequence(e, true);
    MoveKeepsSequence(e, false);
    OpenSequence(e);
    EscapeKeys(e);
    OneKey(e, 27);
    PressNext(e, [27], 67);
    PressNext(e, [27], 68);
    assert [27] + [67] == [27, 67] && [27] + [68] == [27, 68];
    InSequence(e.(escape := true));
  }

  // Spaces are stored as the separators that tokens are split at.
  lemma SpacesSeparate(text: Line, k: int)
    requires forall i :: 0 <= i < |text| ==> text[i] != 0
    ensures IsStart(Stored(text), k) <==> 0 <= k < |text| && text[k] != 32 && (k == 0 || text[k - 1] == 32)
  {
  }
}
