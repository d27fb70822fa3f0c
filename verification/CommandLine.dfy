// Model of the line editor of other/microrl/microrl.c (tab completion excluded).
//
// The 101-byte buffer with cmdlen and cursor is proved to refine a text with a
// cursor (left and right of it) over the history queue.  What lies in the buffer
// behind the text is tracked separately: it is what a C string reader sees.
module CommandLine {
  import opened History

  const COMMAND_TOKEN_NMB := 8

  // The key codes the editor reacts to.
  const KEY_SOH := 1    // ^A
  const KEY_STX := 2    // ^B
  const KEY_ENQ := 5    // ^E
  const KEY_ACK := 6    // ^F
  const KEY_BS := 8
  const KEY_LF := 10
  const KEY_VT := 11    // ^K
  const KEY_SO := 14    // ^N
  const KEY_DLE := 16   // ^P
  const KEY_NAK := 21   // ^U
  const KEY_ESC := 27
  const KEY_DEL := 127
  const SPACE := 32

  // ---------- the editor as a text with a cursor ----------

  datatype EscapeSeq = NoSequence | Bracket | Home | End

  // The buffer is left + right + tail with the cursor after left; the tail is
  // left over bytes.  escapeSeq survives the end of an escape sequence, as in
  // the code.
  datatype Editor = Editor(
    left: Line, right: Line, tail: Line,
    lines: seq<Line>, cur: nat, escape: bool, escapeSeq: EscapeSeq)
  {
    function Text(): Line { left + right }
    function Buffer(): Line { left + right + tail }

    predicate Ok() {
      && |left| + |right| + |tail| == COMMAND_LINE_LEN
      && tail != [] && tail[|tail| - 1] == 0
      && AllStorable(lines) && Fits(lines) && cur <= |lines|
    }
  }

  function Zeros(n: nat): (zeros: Line)
    ensures |zeros| == n && forall i :: 0 <= i < n ==> zeros[i] == 0
  {
    seq(n, _ => 0)
  }

  const START := Editor([], [], Zeros(COMMAND_LINE_LEN), [], 0, false, NoSequence)

  function StoredByte(b: byte): byte { if b == SPACE then 0 else b }

  function Stored(text: Line): (stored: Line)
    ensures |stored| == |text|
    ensures forall i :: 0 <= i < |text| ==> stored[i] == StoredByte(text[i])
  {
    seq(|text|, i requires 0 <= i < |text| => StoredByte(text[i]))
  }

  function Insert(e: Editor, text: Line): Editor {
    if |text| < |e.tail|
    then e.(left := e.left + Stored(text), tail := [0] + e.tail[|text| + 1..]) else e
  }

  function Backspace(e: Editor): Editor
    requires e.tail != []
  {
    if e.left == [] then e
    else e.(left := e.left[..|e.left| - 1], tail := [e.tail[0], 0] + e.tail[1..])
  }

  function EraseLeft(e: Editor): Editor
    requires e.tail != []
    decreases |e.left|
  {
    if e.left == [] then e else EraseLeft(Backspace(e))
  }

  function KillRight(e: Editor): Editor { e.(right := [], tail := e.right + e.tail) }

  function MoveRight(e: Editor): Editor {
    if e.right == [] then e else e.(left := e.left + [e.right[0]], right := e.right[1..])
  }

  function MoveLeft(e: Editor): Editor {
    if e.left == [] then e
    else
      var k := |e.left| - 1;
      e.(left := e.left[..k], right := [e.left[k]] + e.right)
  }

  function ToStart(e: Editor): Editor { e.(left := [], right := e.left + e.right) }
  function ToEnd(e: Editor): Editor { e.(left := e.left + e.right, right := []) }

  function HistSearch(e: Editor, up: bool): Editor
    requires e.Ok()
  {
    if up then
      if e.cur < |e.lines| then
        assert Storable(e.lines[|e.lines| - (e.cur + 1)]);
        var text := Recall(e.lines, e.cur + 1);
        e.(left := text, right := [], tail := Zeros(COMMAND_LINE_LEN - |text|), cur := e.cur + 1)
      else e
    else
      var cur := if e.cur > 0 then e.cur - 1 else 0;
      assert cur > 0 ==> Storable(e.lines[|e.lines| - cur]);
      var text := Recall(e.lines, cur);
      e.(left := text, right := [], tail := [0] + e.Buffer()[|text| + 1..], cur := cur)
  }

  function NewLine(e: Editor): Editor
    requires e.Ok()
  {
    e.(left := [], right := [], tail := Zeros(COMMAND_LINE_LEN), cur := 0,
       lines := if e.Text() == [] then e.lines else Saved(e.lines, e.Text()))
  }

  // One character inside an escape sequence, and whether it ends the sequence.
  function EscapeProcess(e: Editor, c: byte): (Editor, bool)
    requires e.Ok()
  {
    if c == 91 then (e.(escapeSeq := Bracket), false)        // [
    else if e.escapeSeq == Bracket then
      if c == 65 then (HistSearch(e, true), true)            // A
      else if c == 66 then (HistSearch(e, false), true)      // B
      else if c == 67 then (MoveRight(e), true)              // C
      else if c == 68 then (MoveLeft(e), true)               // D
      else if c == 55 then (e.(escapeSeq := Home), false)    // 7
      else if c == 56 then (e.(escapeSeq := End), false)     // 8
      else (e, true)
    else if c == 126 && e.escapeSeq == Home then (ToStart(e), true)  // ~
    else if c == 126 && e.escapeSeq == End then (ToEnd(e), true)
    else (e, true)
  }

  // The low byte of an int: what a char parameter, or (char*)&ch, receives.
  function LowByte(ch: int): byte { ch % 256 }

  function Press(e: Editor, ch: int): (after: Editor)
    requires e.Ok()
    ensures after.Ok()
  {
    PartsKeepOk(e, LowByte(ch));
    if e.escape then
      var (after, done) := EscapeProcess(e, LowByte(ch));
      if done then after.(escape := false) else after
    else if ch == KEY_LF then NewLine(e)
    else if ch == KEY_ESC then e.(escape := true)
    else if ch == KEY_NAK then EraseLeft(e)
    else if ch == KEY_VT then KillRight(e)
    else if ch == KEY_ENQ then ToEnd(e)
    else if ch == KEY_SOH then ToStart(e)
    else if ch == KEY_ACK then MoveRight(e)
    else if ch == KEY_STX then MoveLeft(e)
    else if ch == KEY_DLE then HistSearch(e, true)
    else if ch == KEY_SO then HistSearch(e, false)
    else if ch == KEY_DEL || ch == KEY_BS then Backspace(e)
    else if (ch == SPACE && e.Text() == []) || ch <= 31 then e
    else Insert(e, [LowByte(ch)])
  }

  lemma PartsKeepOk(e: Editor, c: byte)
    requires e.Ok()
    ensures Backspace(e).Ok() && EraseLeft(e).Ok() && KillRight(e).Ok() && Insert(e, [c]).Ok()
    ensures MoveRight(e).Ok() && MoveLeft(e).Ok() && ToStart(e).Ok() && ToEnd(e).Ok()
    ensures HistSearch(e, true).Ok() && HistSearch(e, false).Ok() && NewLine(e).Ok()
    ensures EscapeProcess(e, c).0.Ok()
  {
    hide Backspace, EraseLeft, KillRight, Insert, MoveRight, MoveLeft, ToStart, ToEnd,
         HistSearch, NewLine, Fits, AllStorable;
    EditsKeepOk(e, c);
    EraseKeepsOk(e);
    SearchKeepsOk(e, true);
    SearchKeepsOk(e, false);
    NewLineKeepsOk(e);
  }

  lemma EditsKeepOk(e: Editor, c: byte)
    requires e.Ok()
    ensures Backspace(e).Ok() && KillRight(e).Ok() && Insert(e, [c]).Ok()
    ensures MoveRight(e).Ok() && MoveLeft(e).Ok() && ToStart(e).Ok() && ToEnd(e).Ok()
  {
    hide Fits, AllStorable;
  }

  lemma {:induction false} EraseKeepsOk(e: Editor)
    requires e.Ok()
    ensures EraseLeft(e).Ok()
    decreases |e.left|
  {
    hide Fits, AllStorable;
    if e.left == [] {
    } else {
      EraseKeepsOk(Backspace(e));
    }
  }

  lemma SearchKeepsOk(e: Editor, up: bool)
    requires e.Ok()
    ensures HistSearch(e, up).Ok()
  {
    hide Fits;
    var s := HistSearch(e, up);
    if !up {
      assert s.tail[|s.tail| - 1] == e.Buffer()[COMMAND_LINE_LEN - 1] == e.tail[|e.tail| - 1];
    }
  }

  lemma NewLineKeepsOk(e: Editor)
    requires e.Ok()
    ensures NewLine(e).Ok()
  {
    hide Fits;
    if Storable(e.Text()) { EvictedFits(e.lines, e.Text()); }
  }

  // ---------- tokens ----------

  predicate IsStart(text: Line, k: int) {
    0 <= k < |text| && text[k] != 0 && (k == 0 || text[k - 1] == 0)
  }

  // Where the maximal nonzero runs of the text begin, in order.
  function Starts(text: Line): seq<nat> {
    if text == [] then []
    else
      var k := |text| - 1;
      Starts(text[..k]) + (if IsStart(text, k) then [k] else [])
  }

  // The run that begins at k.
  function Run(text: Line, k: nat): Line
    requires k <= |text|
    decreases |text| - k
  {
    if k == |text| || text[k] == 0 then [] else [text[k]] + Run(text, k + 1)
  }

  lemma {:induction false} StartsExact(text: Line)
    ensures forall i :: 0 <= i < |Starts(text)| ==> IsStart(text, Starts(text)[i])
    ensures forall i, j :: 0 <= i < j < |Starts(text)| ==> Starts(text)[i] < Starts(text)[j]
    ensures forall k :: IsStart(text, k) ==> k in Starts(text)
    decreases |text|
  {
    hide Starts;
    if text == [] {
      NoStarts(text);
    } else {
      var n := |text| - 1;
      StartsExact(text[..n]);
      StartsStep(text, n);
      assert text[..n + 1] == text;
      forall k | 0 <= k < n ensures IsStart(text[..n], k) <==> IsStart(text, k) {
      }
      forall k | IsStart(text, k) ensures k in Starts(text) {
        if k < n {
          assert k in Starts(text[..n]);
        }
      }
    }
  }

  lemma {:induction false} StartsPrefix(text: Line, k: nat)
    requires k <= |text|
    ensures Starts(text[..k]) <= Starts(text)
    decreases |text|
  {
    if k < |text| {
      var n := |text| - 1;
      StartsPrefix(text[..n], k);
      assert text[..n][..k] == text[..k];
    } else {
      assert text[..k] == text;
    }
  }

  lemma StartsStep(text: Line, k: nat)
    requires k < |text|
    ensures Starts(text[..k + 1]) == Starts(text[..k]) + (if IsStart(text, k) then [k] else [])
  {
    assert text[..k + 1][..k] == text[..k];
    assert IsStart(text[..k + 1], k) <==> IsStart(text, k);
  }

  lemma NoStarts(text: Line)
    requires text == []
    ensures Starts(text) == []
  {
  }

  // split: -1 for eight or more tokens, else the token starts.
  method Split(cmdline: array<byte>, limit: nat) returns (status: int, tokens: seq<nat>)
    requires cmdline.Length == COMMAND_LINE_LEN && limit < COMMAND_LINE_LEN
    ensures status == -1 <==> |Starts(cmdline[..limit])| >= COMMAND_TOKEN_NMB
    ensures status != -1 ==> tokens == Starts(cmdline[..limit]) && status == |tokens|
  {
    hide Starts;
    ghost var text := cmdline[..limit];
    assert Starts(text[..0]) == [] by { NoStarts(text[..0]); }
    tokens := [];
    var ind := 0;
    while true
      invariant 0 <= ind <= limit && tokens == Starts(text[..ind])
      invariant |tokens| < COMMAND_TOKEN_NMB
      invariant ind == 0 || (ind < limit && text[ind] == 0)
      decreases limit - ind
    {
      ghost var from := ind;
      while cmdline[ind] == 0 && ind < limit
        invariant from <= ind <= limit && tokens == Starts(text[..ind])
        invariant ind > from ==> text[ind - 1] == 0
        decreases limit - ind
      {
        StartsStep(text, ind);
        ind := ind + 1;
      }
      if !(ind < limit) {
        assert text[..ind] == text;
        return |tokens|, tokens;
      }
      StartsStep(text, ind);
      tokens := tokens + [ind];
      if |tokens| >= COMMAND_TOKEN_NMB {
        StartsPrefix(text, ind + 1);
        return -1, tokens;
      }
      ghost var start := ind;
      while cmdline[ind] != 0 && ind < limit
        invariant start <= ind <= limit
        invariant ind == start ==> tokens == Starts(text[..ind + 1])
        invariant ind > start ==> tokens == Starts(text[..ind]) && text[ind - 1] != 0
        decreases limit - ind
      {
        StartsStep(text, ind);
        ind := ind + 1;
      }
      if !(ind < limit) {
        assert text[..ind] == text;
        return |tokens|, tokens;
      }
    }
  }

  // ---------- the editor object ----------

  // memmove within one buffer.
  method MoveBytes(buffer: array<byte>, to: nat, from: nat, len: nat)
    requires to + len <= buffer.Length && from + len <= buffer.Length
    modifies buffer
    ensures forall i :: 0 <= i < buffer.Length ==>
              buffer[i] == old(if to <= i < to + len then buffer[from + (i - to)] else buffer[i])
  {
    forall k | 0 <= k < len {
      buffer[to + k] := buffer[from + k];
    }
  }

  class Microrl {
    const cmdline: array<byte>
    var cmdlen: int
    var cursor: int
    var escape: bool
    var escapeSeq: EscapeSeq
    const hist: RingHistory

    ghost predicate Valid()
      reads this, cmdline, hist, hist.ring
    {
      && cmdline.Length == COMMAND_LINE_LEN && cmdline != hist.ring
      && 0 <= cursor <= cmdlen < COMMAND_LINE_LEN
      && cmdline[COMMAND_LINE_LEN - 1] == 0
      && hist.Valid()
    }

    ghost function View(): (e: Editor)
      reads this, cmdline, hist, hist.ring
      requires Valid()
      ensures e.Ok()
    {
      Editor(cmdline[..cursor], cmdline[cursor..cmdlen], cmdline[cmdlen..],
             hist.lines, hist.cur, escape, escapeSeq)
    }

    constructor ()
      ensures Valid() && fresh(cmdline) && fresh(hist) && fresh(hist.ring)
      ensures View() == START
    {
      cmdline := new byte[COMMAND_LINE_LEN](_ => 0);
      cmdlen, cursor := 0, 0;
      escape, escapeSeq := false, NoSequence;
      hist := new RingHistory();
    }

    lemma ViewBuffer()
      requires Valid()
      ensures View().Buffer() == cmdline[..] && View().Text() == cmdline[..cmdlen]
    {
    }

    // The fields and the buffer determine the view.
    lemma ViewIs(e: Editor)
      requires Valid() && e.Buffer() == cmdline[..]
      requires |e.left| == cursor && |e.Text()| == cmdlen
      requires e.lines == hist.lines && e.cur == hist.cur
      requires e.escape == escape && e.escapeSeq == escapeSeq
      ensures View() == e
    {
      assert e.left == e.Buffer()[..cursor];
      assert e.right == e.Buffer()[cursor..cmdlen];
      assert e.tail == e.Buffer()[cmdlen..];
    }

    method InsertText(text: seq<byte>) returns (inserted: bool)
      requires Valid()
      modifies this`cmdlen, this`cursor, cmdline
      ensures Valid() && View() == Insert(old(View()), text)
      ensures inserted <==> old(cmdlen) + |text| < COMMAND_LINE_LEN
    {
      ghost var e := View();
      ViewBuffer();
      if cmdlen + |text| < COMMAND_LINE_LEN {
        InsertBytes(text);
        InsertedBuffer(e.left, e.right, e.tail, text, cmdline[..]);
        cursor := cursor + |text|;
        cmdlen := cmdlen + |text|;
        ViewIs(Insert(e, text));
        return true;
      }
      return false;
    }

    // The buffer part of microrl_insert_text.
    method InsertBytes(text: seq<byte>)
      requires cmdline.Length == COMMAND_LINE_LEN
      requires 0 <= cursor <= cmdlen && cmdlen + |text| < COMMAND_LINE_LEN
      modifies cmdline
      ensures forall k :: 0 <= k < COMMAND_LINE_LEN ==>
                cmdline[k] == old(InsertedByte(cmdline[..], cursor, cmdlen, text, k))
    {
      MoveBytes(cmdline, cursor + |text|, cursor, cmdlen - cursor);
      StoreBytes(text);
      cmdline[cmdlen + |text|] := 0;
    }

    method StoreBytes(text: seq<byte>)
      requires cmdline.Length == COMMAND_LINE_LEN
      requires 0 <= cursor && cursor + |text| < COMMAND_LINE_LEN
      modifies cmdline
      ensures forall k :: 0 <= k < COMMAND_LINE_LEN ==>
                cmdline[k] == if cursor <= k < cursor + |text| then StoredByte(text[k - cursor])
                              else old(cmdline[k])
    {
      for i := 0 to |text|
        invariant forall k :: 0 <= k < COMMAND_LINE_LEN ==>
                    cmdline[k] == if cursor <= k < cursor + i then StoredByte(text[k - cursor])
                                  else old(cmdline[k])
      {
        cmdline[cursor + i] := text[i];
        if cmdline[cursor + i] == SPACE {
          cmdline[cursor + i] := 0;
        }
      }
    }

    method BackspaceChar()
      requires Valid()
      modifies this`cmdlen, this`cursor, cmdline
      ensures Valid() && View() == Backspace(old(View()))
    {
      ghost var e := View();
      ViewBuffer();
      if cursor > 0 {
        EraseByte();
        cursor := cursor - 1;
        cmdlen := cmdlen - 1;
        ErasedBuffer(e.left, e.right, e.tail, cmdline[..]);
        ViewIs(Backspace(e));
      }
    }

    // The buffer part of microrl_backspace.
    method EraseByte()
      requires cmdline.Length == COMMAND_LINE_LEN && 0 < cursor <= cmdlen < COMMAND_LINE_LEN
      modifies cmdline
      ensures forall k :: 0 <= k < COMMAND_LINE_LEN ==>
                cmdline[k] == old(ErasedByte(cmdline[..], cursor, cmdlen, k))
    {
      MoveBytes(cmdline, cursor - 1, cursor, cmdlen - cursor + 1);
      cmdline[cmdlen] := 0;
    }

    method SearchHistory(up: bool)
      requires Valid()
      modifies this`cmdlen, this`cursor, cmdline, hist`cur
      ensures Valid() && View() == HistSearch(old(View()), up)
    {
      hide HistSearch, Layout, Fits, AllStorable;
      ghost var e := View();
      ViewBuffer();
      Searched(e, up);
      var shown := RestoreText(up);
      if shown {
        SearchedBuffer(e, up, cmdline[..]);
        ViewIs(HistSearch(e, up));
      }
    }

    // hist_restore_line and the three assignments after it.
    method RestoreText(up: bool) returns (shown: bool)
      requires Valid()
      modifies this`cmdlen, this`cursor, cmdline, hist`cur
      ensures Valid() && shown == !(up && old(hist.cur) == |hist.lines|)
      ensures hist.cur == if up then (if shown then old(hist.cur) + 1 else old(hist.cur))
                          else if old(hist.cur) > 0 then old(hist.cur) - 1 else 0
      ensures !shown ==> View() == old(View())
      ensures shown ==>
        var text := Recall(hist.lines, hist.cur);
        && cursor == cmdlen == |text| && cmdline[..|text|] == text && cmdline[|text|] == 0
        && forall i :: |text| < i < COMMAND_LINE_LEN ==> cmdline[i] == if up then 0 else old(cmdline[i])
    {
      hide Layout, Fits, AllStorable;
      var len := hist.RestoreLine(cmdline, up);
      if len >= 0 {
        cmdline[len] := 0;
        cursor := len;
        cmdlen := len;
      }
      return len >= 0;
    }

    method ProcessEscape(c: byte) returns (done: bool)
      requires Valid()
      modifies this`cmdlen, this`cursor, this`escapeSeq, cmdline, hist`cur
      ensures Valid() && (View(), done) == EscapeProcess(old(View()), c)
    {
      hide HistSearch, MoveRight, MoveLeft, ToStart, ToEnd, Layout, Fits, AllStorable;
      if c == 91 {
        escapeSeq := Bracket;
        return false;
      } else if escapeSeq == Bracket {
        if c == 65 {
          SearchHistory(true);
          return true;
        } else if c == 66 {
          SearchHistory(false);
          return true;
        } else if c == 67 {
          StepRight();
          return true;
        } else if c == 68 {
          StepLeft();
          return true;
        } else if c == 55 {
          escapeSeq := Home;
          return false;
        } else if c == 56 {
          escapeSeq := End;
          return false;
        }
      } else if c == 126 {
        if escapeSeq == Home {
          GoToStart();
          return true;
        } else if escapeSeq == End {
          GoToEnd();
          return true;
        }
      }
      return true;
    }

    method StepRight()
      requires Valid()
      modifies this`cursor
      ensures Valid() && View() == MoveRight(old(View()))
    {
      ghost var e := View();
      ViewBuffer();
      if cursor < cmdlen {
        cursor := cursor + 1;
        MovesKeepBuffer(e);
        ViewIs(MoveRight(e));
      }
    }

    method StepLeft()
      requires Valid()
      modifies this`cursor
      ensures Valid() && View() == MoveLeft(old(View()))
    {
      ghost var e := View();
      ViewBuffer();
      if cursor > 0 {
        cursor := cursor - 1;
        MovesKeepBuffer(e);
        ViewIs(MoveLeft(e));
      }
    }

    // Returns what is handed to the execute callback: nothing when status <= 0.
    method HandleNewLine() returns (status: int, tokens: seq<nat>)
      requires Valid()
      modifies this`cmdlen, this`cursor, cmdline, hist, hist.ring
      ensures Valid() && View() == NewLine(old(View()))
      ensures status == -1 <==> |Starts(old(View()).Text())| >= COMMAND_TOKEN_NMB
      ensures status != -1 ==> tokens == Starts(old(View()).Text()) && status == |tokens|
    {
      hide Layout, Fits, AllStorable, Starts, Saved;
      ghost var e := View();
      ViewBuffer();
      if cmdlen > 0 {
        hist.SaveLine(cmdline, cmdlen);
      }
      assert cmdline[..cmdlen] == e.Text();
      status, tokens := Split(cmdline, cmdlen);
      ResetLine();
      ViewIs(NewLine(e));
    }

    // The end of new_line_handler.
    method ResetLine()
      requires cmdline.Length == COMMAND_LINE_LEN && cmdline != hist.ring && hist.ValidRing()
      modifies this`cmdlen, this`cursor, cmdline, hist`cur
      ensures Valid() && cmdlen == 0 && cursor == 0 && hist.cur == 0
      ensures cmdline[..] == Zeros(COMMAND_LINE_LEN)
    {
      cmdlen := 0;
      cursor := 0;
      ZeroBytes(cmdline);
      hist.cur := 0;
    }

    // One received character.  Reports what is handed to the execute callback.
    method InsertChar(ch: int) returns (status: int, tokens: seq<nat>)
      requires Valid()
      modifies this`cmdlen, this`cursor, this`escape, this`escapeSeq, cmdline, hist, hist.ring
      ensures Valid() && View() == Press(old(View()), ch)
      ensures var text := old(View()).Text();
              if old(escape) || ch != KEY_LF then status == 0 && tokens == []
              else && (status == -1 <==> |Starts(text)| >= COMMAND_TOKEN_NMB)
                   && (status != -1 ==> tokens == Starts(text) && status == |tokens|)
    {
      hide Valid, View, HistSearch, MoveRight, MoveLeft, Insert, Backspace, EraseLeft, KillRight,
           ToStart, ToEnd, NewLine, EscapeProcess, Starts;
      ViewFields();
      status, tokens := 0, [];
      if escape {
        var done := ProcessEscape(LowByte(ch));
        if done {
          SetEscape(false);
        }
      } else if ch == KEY_LF {
        status, tokens := HandleNewLine();
      } else if ch == KEY_ESC {
        SetEscape(true);
      } else if ch == KEY_NAK {
        EraseToStart();
      } else if ch == KEY_VT {
        CutAtCursor();
      } else if ch == KEY_ENQ {
        GoToEnd();
      } else if ch == KEY_SOH {
        GoToStart();
      } else if ch == KEY_ACK {
        StepRight();
      } else if ch == KEY_STX {
        StepLeft();
      } else if ch == KEY_DLE {
        SearchHistory(true);
      } else if ch == KEY_SO {
        SearchHistory(false);
      } else if ch == KEY_DEL || ch == KEY_BS {
        BackspaceChar();
      } else if !((ch == SPACE && cmdlen == 0) || ch <= 31) {
        var inserted := InsertText([LowByte(ch)]);
      }
    }

    lemma ViewFields()
      requires Valid()
      ensures View().escape == escape && (View().Text() == [] <==> cmdlen == 0)
    {
    }

    method SetEscape(on: bool)
      requires Valid()
      modifies this`escape
      ensures Valid() && View() == old(View()).(escape := on)
    {
      escape := on;
    }

    method EraseToStart()
      requires Valid()
      modifies this`cmdlen, this`cursor, cmdline
      ensures Valid() && View() == EraseLeft(old(View()))
    {
      ghost var e := View();
      while cursor > 0
        invariant Valid() && EraseLeft(View()) == EraseLeft(e)
        decreases cursor
      {
        EraseLeftStep(View());
        BackspaceChar();
      }
      EraseLeftStep(View());
    }

    method CutAtCursor()
      requires Valid()
      modifies this`cmdlen
      ensures Valid() && View() == KillRight(old(View()))
    {
      ghost var e := View();
      ViewBuffer();
      cmdlen := cursor;
      ViewIs(KillRight(e));
    }

    method GoToEnd()
      requires Valid()
      modifies this`cursor
      ensures Valid() && View() == ToEnd(old(View()))
    {
      ghost var e := View();
      ViewBuffer();
      cursor := cmdlen;
      ViewIs(ToEnd(e));
    }

    method GoToStart()
      requires Valid()
      modifies this`cursor
      ensures Valid() && View() == ToStart(old(View()))
    {
      ghost var e := View();
      ViewBuffer();
      cursor := 0;
      ViewIs(ToStart(e));
    }
  }

  function InsertedByte(buffer: Line, cursor: int, cmdlen: int, text: Line, k: nat): byte
    requires |buffer| == COMMAND_LINE_LEN && k < COMMAND_LINE_LEN && 0 <= cursor <= cmdlen
  {
    if k < cursor then buffer[k]
    else if k < cursor + |text| then StoredByte(text[k - cursor])
    else if k < cmdlen + |text| then buffer[k - |text|]
    else if k == cmdlen + |text| then 0
    else buffer[k]
  }

  lemma InsertedBuffer(left: Line, right: Line, tail: Line, text: Line, after: Line)
    requires |left| + |right| + |tail| == |after| == COMMAND_LINE_LEN && |text| < |tail|
    requires forall k :: 0 <= k < COMMAND_LINE_LEN ==>
               after[k] == InsertedByte(left + right + tail, |left|, |left| + |right|, text, k)
    ensures after == left + Stored(text) + right + ([0] + tail[|text| + 1..])
  {
    hide Stored, InsertedByte;
    var n, from, to := |text|, |left|, |left| + |right|;
    BufferParts(left, right, tail);
    InsertedParts(left + right + tail, from, to, text, after);
    FourParts(after, from, from + n, to + n);
  }

  lemma InsertedParts(b: Line, from: nat, to: nat, text: Line, after: Line)
    requires |b| == |after| == COMMAND_LINE_LEN && from <= to && to + |text| < COMMAND_LINE_LEN
    requires forall k :: 0 <= k < COMMAND_LINE_LEN ==> after[k] == InsertedByte(b, from, to, text, k)
    ensures var n := |text|;
            && after[..from] == b[..from] && after[from..from + n] == Stored(text)
            && after[from + n..to + n] == b[from..to] && after[to + n] == 0
            && after[to + n + 1..] == b[to..][n + 1..]
  {
    hide Stored;
  }

  lemma BufferParts(left: Line, right: Line, tail: Line)
    ensures var b, from, to := left + right + tail, |left|, |left| + |right|;
            b[..from] == left && b[from..to] == right && b[to..] == tail
  {
  }

  lemma FourParts(s: Line, i: nat, j: nat, k: nat)
    requires i <= j <= k < |s|
    ensures s == s[..i] + s[i..j] + s[j..k] + ([s[k]] + s[k + 1..])
  {
  }

  function ErasedByte(buffer: Line, cursor: int, cmdlen: int, k: nat): byte
    requires |buffer| == COMMAND_LINE_LEN && k < COMMAND_LINE_LEN && 0 < cursor <= cmdlen < COMMAND_LINE_LEN
  {
    if k == cmdlen then 0 else if cursor - 1 <= k < cmdlen then buffer[k + 1] else buffer[k]
  }

  lemma ErasedBuffer(left: Line, right: Line, tail: Line, after: Line)
    requires |left| + |right| + |tail| == |after| == COMMAND_LINE_LEN && left != [] && tail != []
    requires forall k :: 0 <= k < COMMAND_LINE_LEN ==>
               after[k] == ErasedByte(left + right + tail, |left|, |left| + |right|, k)
    ensures after == left[..|left| - 1] + right + ([tail[0], 0] + tail[1..])
  {
    hide ErasedByte;
    var from, to := |left|, |left| + |right|;
    BufferParts(left, right, tail);
    ErasedParts(left + right + tail, from, to, after);
    ThreeParts(after, from - 1, to - 1);
  }

  lemma ThreeParts(s: Line, i: nat, j: nat)
    requires i <= j <= |s| - 2
    ensures s == s[..i] + s[i..j] + ([s[j], s[j + 1]] + s[j + 2..])
  {
  }

  lemma ErasedParts(b: Line, from: nat, to: nat, after: Line)
    requires |b| == |after| == COMMAND_LINE_LEN && 0 < from <= to < COMMAND_LINE_LEN
    requires forall k :: 0 <= k < COMMAND_LINE_LEN ==> after[k] == ErasedByte(b, from, to, k)
    ensures after[..from - 1] == b[..from][..from - 1] && after[from - 1..to - 1] == b[from..to]
    ensures after[to - 1] == b[to..][0] && after[to] == 0 && after[to + 1..] == b[to..][1..]
  {
  }

  lemma Searched(e: Editor, up: bool)
    requires e.Ok()
    ensures up && e.cur == |e.lines| ==> HistSearch(e, up) == e
    ensures HistSearch(e, up).lines == e.lines && HistSearch(e, up).cur <= |e.lines|
    ensures HistSearch(e, up).escape == e.escape && HistSearch(e, up).escapeSeq == e.escapeSeq
    ensures HistSearch(e, up).cur ==
              if up then (if e.cur < |e.lines| then e.cur + 1 else e.cur)
              else if e.cur > 0 then e.cur - 1 else 0
  {
  }

  lemma SearchedBuffer(e: Editor, up: bool, after: Line)
    requires e.Ok() && |after| == COMMAND_LINE_LEN && !(up && e.cur == |e.lines|)
    requires HistSearch(e, up).cur <= |e.lines|
    requires var text := Recall(e.lines, HistSearch(e, up).cur);
             && |text| < COMMAND_LINE_LEN && after[..|text|] == text && after[|text|] == 0
             && forall i :: |text| < i < |after| ==> after[i] == if up then 0 else e.Buffer()[i]
    ensures HistSearch(e, up).left == Recall(e.lines, HistSearch(e, up).cur)
    ensures HistSearch(e, up).right == [] && HistSearch(e, up).Buffer() == after
  {
    var s := HistSearch(e, up);
    var n := |s.left|;
    var rest := after[n + 1..];
    if up {
      assert s.tail == [0] + rest;
    } else {
      assert e.Buffer()[n + 1..] == rest;
    }
    assert s.Buffer() == s.left + ([0] + rest);
    assert after == after[..n] + ([0] + rest);
  }

  lemma MovesKeepBuffer(e: Editor)
    ensures MoveLeft(e).Text() == e.Text() && MoveRight(e).Text() == e.Text()
    ensures MoveLeft(e).Buffer() == e.Buffer() && MoveRight(e).Buffer() == e.Buffer()
  {
    if e.left != [] {
      var k := |e.left| - 1;
      assert e.left == e.left[..k] + [e.left[k]];
      MoveOver(e.left[..k], e.left[k], e.right, e.tail);
    }
    if e.right != [] {
      assert e.right == [e.right[0]] + e.right[1..];
      MoveOver(e.left, e.right[0], e.right[1..], e.tail);
    }
  }

  lemma MoveOver(a: Line, b: byte, c: Line, d: Line)
    ensures a + ([b] + c) == a + [b] + c
    ensures a + ([b] + c) + d == a + [b] + c + d
  {
  }

  lemma EraseLeftStep(e: Editor)
    requires e.tail != []
    ensures EraseLeft(e) == if e.left == [] then e else EraseLeft(Backspace(e))
    ensures e.left != [] ==> |Backspace(e).left| < |e.left|
  {
  }
}
