/** The console's line editor: what it keeps in its buffer, and what it makes the terminal show. */
module LineEditing {
  import opened Basics

  const BACKSPACE := 0x08
  const RETURN := 0x0D
  const LINE_FEED := 0x0A
  const ESCAPE := 0x1B
  const DELETE := 0x7F
  const SPACE := 0x20

  // ---- the terminal

  /** The rows above, the cells of this row (right of the prompt) that were ever written, and the cursor. */
  datatype Terminal = Terminal(above: seq<seq<Byte>>, cells: seq<Byte>, cursor: nat)

  /** A byte arrives: backspace moves left, return goes to the start, line feed down; anything else is shown at the
      cursor. */
  function Show(t: Terminal, c: Byte): Terminal {
    if c == BACKSPACE then t.(cursor := if t.cursor > 0 then t.cursor - 1 else 0)
    else if c == RETURN then t.(cursor := 0)
    else if c == LINE_FEED then t.(above := t.above + [t.cells], cells := [])
    else if t.cursor < |t.cells| then t.(cells := t.cells[t.cursor := c], cursor := t.cursor + 1)
    else t.(cells := t.cells + seq(t.cursor - |t.cells|, _ => SPACE) + [c], cursor := t.cursor + 1)
  }

  /** The end of a line as it is echoed. */
  function NewLine(t: Terminal): Terminal { Show(Show(t, RETURN), LINE_FEED) }

  function ShowAll(t: Terminal, s: seq<Byte>): Terminal
    decreases |s|
  {
    if s == [] then t else ShowAll(Show(t, s[0]), s[1..])
  }

  /** The line is on the screen, followed by blanks, with the cursor behind it. */
  predicate Displays(t: Terminal, line: seq<Byte>) {
    && t.cursor == |line| <= |t.cells| && t.cells[..|line|] == line
    && forall i | |line| <= i < |t.cells| :: t.cells[i] == SPACE
  }

  lemma {:induction false} ShowAppend(t: Terminal, a: seq<Byte>, b: seq<Byte>)
    ensures ShowAll(t, a + b) == ShowAll(ShowAll(t, a), b)
    decreases |a|
  {
    if a == [] {
      assert a + b == b;
    } else {
      assert (a + b)[0] == a[0] && (a + b)[1..] == a[1..] + b;
      ShowAppend(Show(t, a[0]), a[1..], b);
    }
  }

  lemma ShowOne(t: Terminal, c: Byte)
    ensures ShowAll(t, [c]) == Show(t, c)
  {
    assert [c][1..] == [];
  }

  function Repeat(c: Byte, n: nat): (s: seq<Byte>)
    ensures |s| == n
  {
    seq(n, _ => c)
  }

  /** Going left. */
  lemma {:induction false} ShowBack(t: Terminal, n: nat)
    requires n <= t.cursor
    ensures ShowAll(t, Repeat(BACKSPACE, n)) == t.(cursor := t.cursor - n)
    decreases n
  {
    if n > 0 {
      assert Repeat(BACKSPACE, n)[1..] == Repeat(BACKSPACE, n - 1);
      ShowBack(Show(t, BACKSPACE), n - 1);
    }
  }

  /** Writing over cells that exist. */
  lemma {:induction false} ShowBlanks(t: Terminal, n: nat)
    requires t.cursor + n <= |t.cells|
    ensures var u := ShowAll(t, Repeat(SPACE, n));
      u.above == t.above && u.cursor == t.cursor + n && |u.cells| == |t.cells|
      && forall i | 0 <= i < |t.cells| :: u.cells[i] == if t.cursor <= i < t.cursor + n then SPACE else t.cells[i]
    decreases n
  {
    if n > 0 {
      assert Repeat(SPACE, n)[1..] == Repeat(SPACE, n - 1);
      ShowBlanks(Show(t, SPACE), n - 1);
    }
  }

  lemma ShowChar(t: Terminal, line: seq<Byte>, c: Byte)
    requires Displays(t, line) && c >= 32
    ensures Displays(Show(t, c), line + [c]) && Show(t, c).above == t.above
  {
    var u := Show(t, c);
    assert u.cells[..|line| + 1] == line + [c];
  }

  lemma {:induction false} ShowText(t: Terminal, line: seq<Byte>, s: seq<Byte>)
    requires Displays(t, line) && Plain(s)
    ensures Displays(ShowAll(t, s), line + s) && ShowAll(t, s).above == t.above
    decreases |s|
  {
    if s == [] {
      assert line + s == line;
    } else {
      ShowChar(t, line, s[0]);
      ShowText(Show(t, s[0]), line + [s[0]], s[1..]);
      assert line + [s[0]] + s[1..] == line + s;
    }
  }

  /** line_clear wipes the line and leaves the cursor at the prompt. */
  function ClearLine(n: nat): seq<Byte> { Repeat(BACKSPACE, n) + Repeat(SPACE, n) + Repeat(BACKSPACE, n) }

  lemma ShowClear(t: Terminal, line: seq<Byte>)
    requires Displays(t, line)
    ensures Displays(ShowAll(t, ClearLine(|line|)), []) && ShowAll(t, ClearLine(|line|)).above == t.above
  {
    var n := |line|;
    ShowAppend(t, Repeat(BACKSPACE, n) + Repeat(SPACE, n), Repeat(BACKSPACE, n));
    ShowAppend(t, Repeat(BACKSPACE, n), Repeat(SPACE, n));
    ShowBack(t, n);
    var u := t.(cursor := 0);
    ShowBlanks(u, n);
    ShowBack(ShowAll(u, Repeat(SPACE, n)), n);
  }

  /** Backspace, blank, backspace: the last character is gone. */
  lemma ShowErase(t: Terminal, line: seq<Byte>)
    requires Displays(t, line) && line != []
    ensures Displays(ShowAll(t, [BACKSPACE, SPACE, BACKSPACE]), line[..|line| - 1])
    ensures ShowAll(t, [BACKSPACE, SPACE, BACKSPACE]).above == t.above
  {
    var u := Show(Show(Show(t, BACKSPACE), SPACE), BACKSPACE);
    ShowAppend(t, [BACKSPACE], [SPACE] + [BACKSPACE]);
    ShowAppend(Show(t, BACKSPACE), [SPACE], [BACKSPACE]);
    assert [BACKSPACE] + ([SPACE] + [BACKSPACE]) == [BACKSPACE, SPACE, BACKSPACE];
    ShowOne(t, BACKSPACE);
    ShowOne(Show(t, BACKSPACE), SPACE);
    ShowOne(Show(Show(t, BACKSPACE), SPACE), BACKSPACE);
    assert u.cells == t.cells[|line| - 1 := SPACE];
    assert u.cells[..|line| - 1] == t.cells[..|line|][..|line| - 1];
  }

  // ---- the editor

  /** Keys the editor acts on: a byte, or an escape with the two bytes after it. Line ends are not among them. */
  datatype Key = Char(c: Byte) | Escape(first: Byte, second: Byte)

  predicate IsKey(k: Key) { k.Char? ==> k.c != RETURN && k.c != LINE_FEED && k.c != ESCAPE }

  const UP := Escape(0x5B, 0x41)
  const DOWN := Escape(0x5B, 0x42)

  /** `histPos` 0 is live input; `saved` is the live line put aside while browsing. */
  datatype Editor = Editor(line: seq<Byte>, histPos: nat, saved: seq<Byte>, term: Terminal)

  /** No NUL, and no byte the terminal would take for a cursor movement. */
  predicate Plain(s: seq<Byte>) { forall i | 0 <= i < |s| :: s[i] >= 32 }

  /** The lines of the history, oldest first, as they were entered. */
  predicate History(hist: seq<seq<Byte>>, max: nat) {
    forall i | 0 <= i < |hist| :: Plain(hist[i]) && |hist[i]| < max
  }

  /** The position an arrow key leads to. */
  function NewPos(pos: nat, up: bool, count: nat): nat {
    var p := if up then pos + 1 else if pos > 0 then pos - 1 else 0;
    if p > count then count else p
  }

  function Arrow(e: Editor, up: bool, hist: seq<seq<Byte>>): Editor {
    var pos := NewPos(e.histPos, up, |hist|);
    if pos == e.histPos then e
    else
      var saved := if e.histPos == 0 then e.line else e.saved;
      var line := if pos == 0 then saved else hist[|hist| - pos];
      Editor(line, pos, saved, ShowAll(ShowAll(e.term, ClearLine(|e.line|)), line))
  }

  function Press(e: Editor, k: Key, hist: seq<seq<Byte>>, max: nat): Editor {
    match k
    case Escape(a, b) => if a != 0x5B || (b != 0x41 && b != 0x42) then e else Arrow(e, b == 0x41, hist)
    case Char(c) =>
      if (c == BACKSPACE || c == DELETE) && e.line != [] then
        e.(line := e.line[..|e.line| - 1], term := ShowAll(e.term, [BACKSPACE, SPACE, BACKSPACE]))
      else if c >= 32 && |e.line| + 1 < max then
        e.(line := e.line + [c], histPos := 0, term := Show(e.term, c))
      else e
  }

  /** The screen shows the line, everything fits, and the history position exists. */
  predicate Good(e: Editor, hist: seq<seq<Byte>>, max: nat) {
    && Displays(e.term, e.line) && Plain(e.line) && |e.line| < max
    && e.histPos <= |hist| && Plain(e.saved) && |e.saved| < max
  }

  lemma ArrowGood(e: Editor, up: bool, hist: seq<seq<Byte>>, max: nat)
    requires Good(e, hist, max) && History(hist, max)
    ensures Good(Arrow(e, up, hist), hist, max) && Arrow(e, up, hist).term.above == e.term.above
  {
    var pos := NewPos(e.histPos, up, |hist|);
    if pos != e.histPos {
      var r := Arrow(e, up, hist);
      assert pos > 0 ==> r.line == hist[|hist| - pos];
      ShowClear(e.term, e.line);
      ShowText(ShowAll(e.term, ClearLine(|e.line|)), [], r.line);
      assert [] + r.line == r.line;
    }
  }

  lemma ArrowIs(e: Editor, up: bool, hist: seq<seq<Byte>>, max: nat)
    requires Good(e, hist, max)
    ensures e.histPos <= |hist| && Plain(e.line)
    ensures var pos := NewPos(e.histPos, up, |hist|);
      Arrow(e, up, hist) ==
        if pos == e.histPos then e
        else
          var saved := if e.histPos == 0 then e.line else e.saved;
          var line := if pos == 0 then saved else hist[|hist| - pos];
          Editor(line, pos, saved, ShowAll(ShowAll(e.term, ClearLine(|e.line|)), line))
  {}

  /** After every key the terminal shows exactly the buffer, cursor at its end, and the buffer has room for its NUL. */
  lemma PressGood(e: Editor, k: Key, hist: seq<seq<Byte>>, max: nat)
    requires Good(e, hist, max) && History(hist, max) && IsKey(k)
    ensures Good(Press(e, k, hist, max), hist, max) && Press(e, k, hist, max).term.above == e.term.above
  {
    match k {
      case Escape(_, b) => ArrowGood(e, b == 0x41, hist, max);
      case Char(c) =>
        if (c == BACKSPACE || c == DELETE) && e.line != [] {
          ShowErase(e.term, e.line);
        } else if c >= 32 {
          ShowChar(e.term, e.line, c);
        }
    }
  }

  function Type(e: Editor, ks: seq<Key>, hist: seq<seq<Byte>>, max: nat): Editor
    decreases |ks|
  {
    if ks == [] then e else Type(Press(e, ks[0], hist, max), ks[1..], hist, max)
  }

  lemma {:induction false} TypeGood(e: Editor, ks: seq<Key>, hist: seq<seq<Byte>>, max: nat)
    requires Good(e, hist, max) && History(hist, max) && forall i | 0 <= i < |ks| :: IsKey(ks[i])
    ensures Good(Type(e, ks, hist, max), hist, max) && Type(e, ks, hist, max).term.above == e.term.above
    decreases |ks|
  {
    if ks != [] {
      PressGood(e, ks[0], hist, max);
      TypeGood(Press(e, ks[0], hist, max), ks[1..], hist, max);
    }
  }

  /** Whatever was typed, the line end leaves the edited line, and nothing else, as one more row of the screen. */
  lemma LineLands(e: Editor, ks: seq<Key>, hist: seq<seq<Byte>>, max: nat)
    requires Good(e, hist, max) && History(hist, max) && forall i | 0 <= i < |ks| :: IsKey(ks[i])
    ensures var line, t := Type(e, ks, hist, max).line, NewLine(Type(e, ks, hist, max).term);
      && |t.above| == |e.term.above| + 1 && e.term.above <= t.above && Displays(t, [])
      && var row := t.above[|e.term.above|]; line <= row && forall i | |line| <= i < |row| :: row[i] == SPACE
  {
    TypeGood(e, ks, hist, max);
  }

  /** The delete character is a backspace iff there is something to erase (or the buffer holds no character at all):
      on an empty line it is inserted. */
  lemma DeleteIsBackspace(e: Editor, hist: seq<seq<Byte>>, max: nat)
    ensures Press(e, Char(DELETE), hist, max) == Press(e, Char(BACKSPACE), hist, max) <==> e.line != [] || max <= 1
    ensures e.line == [] && max > 1 ==> Press(e, Char(DELETE), hist, max).line == [DELETE]
  {
    if e.line == [] && max > 1 {
      assert Press(e, Char(BACKSPACE), hist, max) == e && Press(e, Char(DELETE), hist, max).line == [] + [DELETE];
    }
  }

  // ---- browsing the history and coming back

  /** The editor is browsing after each of the keys. */
  predicate StaysAway(e: Editor, ks: seq<Key>, hist: seq<seq<Byte>>, max: nat)
    decreases |ks|
  {
    e.histPos > 0 && (ks == [] || StaysAway(Press(e, ks[0], hist, max), ks[1..], hist, max))
  }

  lemma {:induction false} SavedKept(e: Editor, ks: seq<Key>, hist: seq<seq<Byte>>, max: nat)
    requires StaysAway(e, ks, hist, max) && forall i | 0 <= i < |ks| :: IsKey(ks[i])
    ensures Type(e, ks, hist, max).saved == e.saved && Type(e, ks, hist, max).histPos > 0
    decreases |ks|
  {
    if ks != [] {
      SavedKept(Press(e, ks[0], hist, max), ks[1..], hist, max);
    }
  }

  /** From live input, up, then any keys that stay in the history, then a down arrow that leaves it: the live line
      is back, and on the screen. */
  lemma BackToLive(e: Editor, ks: seq<Key>, hist: seq<seq<Byte>>, max: nat)
    requires Good(e, hist, max) && History(hist, max) && e.histPos == 0 && |hist| > 0
    requires (forall i | 0 <= i < |ks| :: IsKey(ks[i])) && StaysAway(Press(e, UP, hist, max), ks, hist, max)
    requires Press(Type(Press(e, UP, hist, max), ks, hist, max), DOWN, hist, max).histPos == 0
    ensures var r := Press(Type(Press(e, UP, hist, max), ks, hist, max), DOWN, hist, max);
      r.line == e.line && Displays(r.term, e.line)
  {
    hide Press, Type, Good, Displays, StaysAway, History;
    var e1 := Press(e, UP, hist, max);
    UpSaves(e, hist, max);
    LeavesTo(Type(e1, ks, hist, max), hist, max);
    PressGood(e, UP, hist, max);
    SavedKept(e1, ks, hist, max);
    TypeGood(e1, ks, hist, max);
    PressGood(Type(e1, ks, hist, max), DOWN, hist, max);
    GoodShows(Press(Type(e1, ks, hist, max), DOWN, hist, max), hist, max);
  }

  lemma UpSaves(e: Editor, hist: seq<seq<Byte>>, max: nat)
    requires e.histPos == 0 && |hist| > 0
    ensures Press(e, UP, hist, max).saved == e.line && IsKey(UP) && IsKey(DOWN)
  {}

  lemma LeavesTo(e: Editor, hist: seq<seq<Byte>>, max: nat)
    ensures e.histPos > 0 && Press(e, DOWN, hist, max).histPos == 0 ==> Press(e, DOWN, hist, max).line == e.saved
  {}

  lemma GoodShows(e: Editor, hist: seq<seq<Byte>>, max: nat)
    requires Good(e, hist, max)
    ensures Displays(e.term, e.line)
  {}

  /** While browsing at position p before any backspace, the line is the p-th most recent one. */
  lemma ArrowShowsLine(e: Editor, up: bool, hist: seq<seq<Byte>>)
    requires e.histPos <= |hist|
    ensures var r := Arrow(e, up, hist);
      && r.histPos <= |hist|
      && (r.histPos != e.histPos && r.histPos > 0 ==> r.line == hist[|hist| - r.histPos])
      && (up ==> r.histPos == if e.histPos < |hist| then e.histPos + 1 else e.histPos)
      && (!up ==> r.histPos == if e.histPos > 0 then e.histPos - 1 else 0)
  {}

  // ---- as it runs

  /** The history as stored: records of the buffer's size, each holding a string and its NUL. */
  predicate Records(hist: seq<seq<Byte>>, max: nat) {
    forall i | 0 <= i < |hist| :: |hist[i]| == max && |CString(hist[i])| < max && Plain(CString(hist[i]))
  }

  function Lines(hist: seq<seq<Byte>>): (r: seq<seq<Byte>>)
    ensures |r| == |hist| && forall i | 0 <= i < |hist| :: r[i] == CString(hist[i])
  {
    seq(|hist|, i requires 0 <= i < |hist| => CString(hist[i]))
  }

  class Console {
    const max: nat
    const buf: array<Byte>
    const saved: array<Byte>
    const hist: seq<seq<Byte>>
    var len: nat
    var histPos: nat
    ghost var term: Terminal

    ghost predicate Valid()
      reads this, buf, saved
    {
      && buf.Length == saved.Length == max > 0 && buf != saved && Records(hist, max) && len < max
      && |CString(saved[..])| < max && Good(View(), Lines(hist), max)
    }

    ghost function View(): Editor
      reads this, buf, saved
      requires buf.Length == max && len < max
    {
      Editor(buf[..len], histPos, CString(saved[..]), term)
    }

    /** An empty line right behind the prompt, whatever the line before has left in the buffer. */
    constructor (line: seq<Byte>, records: seq<seq<Byte>>, t: Terminal)
      requires line != [] && Records(records, |line|) && Displays(t, [])
      ensures Valid() && View() == Editor([], 0, [], t)
      ensures hist == records && max == |line| && fresh(buf) && fresh(saved)
    {
      max, hist := |line|, records;
      buf, saved := new Byte[|line|](i requires 0 <= i < |line| => line[i]), new Byte[|line|](_ => 0);
      len, histPos, term := 0, 0, t;
    }

    /** mini_uart_send */
    method Send(c: Byte)
      modifies this`term
      ensures term == Show(old(term), c)
    {
      term := Show(term, c);
    }

    method SendRepeated(c: Byte, n: nat)
      modifies this`term
      ensures term == ShowAll(old(term), Repeat(c, n))
    {
      var i := 0;
      while i < n
        invariant 0 <= i <= n && term == ShowAll(old(term), Repeat(c, i))
      {
        ShowAppend(old(term), Repeat(c, i), [c]);
        assert Repeat(c, i + 1) == Repeat(c, i) + [c];
        ShowOne(term, c);
        Send(c);
        i := i + 1;
      }
    }

    method LineClear(n: nat)
      modifies this`term
      ensures term == ShowAll(old(term), ClearLine(n))
    {
      ShowAppend(term, Repeat(BACKSPACE, n) + Repeat(SPACE, n), Repeat(BACKSPACE, n));
      ShowAppend(term, Repeat(BACKSPACE, n), Repeat(SPACE, n));
      SendRepeated(BACKSPACE, n);
      SendRepeated(SPACE, n);
      SendRepeated(BACKSPACE, n);
    }

    /** The line as it now is, sent character by character. */
    method SendLine()
      requires buf.Length == max && len < max
      modifies this`term
      ensures term == ShowAll(old(term), buf[..len])
    {
      var i := 0;
      while i < len
        invariant 0 <= i <= len && term == ShowAll(old(term), buf[..i])
      {
        ShowAppend(old(term), buf[..i], [buf[i]]);
        assert buf[..i + 1] == buf[..i] + [buf[i]];
        ShowOne(term, buf[i]);
        Send(buf[i]);
        i := i + 1;
      }
    }

    /** A byte that is neither a line end nor an escape. */
    method HandleChar(c: Byte)
      requires Valid() && IsKey(Char(c))
      modifies this`len, this`histPos, this`term, buf
      ensures Valid() && View() == Press(old(View()), Char(c), Lines(hist), max)
    {
      ghost var e := View();
      PressGood(e, Char(c), Lines(hist), max);
      hide Good, ShowAll, Displays, CString;
      if (c == BACKSPACE || c == DELETE) && len > 0 {
        len := len - 1;
        EraseBytes(term);
        Send(BACKSPACE);
        Send(SPACE);
        Send(BACKSPACE);
        assert buf[..len] == e.line[..|e.line| - 1];
        return;
      }
      if c >= 32 && len < max - 1 {
        buf[len] := c;
        len := len + 1;
        Send(c);
        histPos := 0;
        assert buf[..len] == e.line + [c];
      }
    }

    lemma EraseBytes(t: Terminal)
      ensures ShowAll(t, [BACKSPACE, SPACE, BACKSPACE]) == Show(Show(Show(t, BACKSPACE), SPACE), BACKSPACE)
    {
      ShowAppend(t, [BACKSPACE], [SPACE] + [BACKSPACE]);
      ShowAppend(Show(t, BACKSPACE), [SPACE], [BACKSPACE]);
      assert [BACKSPACE] + ([SPACE] + [BACKSPACE]) == [BACKSPACE, SPACE, BACKSPACE];
      ShowOne(t, BACKSPACE);
      ShowOne(Show(t, BACKSPACE), SPACE);
      ShowOne(Show(Show(t, BACKSPACE), SPACE), BACKSPACE);
    }

    /** An arrow key, up or down. */
    method HandleArrow(up: bool)
      requires Valid()
      modifies this`len, this`histPos, this`term, buf, saved
      ensures Valid() && View() == Arrow(old(View()), up, Lines(hist))
    {
      hide Good, ShowAll, Displays, Show, ClearLine, Arrow, Plain;
      ghost var e := View();
      ArrowGood(e, up, Lines(hist), max);
      ArrowIs(e, up, Lines(hist), max);
      var newPos: int := histPos + if up then 1 else -1;
      if newPos < 0 {
        newPos := 0;
      }
      if newPos > |hist| {
        newPos := |hist|;
      }
      if newPos == histPos {
        return;
      }
      if histPos == 0 {
        SaveLine();
      }
      LineClear(len);
      histPos := newPos;
      if histPos == 0 {
        LoadSaved();
      } else {
        LoadLine(hist[|hist| - histPos]);
      }
      SendLine();
    }

    /** buf[len] = 0, and the line with its NUL goes to `saved`. */
    method SaveLine()
      requires buf.Length == saved.Length == max && buf != saved && len < max && Plain(buf[..len])
      modifies buf, saved
      ensures CString(saved[..]) == old(buf[..len]) && buf[..len] == old(buf[..len])
    {
      ghost var w := buf[..len];
      buf[len] := 0;
      var i := 0;
      while i <= len
        modifies saved
        invariant 0 <= i <= len + 1 && forall k | 0 <= k < i :: saved[k] == buf[k]
      {
        saved[i] := buf[i];
        i := i + 1;
      }
      assert forall k | 0 <= k < len :: saved[k] == w[k] && w[k] != 0;
      assert saved[..][..len] == w && buf[..len] == w;
      CutIs(saved[..], len);
    }

    /** The saved line comes back, byte by byte. */
    method LoadSaved()
      requires buf.Length == saved.Length == max && buf != saved && |CString(saved[..])| < max
      modifies this`len, buf
      ensures len == |CString(saved[..])| && buf[..len] == CString(saved[..])
    {
      len := 0;
      while saved[len] != 0
        invariant len <= |CString(saved[..])| && buf[..len] == saved[..len]
        decreases max - len
      {
        buf[len] := saved[len];
        len := len + 1;
      }
      buf[len] := 0;
    }

    lemma StringAt(s: seq<Byte>, k: nat)
      requires k <= |CString(s)| < |s|
      ensures s[k] == 0 <==> k == |CString(s)|
    {}

    /** A whole record of the history is copied into the buffer, and its length found. */
    method LoadLine(record: seq<Byte>)
      requires buf.Length == max && |record| == max && |CString(record)| < max
      modifies this`len, buf
      ensures len == |CString(record)| && buf[..len] == CString(record)
    {
      var i := 0;
      while i < max
        modifies buf
        invariant 0 <= i <= max && buf[..i] == record[..i]
      {
        buf[i] := record[i];
        i := i + 1;
      }
      assert buf[..] == record;
      ghost var t := CString(record);
      hide CString;
      len := 0;
      while buf[len] != 0
        modifies this`len
        invariant len <= |t| && buf[..] == record
        decreases max - len
      {
        StringAt(record, len);
        len := len + 1;
      }
      StringAt(record, len);
      assert buf[..len] == record[..len];
      buf[len] := 0;
    }

    /** console_readline on the bytes that arrive; false while more are needed for a line. */
    method ReadLine(input: seq<Byte>) returns (done: bool, used: nat)
      requires Valid()
      modifies this`len, this`histPos, this`term, buf, saved
      ensures buf.Length == max && len < max
      ensures var r := ReadKeys(input, 0);
        && var e := Type(old(View()), r.keys, Lines(hist), max);
        && done == r.done && used == r.used && View() == if done then e.(term := NewLine(e.term)) else e
      ensures if done then buf[len] == 0 else Valid()
    {
      hide Press, Type, ReadKeys, Good, CString;
      ghost var e := View();
      ghost var typed: seq<Key> := [];
      TypeNothing(e, Lines(hist), max);
      used := 0;
      assert ReadKeys(input, 0).keys == [] + ReadKeys(input, 0).keys;
      while used < |input|
        invariant Valid() && used <= |input| && View() == Type(e, typed, Lines(hist), max)
        invariant ReadKeys(input, 0) == ReadKeys(input, used).(keys := typed + ReadKeys(input, used).keys)
        decreases |input| - used
      {
        var c := input[used];
        KeysStep(input, used);
        if c == RETURN || c == LINE_FEED {
          Send(RETURN);
          Send(LINE_FEED);
          EndOfLine();
          assert typed + [] == typed;
          return true, used + 1;
        }
        if c == ESCAPE {
          if used + 2 >= |input| {
            assert typed + [] == typed;
            return false, used;
          }
          TypeMore(e, typed, Escape(input[used + 1], input[used + 2]), Lines(hist), max);
          HandleEscape(input[used + 1], input[used + 2]);
          typed := typed + [Escape(input[used + 1], input[used + 2])];
          used := used + 3;
        } else {
          TypeMore(e, typed, Char(c), Lines(hist), max);
          HandleChar(c);
          typed := typed + [Char(c)];
          used := used + 1;
        }
      }
      KeysStep(input, used);
      assert typed + [] == typed;
      done := false;
    }

    method EndOfLine()
      requires buf.Length == max && len < max && buf != saved
      modifies buf
      ensures buf[len] == 0 && buf[..len] == old(buf[..len])
    {
      buf[len] := 0;
    }

    method HandleEscape(first: Byte, second: Byte)
      requires Valid()
      modifies this`len, this`histPos, this`term, buf, saved
      ensures Valid() && View() == Press(old(View()), Escape(first, second), Lines(hist), max)
    {
      hide Good, CString, Arrow;
      if first != 0x5B {
        return;
      }
      if second != 0x41 && second != 0x42 {
        return;
      }
      HandleArrow(second == 0x41);
    }
  }

  /** The keys in a stream of bytes up to a line end, how many bytes they take, and whether the line end was there. */
  datatype Reading = Reading(keys: seq<Key>, used: nat, done: bool)

  function ReadKeys(input: seq<Byte>, i: nat): Reading
    requires i <= |input|
    decreases |input| - i
  {
    if i == |input| then Reading([], i, false)
    else if input[i] == RETURN || input[i] == LINE_FEED then Reading([], i + 1, true)
    else if input[i] == ESCAPE then
      if i + 2 >= |input| then Reading([], i, false)
      else var r := ReadKeys(input, i + 3); r.(keys := [Escape(input[i + 1], input[i + 2])] + r.keys)
    else var r := ReadKeys(input, i + 1); r.(keys := [Char(input[i])] + r.keys)
  }

  lemma KeysStep(input: seq<Byte>, i: nat)
    requires i <= |input|
    ensures i == |input| ==> ReadKeys(input, i) == Reading([], i, false)
    ensures i < |input| && (input[i] == RETURN || input[i] == LINE_FEED) ==>
      ReadKeys(input, i) == Reading([], i + 1, true)
    ensures i < |input| && input[i] == ESCAPE && i + 2 >= |input| ==> ReadKeys(input, i) == Reading([], i, false)
    ensures i + 2 < |input| && input[i] == ESCAPE ==> forall ks: seq<Key> {:trigger ks + ReadKeys(input, i).keys} ::
      ReadKeys(input, i).(keys := ks + ReadKeys(input, i).keys) ==
        ReadKeys(input, i + 3).(keys := ks + [Escape(input[i + 1], input[i + 2])] + ReadKeys(input, i + 3).keys)
    ensures i < |input| && input[i] != RETURN && input[i] != LINE_FEED && input[i] != ESCAPE ==>
      forall ks: seq<Key> {:trigger ks + ReadKeys(input, i).keys} ::
        ReadKeys(input, i).(keys := ks + ReadKeys(input, i).keys) ==
          ReadKeys(input, i + 1).(keys := ks + [Char(input[i])] + ReadKeys(input, i + 1).keys)
  {
    if i + 2 < |input| && input[i] == ESCAPE {
      var k, r := [Escape(input[i + 1], input[i + 2])], ReadKeys(input, i + 3).keys;
      assert forall ks: seq<Key> {:trigger ks + k} :: ks + (k + r) == ks + k + r;
    } else if i < |input| && input[i] != RETURN && input[i] != LINE_FEED && input[i] != ESCAPE {
      var k, r := [Char(input[i])], ReadKeys(input, i + 1).keys;
      assert forall ks: seq<Key> {:trigger ks + k} :: ks + (k + r) == ks + k + r;
    }
  }

  lemma TypeNothing(e: Editor, hist: seq<seq<Byte>>, max: nat)
    ensures Type(e, [], hist, max) == e
  {}

  lemma {:induction false} TypeMore(e: Editor, ks: seq<Key>, k: Key, hist: seq<seq<Byte>>, max: nat)
    ensures Type(e, ks + [k], hist, max) == Press(Type(e, ks, hist, max), k, hist, max)
    decreases |ks|
  {
    if ks == [] {
      assert ([] + [k])[1..] == [];
    } else {
      assert (ks + [k])[1..] == ks[1..] + [k];
      TypeMore(Press(e, ks[0], hist, max), ks[1..], k, hist, max);
    }
  }

  lemma {:induction false} CutIs(s: seq<Byte>, n: nat)
    requires n < |s| && s[n] == 0 && forall i | 0 <= i < n :: s[i] != 0
    ensures CString(s) == s[..n]
  {
    if n > 0 {
      CutIs(s[1..], n - 1);
      assert s[..n] == [s[0]] + s[1..][..n - 1];
    }
  }
}
