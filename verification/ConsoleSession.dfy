/** The console over a whole session: every line read goes into the history that the editor then browses. */
module ConsoleSessions {
  import opened Basics
  import opened LineEditing
  import opened LineTyping
  import RingBuffers

  const BLANK_SCREEN := Terminal([], [], 0)

  /** The line a row of keys leaves behind, with that history. */
  function Edited(keys: seq<Key>, hist: seq<seq<Byte>>, max: nat): seq<Byte> {
    Type(Editor([], 0, [], BLANK_SCREEN), keys, hist, max).line
  }

  /**
   * All lines entered, oldest first, when the bytes from `at` on arrive and those of `past` came before. Of them the
   * last `n` are the history. An empty line is not one of them, and neither is a line without its end.
   */
  function Entered(input: seq<Byte>, at: nat, past: seq<seq<Byte>>, n: nat, max: nat): seq<seq<Byte>>
    requires at <= |input|
    decreases |input| - at
  {
    var r := ReadKeys(input[at..], 0);
    if !r.done then past
    else
      ReadKeysUse(input[at..], 0);
      var line := Edited(r.keys, RingBuffers.Latest(past, n), max);
      Entered(input, at + r.used, if line == [] then past else past + [line], n, max)
  }

  lemma {:induction false} ReadKeysUse(input: seq<Byte>, i: nat)
    requires i <= |input|
    ensures var r := ReadKeys(input, i); i <= r.used <= |input| && (r.done ==> i < r.used)
    ensures forall k | 0 <= k < |ReadKeys(input, i).keys| :: IsKey(ReadKeys(input, i).keys[k])
    decreases |input| - i
  {
    if i < |input| && input[i] != RETURN && input[i] != LINE_FEED {
      if input[i] != ESCAPE {
        ReadKeysUse(input, i + 1);
      } else if i + 2 < |input| {
        ReadKeysUse(input, i + 3);
      }
    }
  }

  /** A buffer that holds a line and its NUL is a record of that line. */
  lemma RecordOf(buf: seq<Byte>, len: nat, line: seq<Byte>)
    requires len < |buf| && buf[..len] == line && buf[len] == 0 && Plain(line)
    ensures CString(buf) == line && (buf[0] == 0 <==> line == [])
  {
    forall i | 0 <= i < len ensures buf[i] != 0 {
      assert buf[i] == line[i];
    }
    CutIs(buf, len);
  }

  lemma LinesAppend(recs: seq<seq<Byte>>, record: seq<Byte>)
    ensures Lines(recs + [record]) == Lines(recs) + [CString(record)]
  {
    hide CString;
  }

  lemma LinesLatest(recs: seq<seq<Byte>>, n: nat)
    ensures Lines(RingBuffers.Latest(recs, n)) == RingBuffers.Latest(Lines(recs), n)
  {
    hide CString;
  }

  predicate IsRecord(record: seq<Byte>, max: nat) {
    |record| == max && |CString(record)| < max && Plain(CString(record))
  }

  lemma RecordsLatest(recs: seq<seq<Byte>>, record: seq<Byte>, n: nat, max: nat)
    requires Records(recs, max) && IsRecord(record, max)
    ensures Records(RingBuffers.Latest(recs + [record], n), max)
  {
    hide CString, Plain;
  }

  /** The records of the ring, oldest first, as history_get delivers them. */
  method Snapshot(rb: RingBuffers.RingBuf) returns (recs: seq<seq<Byte>>)
    requires rb.Valid()
    ensures recs == rb.View()
  {
    var n := rb.Count();
    recs := [];
    while |recs| < n
      invariant |recs| <= n && recs == rb.View()[n - |recs|..]
    {
      var ok, record := rb.Peek(|recs|);
      recs := [record] + recs;
    }
  }

  lemma RecordsAreHistory(recs: seq<seq<Byte>>, max: nat)
    requires Records(recs, max)
    ensures History(Lines(recs), max)
  {
    hide CString, Plain;
  }

  lemma BlankIsGood(hist: seq<seq<Byte>>, max: nat)
    requires max > 0
    ensures Good(Editor([], 0, [], BLANK_SCREEN), hist, max) && Displays(BLANK_SCREEN, [])
  {}

  lemma EditedGood(keys: seq<Key>, hist: seq<seq<Byte>>, max: nat)
    requires max > 0 && History(hist, max) && forall i | 0 <= i < |keys| :: IsKey(keys[i])
    ensures Plain(Edited(keys, hist, max)) && |Edited(keys, hist, max)| < max
  {
    BlankIsGood(hist, max);
    TypeGood(Editor([], 0, [], BLANK_SCREEN), keys, hist, max);
  }

  /** console_readline with the history as it is and whatever the line before has left in the buffer. */
  method OneLine(input: seq<Byte>, before: seq<Byte>, recs: seq<seq<Byte>>)
    returns (done: bool, used: nat, line: seq<Byte>)
    requires before != [] && Records(recs, |before|)
    ensures done == ReadKeys(input, 0).done && used == ReadKeys(input, 0).used && |line| == |before|
    ensures done ==> IsRecord(line, |before|) && (line[0] == 0 <==> CString(line) == [])
    ensures done ==> CString(line) == Edited(ReadKeys(input, 0).keys, Lines(recs), |before|)
  {
    hide Press, Type, ReadKeys, Good, CString, Plain, Records, History;
    ghost var keys, max := ReadKeys(input, 0).keys, |before|;
    BlankIsGood(Lines(recs), max);
    RecordsAreHistory(recs, max);
    ReadKeysUse(input, 0);
    EditedGood(keys, Lines(recs), max);
    var console := new Console(before, recs, BLANK_SCREEN);
    done, used := console.ReadLine(input);
    line := console.buf[..];
    if done {
      RecordOf(line, console.len, Edited(keys, Lines(recs), max));
    }
  }

  lemma EnteredStep(input: seq<Byte>, at: nat, past: seq<seq<Byte>>, n: nat, max: nat)
    requires at <= |input|
    ensures var r := ReadKeys(input[at..], 0);
      && r.used <= |input| - at && (r.done ==> r.used > 0)
      && Entered(input, at, past, n, max) ==
        if !r.done then past
        else
          var line := Edited(r.keys, RingBuffers.Latest(past, n), max);
          Entered(input, at + r.used, if line == [] then past else past + [line], n, max)
  {
    hide Edited;
    ReadKeysUse(input[at..], 0);
  }

  /** What history_push makes of the ring, told by its lines. */
  lemma Pushed(recs: seq<seq<Byte>>, record: seq<Byte>, past: seq<seq<Byte>>, n: nat, max: nat)
    requires Records(recs, max) && IsRecord(record, max) && Lines(recs) == RingBuffers.Latest(past, n)
    ensures Records(RingBuffers.Latest(recs + [record], n), max)
    ensures Lines(RingBuffers.Latest(recs + [record], n)) == RingBuffers.Latest(past + [CString(record)], n)
  {
    hide CString, Records, Lines, RingBuffers.Latest;
    RecordsLatest(recs, record, n, max);
    LinesAppend(recs, record);
    LinesLatest(recs + [record], n);
    RingBuffers.LatestTwice(past, CString(record), n);
  }

  /** console_task: lines are read one after the other, each with the history the ones before have left. */
  method Session(input: seq<Byte>, garbage: seq<Byte>, rb: RingBuffers.RingBuf)
    requires garbage != [] && rb.Valid() && rb.elemSize == |garbage| && rb.View() == []
    modifies rb, rb.buf
    ensures rb.Valid() && Records(rb.View(), rb.elemSize)
    ensures Lines(rb.View()) == RingBuffers.Latest(Entered(input, 0, [], rb.capacity - 1, rb.elemSize), rb.capacity - 1)
  {
    hide Entered, Edited, ReadKeys, CString, Records, Lines, RingBuffers.Latest, Plain;
    ghost var past: seq<seq<Byte>>, n, max := [], rb.capacity - 1, rb.elemSize;
    var line, at, done := garbage, 0, true;
    NoLines(n, max);
    while done
      invariant at <= |input| && rb.Valid() && |line| == max && Records(rb.View(), max)
      invariant Lines(rb.View()) == RingBuffers.Latest(past, n)
      invariant Entered(input, 0, [], n, max) == if done then Entered(input, at, past, n, max) else past
      decreases done, |input| - at
    {
      EnteredStep(input, at, past, n, max);
      var recs := Snapshot(rb);
      var used;
      done, used, line := OneLine(input[at..], line, recs);
      if done {
        at := at + used;
        if line[0] != 0 {
          Pushed(recs, line, past, n, max);
          past := past + [CString(line)];
          rb.HistoryPush(line);
        }
      }
    }
  }

  lemma NoLines(n: nat, max: nat)
    ensures Records([], max) && Lines([]) == RingBuffers.Latest([], n) == []
  {}

  /** So the lines the editor browses are the last ones entered, and every one of them fits the buffer and the
      screen. */
  lemma {:induction false} EnteredFit(input: seq<Byte>, at: nat, past: seq<seq<Byte>>, n: nat, max: nat)
    requires at <= |input| && max > 0 && History(past, max)
    ensures past <= Entered(input, at, past, n, max) && History(Entered(input, at, past, n, max), max)
    ensures forall i | |past| <= i < |Entered(input, at, past, n, max)| :: Entered(input, at, past, n, max)[i] != []
    decreases |input| - at
  {
    hide Edited, ReadKeys, Plain;
    EnteredStep(input, at, past, n, max);
    var r := ReadKeys(input[at..], 0);
    if r.done {
      ReadKeysUse(input[at..], 0);
      var hist := RingBuffers.Latest(past, n);
      EditedGood(r.keys, hist, max);
      var line := Edited(r.keys, hist, max);
      EnteredFit(input, at + r.used, if line == [] then past else past + [line], n, max);
    }
  }

  // ---- lines of plain text

  /** Each line of text with a return after it. */
  function Typed(texts: seq<seq<Byte>>): seq<Byte> {
    if texts == [] then [] else texts[0] + [RETURN] + Typed(texts[1..])
  }

  predicate Enterable(text: seq<Byte>, max: nat) { Printable(text) && 0 < |text| < max }

  lemma OneText(input: seq<Byte>, at: nat, text: seq<Byte>, more: seq<Byte>, past: seq<seq<Byte>>, n: nat, max: nat)
    requires at <= |input| && input[at..] == text + [RETURN] + more && Enterable(text, max)
    ensures var next := at + |text| + 1;
      && next <= |input| && input[next..] == more
      && Entered(input, at, past, n, max) == Entered(input, next, past + [text], n, max)
  {
    hide ReadKeys, Type, Printable, Entered;
    LineTyped(Editor([], 0, [], BLANK_SCREEN), text, more, RingBuffers.Latest(past, n), max);
    EnteredStep(input, at, past, n, max);
    var r := ReadKeys(input[at..], 0);
    assert |input[at..][r.used..]| == |more|;
    assert text[..Min(|text|, max - 1)] == text;
    assert input[at..][r.used..] == input[at + r.used..];
  }

  /** Lines of text typed one after the other are entered as they are; so the history holds the latest of them. */
  lemma {:induction false} TextsEntered(input: seq<Byte>, at: nat, texts: seq<seq<Byte>>, past: seq<seq<Byte>>, n: nat,
      max: nat)
    requires at <= |input| && input[at..] == Typed(texts) && forall i | 0 <= i < |texts| :: Enterable(texts[i], max)
    ensures Entered(input, at, past, n, max) == past + texts
    decreases |texts|
  {
    hide Entered, Enterable;
    if texts == [] {
      NothingEntered(input, at, past, n, max);
    } else {
      var text := texts[0];
      OneText(input, at, text, Typed(texts[1..]), past, n, max);
      TextsEntered(input, at + |text| + 1, texts[1..], past + [text], n, max);
      assert past + [text] + texts[1..] == past + texts;
    }
  }

  lemma NothingEntered(input: seq<Byte>, at: nat, past: seq<seq<Byte>>, n: nat, max: nat)
    requires at == |input|
    ensures Entered(input, at, past, n, max) == past + []
  {
    EnteredStep(input, at, past, n, max);
  }
}
