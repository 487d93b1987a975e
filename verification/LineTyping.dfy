/** What the keys do to the line, whatever is on the screen: typing, erasing, and reading keys off the wire. */
module LineTyping {
  import opened Basics
  import opened LineEditing

  // ---- single keys

  /** A character that can be typed into a line: nothing below the blank, and DEL only where it does not erase. */
  predicate Types(c: Byte, line: seq<Byte>) { ' ' as int <= c && (c == DELETE ==> line == []) }

  /** Backspace or DEL, where there is something to erase. */
  predicate Erases(c: Byte, line: seq<Byte>) { (c == BACKSPACE || c == DELETE) && line != [] }

  /** A key that can be typed appends exactly itself and ends browsing, as long as there is room for the NUL; a key
      that erases takes exactly the last character; every other one changes nothing. */
  lemma KeyMeans(e: Editor, c: Byte, hist: seq<seq<Byte>>, max: nat)
    requires |e.line| < max
    ensures var r := Press(e, Char(c), hist, max);
      && r.saved == e.saved
      && (Types(c, e.line) && |e.line| < max - 1 ==> r.line == e.line + [c] && r.histPos == 0)
      && (Types(c, e.line) && |e.line| == max - 1 ==> r == e)
      && (Erases(c, e.line) ==> exists last: Byte :: e.line == r.line + [last] && r.histPos == e.histPos)
      && (!Types(c, e.line) && !Erases(c, e.line) ==> r == e)
      && !(Types(c, e.line) && Erases(c, e.line))
  {
    if Erases(c, e.line) {
      var last := e.line[|e.line| - 1];
      assert e.line == Press(e, Char(c), hist, max).line + [last];
    }
  }

  /** Up and down are the escape sequences [A and [B; no other one does anything. */
  lemma EscapeMeans(e: Editor, a: Byte, b: Byte, hist: seq<seq<Byte>>, max: nat)
    ensures Press(e, Escape(a, b), hist, max) ==
      if a == '[' as int && b == 'A' as int then Arrow(e, true, hist)
      else if a == '[' as int && b == 'B' as int then Arrow(e, false, hist)
      else e
  {}

  // ---- rows of keys

  function Chars(text: seq<Byte>): (ks: seq<Key>)
    ensures |ks| == |text| && forall i | 0 <= i < |text| :: ks[i] == Char(text[i])
  {
    seq(|text|, i requires 0 <= i < |text| => Char(text[i]))
  }

  lemma {:induction false} TypeAppend(e: Editor, a: seq<Key>, b: seq<Key>, hist: seq<seq<Byte>>, max: nat)
    ensures Type(e, a + b, hist, max) == Type(Type(e, a, hist, max), b, hist, max)
    decreases |a|
  {
    hide Press;
    if a == [] {
      assert a + b == b;
    } else {
      assert (a + b)[0] == a[0] && (a + b)[1..] == a[1..] + b;
      TypeAppend(Press(e, a[0], hist, max), a[1..], b, hist, max);
    }
  }

  predicate Printable(text: seq<Byte>) { forall i | 0 <= i < |text| :: ' ' as int <= text[i] != DELETE }

  /** Typing text appends it, as far as the line has room for it and the NUL. */
  lemma {:induction false} TypedText(e: Editor, text: seq<Byte>, hist: seq<seq<Byte>>, max: nat)
    requires Printable(text) && |e.line| < max
    ensures var r := Type(e, Chars(text), hist, max);
      && r.line == e.line + text[..Min(|text|, max - 1 - |e.line|)]
      && r.histPos == (if text != [] && |e.line| < max - 1 then 0 else e.histPos)
    decreases |text|
  {
    if text != [] {
      var c, rest := text[0], text[1..];
      KeyMeans(e, c, hist, max);
      hide Press;
      assert Chars(text)[1..] == Chars(rest);
      TypedText(Press(e, Char(c), hist, max), rest, hist, max);
      if |e.line| < max - 1 {
        Joined(e.line, text, Min(|text|, max - 1 - |e.line|));
      }
    }
  }

  lemma Joined(a: seq<Byte>, t: seq<Byte>, n: nat)
    requires 0 < n <= |t|
    ensures a + [t[0]] + t[1..][..n - 1] == a + t[..n]
  {}

  /** Erasing, with either key, takes as many characters from the end. */
  lemma {:induction false} ErasedText(e: Editor, ks: seq<Byte>, hist: seq<seq<Byte>>, max: nat)
    requires |ks| <= |e.line| < max && forall i | 0 <= i < |ks| :: ks[i] == BACKSPACE || ks[i] == DELETE
    ensures Type(e, Chars(ks), hist, max).line == e.line[..|e.line| - |ks|]
    ensures Type(e, Chars(ks), hist, max).histPos == e.histPos
    decreases |ks|
  {
    if ks != [] {
      KeyMeans(e, ks[0], hist, max);
      hide Press;
      assert Chars(ks)[1..] == Chars(ks[1..]);
      ErasedText(Press(e, Char(ks[0]), hist, max), ks[1..], hist, max);
    }
  }

  /** What is typed over the end of a line replaces what was erased. */
  lemma Retyped(e: Editor, a: seq<Byte>, ks: seq<Byte>, b: seq<Byte>, hist: seq<seq<Byte>>, max: nat)
    requires Printable(a) && Printable(b) && e.line == [] && |ks| <= |a| < max
    requires forall i | 0 <= i < |ks| :: ks[i] == BACKSPACE || ks[i] == DELETE
    ensures var kept := a[..|a| - |ks|];
      Type(e, Chars(a) + Chars(ks) + Chars(b), hist, max).line == kept + b[..Min(|b|, max - 1 - |kept|)]
  {
    hide Type, Printable;
    TypeAppend(e, Chars(a) + Chars(ks), Chars(b), hist, max);
    TypeAppend(e, Chars(a), Chars(ks), hist, max);
    TypedText(e, a, hist, max);
    var e1 := Type(e, Chars(a), hist, max);
    assert e1.line == a;
    ErasedText(e1, ks, hist, max);
    TypedText(Type(e1, Chars(ks), hist, max), b, hist, max);
  }

  // ---- keys on the wire

  /** What the terminal sends for a key. */
  function Sent(k: Key): seq<Byte> {
    match k case Char(c) => [c] case Escape(a, b) => [ESCAPE, a, b]
  }

  function AllSent(ks: seq<Key>): seq<Byte> { if ks == [] then [] else Sent(ks[0]) + AllSent(ks[1..]) }

  /** One key is read off the front. */
  lemma ReadOne(input: seq<Byte>, i: nat, k: Key, tail: seq<Byte>)
    requires i <= |input| && input[i..] == Sent(k) + tail && IsKey(k)
    ensures i + |Sent(k)| <= |input| && input[i + |Sent(k)|..] == tail
    ensures var r := ReadKeys(input, i + |Sent(k)|); ReadKeys(input, i) == r.(keys := [k] + r.keys)
  {
    var n := |Sent(k)|;
    assert input[i..][n..] == tail && input[i..][n..] == input[i + n..];
    assert forall j | 0 <= j < n :: input[i + j] == input[i..][j] == Sent(k)[j];
  }

  lemma ReadEnd(input: seq<Byte>, i: nat, end: Byte, rest: seq<Byte>)
    requires i <= |input| && input[i..] == [end] + rest && (end == RETURN || end == LINE_FEED)
    ensures ReadKeys(input, i) == Reading([], i + 1, true)
  {
    assert input[i] == input[i..][0] == end;
  }

  lemma {:induction false} ReadFrom(input: seq<Byte>, i: nat, ks: seq<Key>, end: Byte, rest: seq<Byte>)
    requires i <= |input| && input[i..] == AllSent(ks) + ([end] + rest) && (end == RETURN || end == LINE_FEED)
    requires forall k | 0 <= k < |ks| :: IsKey(ks[k])
    ensures ReadKeys(input, i) == Reading(ks, i + |AllSent(ks)| + 1, true)
    decreases |ks|
  {
    hide ReadKeys, Sent, IsKey;
    if ks == [] {
      ReadEnd(input, i, end, rest);
    } else {
      var tail := AllSent(ks[1..]) + ([end] + rest);
      assert AllSent(ks) + ([end] + rest) == Sent(ks[0]) + tail;
      ReadOne(input, i, ks[0], tail);
      ReadFrom(input, i + |Sent(ks[0])|, ks[1..], end, rest);
      assert ks == [ks[0]] + ks[1..];
    }
  }

  /** Whatever keys are pressed before return, the line editor takes exactly these keys, and the bytes after the end of
      the line stay for the next one. */
  lemma KeysArrive(ks: seq<Key>, end: Byte, rest: seq<Byte>)
    requires (end == RETURN || end == LINE_FEED) && forall k | 0 <= k < |ks| :: IsKey(ks[k])
    ensures var input := AllSent(ks) + [end] + rest; var r := ReadKeys(input, 0);
      r.keys == ks && r.done && r.used <= |input| && input[r.used..] == rest
  {
    var input := AllSent(ks) + [end] + rest;
    assert input[0..] == AllSent(ks) + ([end] + rest);
    ReadFrom(input, 0, ks, end, rest);
  }

  lemma {:induction false} TextSent(text: seq<Byte>)
    ensures AllSent(Chars(text)) == text
    decreases |text|
  {
    if text != [] {
      assert Chars(text)[1..] == Chars(text[1..]);
      TextSent(text[1..]);
    }
  }

  /** Text and return, typed into an empty line, give the text, as much as fits. */
  lemma LineTyped(e: Editor, text: seq<Byte>, rest: seq<Byte>, hist: seq<seq<Byte>>, max: nat)
    requires Printable(text) && e.line == [] && max > 0
    ensures var input := text + [RETURN] + rest; var r := ReadKeys(input, 0);
      && r.done && r.used <= |input| && input[r.used..] == rest
      && Type(e, r.keys, hist, max).line == text[..Min(|text|, max - 1)]
  {
    hide Type, ReadKeys;
    TextSent(text);
    assert forall k | 0 <= k < |text| :: IsKey(Chars(text)[k]);
    KeysArrive(Chars(text), RETURN, rest);
    TypedText(e, text, hist, max);
  }
}
