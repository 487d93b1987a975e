/** tfp_format against an interpreter of its directives. */
module PrintfFormat {
  import opened Basics
  import opened DigitStrings

  const PERCENT := 0x25
  const SPACE := 0x20

  /** A 32-bit argument, read as the directive demands, or a string. */
  datatype Arg = Num(bits: nat) | Str(text: seq<Byte>)

  datatype Piece = Lit(c: Byte) | Conv(zero: bool, width: nat, kind: Byte)

  // ---- the grammar

  /** What follows a percent sign: a flag, a width, and the index of the conversion character. */
  datatype Directive = Directive(zero: bool, width: nat, end: nat)

  predicate Decimal(c: Byte) { 0x30 <= c <= 0x39 }

  /** Where the width starts. */
  function AfterFlag(f: seq<Byte>, i: nat): (j: nat)
    requires i <= |f|
    ensures i <= j <= |f|
  {
    if CharAt(f, i) == ZERO then i + 1 else i
  }

  /** The width is the run of digits of value at most `top`: ten, as a2i has it. */
  function ReadDirective(f: seq<Byte>, i: nat, top: nat := 10): (d: Directive)
    requires i <= |f|
    ensures i <= d.end <= |f|
  {
    var zero, j := CharAt(f, i) == ZERO, AfterFlag(f, i);
    if Decimal(CharAt(f, j)) then
      var end := RunEnd(f, j, top);
      Directive(zero, Value(Row(f[j..end]), 10), end)
    else Directive(zero, 0, j)
  }

  /** The format from index `i` on. A directive that the end of the string cuts off ends the output. */
  function Parse(f: seq<Byte>, i: nat, top: nat := 10): seq<Piece>
    requires i <= |f|
    decreases |f| - i
  {
    if i == |f| then []
    else if f[i] != PERCENT then [Lit(f[i])] + Parse(f, i + 1, top)
    else
      var d := ReadDirective(f, i + 1, top);
      if d.end == |f| then [] else [Conv(d.zero, d.width, f[d.end])] + Parse(f, d.end + 1, top)
  }

  // ---- the meaning

  function Fill(c: Byte, n: nat): (s: seq<Byte>)
    ensures |s| == n
  {
    seq(n, _ => c)
  }

  /** A field: the text, filled up on the left. */
  function Field(zero: bool, width: nat, text: seq<Byte>): (s: seq<Byte>)
    ensures |s| == if width > |text| then width else |text|
    ensures s[|s| - |text|..] == text
  {
    Fill(if zero then ZERO else SPACE, if width > |text| then width - |text| else 0) + text
  }

  predicate Takes(kind: Byte) { kind in {0x75, 0x64, 0x78, 0x58, 0x63, 0x73} }

  /** What one conversion prints; None when the argument is not of its kind. */
  function Shown(p: Piece, a: Arg): Option<seq<Byte>>
    requires p.Conv?
  {
    match a
    case Num(n) =>
      if n >= U32 then None
      else if p.kind == 0x75 then Some(Field(p.zero, p.width, Text(n, 10, false)))
      else if p.kind == 0x64 then Some(Field(p.zero, p.width, SignedText(AsInt(n))))
      else if p.kind == 0x78 then Some(Field(p.zero, p.width, Text(n, 16, false)))
      else if p.kind == 0x58 then Some(Field(p.zero, p.width, Text(n, 16, true)))
      else if p.kind == 0x63 then Some([n % 256])
      else None
    case Str(s) => if p.kind == 0x73 && IsString(s) then Some(Field(false, p.width, s)) else None
  }

  /** The output; None when an argument is missing or of the wrong kind. */
  function Render(ps: seq<Piece>, args: seq<Arg>): Option<seq<Byte>> {
    if ps == [] then Some([])
    else
      match ps[0]
      case Lit(c) => Prepend([c], Render(ps[1..], args))
      case Conv(_, _, kind) =>
        if kind == PERCENT then Prepend([PERCENT], Render(ps[1..], args))
        else if !Takes(kind) then Render(ps[1..], args)
        else if args == [] then None
        else match Shown(ps[0], args[0]) case None => None case Some(s) => Prepend(s, Render(ps[1..], args[1..]))
  }

  function Prepend(s: seq<Byte>, r: Option<seq<Byte>>): Option<seq<Byte>> {
    match r case None => None case Some(t) => Some(s + t)
  }

  lemma PrependTwice(s: seq<Byte>, t: seq<Byte>, r: Option<seq<Byte>>)
    ensures Prepend(s, Prepend(t, r)) == Prepend(s + t, r)
  {
    match r case None => case Some(u) => assert s + (t + u) == s + t + u;
  }

  // ---- widths

  /** The width of the directive at `i` runs straight into the letter a, of either case. */
  predicate LetterAfterWidth(f: seq<Byte>, i: nat)
    requires i <= |f|
  {
    var j := AfterFlag(f, i);
    Decimal(CharAt(f, j)) && CharAt(f, RunEnd(f, j, 9)) in {0x61, 0x41}
  }

  /** No directive from index `i` on has such a width. */
  predicate PlainWidths(f: seq<Byte>, i: nat)
    requires i <= |f|
    decreases |f| - i
  {
    if i == |f| then true
    else if f[i] != PERCENT then PlainWidths(f, i + 1)
    else
      var end := ReadDirective(f, i + 1, 9).end;
      !LetterAfterWidth(f, i + 1) && (end < |f| ==> PlainWidths(f, end + 1))
  }

  lemma WidthExact(f: seq<Byte>, i: nat)
    requires i <= |f|
    ensures !LetterAfterWidth(f, i) ==> ReadDirective(f, i) == ReadDirective(f, i, 9)
    ensures LetterAfterWidth(f, i) ==> ReadDirective(f, i).width > ReadDirective(f, i, 9).width
    ensures LetterAfterWidth(f, i) ==> ReadDirective(f, i, 9).end < |f|
  {
    var j := AfterFlag(f, i);
    if Decimal(CharAt(f, j)) {
      LetterAsDigit(f, j, 10);
      LongerRun(f, j, RunEnd(f, j, 9), RunEnd(f, j, 10), 10);
    }
  }

  lemma ParseOne(f: seq<Byte>, i: nat, top: nat)
    requires i < |f|
    ensures f[i] != PERCENT ==> Parse(f, i, top) == [Lit(f[i])] + Parse(f, i + 1, top)
    ensures f[i] == PERCENT ==> var d := ReadDirective(f, i + 1, top);
      Parse(f, i, top) == if d.end == |f| then [] else [Conv(d.zero, d.width, f[d.end])] + Parse(f, d.end + 1, top)
  {
    hide ReadDirective;
  }

  lemma AtEnd(f: seq<Byte>)
    ensures Parse(f, |f|) == Parse(f, |f|, 9) == [] && PlainWidths(f, |f|)
  {}

  lemma PlainOne(f: seq<Byte>, i: nat)
    requires i < |f|
    ensures f[i] != PERCENT ==> (PlainWidths(f, i) <==> PlainWidths(f, i + 1))
    ensures f[i] == PERCENT ==> var end := ReadDirective(f, i + 1, 9).end;
      PlainWidths(f, i) <==> !LetterAfterWidth(f, i + 1) && (end < |f| ==> PlainWidths(f, end + 1))
  {
    hide ReadDirective, LetterAfterWidth;
  }

  /** A format is read with its decimal widths, no more and no less, iff no width runs into the letter a. */
  lemma {:induction false} WidthsExact(f: seq<Byte>, i: nat)
    requires i <= |f|
    ensures Parse(f, i) == Parse(f, i, 9) <==> PlainWidths(f, i)
    decreases |f| - i
  {
    hide *;
    if i == |f| {
      AtEnd(f);
      return;
    }
    ParseOne(f, i, 10);
    ParseOne(f, i, 9);
    PlainOne(f, i);
    if f[i] != PERCENT {
      WidthsExact(f, i + 1);
      Headed([Lit(f[i])], Parse(f, i + 1), Parse(f, i + 1, 9));
    } else {
      WidthExact(f, i + 1);
      var d := ReadDirective(f, i + 1, 9);
      if LetterAfterWidth(f, i + 1) {
        assert Parse(f, i, 9)[0].width == d.width;
      } else if d.end < |f| {
        WidthsExact(f, d.end + 1);
        Headed([Conv(d.zero, d.width, f[d.end])], Parse(f, d.end + 1), Parse(f, d.end + 1, 9));
      }
    }
  }

  lemma Headed<T>(x: seq<T>, a: seq<T>, b: seq<T>)
    ensures x + a == x + b <==> a == b
  {
    assert (x + a)[|x|..] == a && (x + b)[|x|..] == b;
  }

  // ---- formats that end inside a directive

  /** Reading from index `i` on comes to index `p`. */
  predicate Reaches(f: seq<Byte>, i: nat, p: nat)
    requires i <= |f|
    decreases |f| - i
  {
    if i == p then true
    else if i == |f| then false
    else if f[i] != PERCENT then Reaches(f, i + 1, p)
    else ReadDirective(f, i + 1).end < |f| && Reaches(f, ReadDirective(f, i + 1).end + 1, p)
  }

  lemma {:induction false} ReachesLater(f: seq<Byte>, i: nat, p: nat)
    requires i <= |f| && Reaches(f, i, p)
    ensures i <= p <= |f|
    ensures i < p ==> Reaches(f, if f[i] != PERCENT then i + 1 else ReadDirective(f, i + 1).end + 1, p)
    ensures i < p && f[i] == PERCENT ==> ReadDirective(f, i + 1).end < |f|
    decreases |f| - i
  {
    if i != p {
      ReachesLater(f, if f[i] != PERCENT then i + 1 else ReadDirective(f, i + 1).end + 1, p);
    }
  }

  /** A directive that ends before `p` is read the same when the string stops there. */
  lemma DirectiveBefore(f: seq<Byte>, i: nat, p: nat)
    requires i <= |f| && ReadDirective(f, i).end < p <= |f|
    ensures ReadDirective(f[..p], i) == ReadDirective(f, i)
  {
    var j, d := AfterFlag(f, i), ReadDirective(f, i);
    if Decimal(CharAt(f, j)) {
      RunIs(f[..p], j, d.end, 10);
      assert f[..p][j..d.end] == f[j..d.end];
    }
  }

  lemma Associate<T>(x: seq<T>, a: seq<T>, b: seq<T>)
    ensures x + (a + b) == x + a + b
  {}

  /** Reading comes apart at every index it reaches. */
  lemma {:induction false} ParseSplit(f: seq<Byte>, i: nat, p: nat)
    requires i <= |f| && Reaches(f, i, p)
    ensures i <= p <= |f| && Parse(f, i) == Parse(f[..p], i) + Parse(f, p)
    decreases |f| - i
  {
    hide *;
    ReachesLater(f, i, p);
    if i == p {
      AtEnd(f[..p]);
      return;
    }
    var next := if f[i] != PERCENT then i + 1 else ReadDirective(f, i + 1).end + 1;
    ReachesLater(f, next, p);
    ParseSplit(f, next, p);
    ParseOne(f, i, 10);
    ParseOne(f[..p], i, 10);
    if f[i] != PERCENT {
      Associate([Lit(f[i])], Parse(f[..p], next), Parse(f, p));
    } else {
      DirectiveBefore(f, i + 1, p);
      var d := ReadDirective(f, i + 1);
      Associate([Conv(d.zero, d.width, f[d.end])], Parse(f[..p], next), Parse(f, p));
    }
  }

  /** Nothing, a flag alone, or a width up to the end of the string. */
  predicate CutTail(f: seq<Byte>, i: nat)
    requires i <= |f|
  {
    var j := AfterFlag(f, i);
    j == |f| || (Decimal(f[j]) && forall k | j <= k < |f| :: Accepted(f[k], 10))
  }

  lemma CutTailMeans(f: seq<Byte>, i: nat)
    requires i <= |f|
    ensures ReadDirective(f, i).end == |f| <==> CutTail(f, i)
  {
    var j := AfterFlag(f, i);
    if CutTail(f, i) && j < |f| {
      RunIs(f, j, |f|, 10);
    }
  }

  /** A format prints what stands before its percent sign at `p`, and stops there, iff the end of the string cuts
      that directive off. */
  lemma CutOff(f: seq<Byte>, p: nat)
    requires Reaches(f, 0, p) && p < |f| && f[p] == PERCENT
    ensures Parse(f, 0) == Parse(f[..p], 0) <==> CutTail(f, p + 1)
  {
    ParseSplit(f, 0, p);
    CutTailMeans(f, p + 1);
    var a, b := Parse(f[..p], 0), Parse(f, p);
    assert |a + b| == |a| + |b|;
  }

  // ---- as it runs

  /** putchw: `s` holds a string that ends at index `len`. */
  method PutChw(width: nat, zero: bool, s: seq<Byte>, ghost len: nat) returns (out: seq<Byte>)
    requires len < |s| && s[len] == 0 && forall i | 0 <= i < len :: s[i] != 0
    ensures out == Field(zero, width, s[..len])
  {
    var fc := if zero then ZERO else SPACE;
    var n, p := width, 0;
    while s[p] != 0 && n > 0
      invariant 0 <= p <= len && n == width - p && p <= width
      decreases n
    {
      n := n - 1;
      p := p + 1;
    }
    ghost var gap := if width > len then width - len else 0;
    out := [];
    while n > 0
      invariant 0 <= n <= gap && out == Fill(fc, gap - n)
    {
      out := out + [fc];
      n := n - 1;
    }
    p := 0;
    while s[p] != 0
      invariant 0 <= p <= len && out == Fill(fc, gap) + s[..p]
      decreases len - p
    {
      out := out + [s[p]];
      p := p + 1;
    }
  }

  lemma TextNoNul(n: nat, base: nat, uc: bool)
    requires 2 <= base <= 16
    ensures forall i | 0 <= i < |Text(n, base, uc)| :: Text(n, base, uc)[i] != 0
  {}

  /** ui2a into the local buffer, then putchw. */
  method PutUnsigned(n: nat, base: nat, uc: bool, width: nat, zero: bool) returns (out: seq<Byte>)
    requires n < U32 && (base == 10 || base == 16)
    ensures out == Field(zero, width, Text(n, base, uc))
  {
    TextNoNul(n, base, uc);
    hide Text, Field;
    var bf := new Byte[12];
    var end := Ui2a(n, base, uc, bf, 0);
    assert forall i | 0 <= i < end :: bf[i] == bf[0..end][i];
    out := PutChw(width, zero, bf[..], end);
    assert bf[..][..end] == bf[0..end];
  }

  method PutSigned(n: int, width: nat, zero: bool) returns (out: seq<Byte>)
    requires -0x8000_0000 <= n < 0x8000_0000
    ensures out == Field(zero, width, SignedText(n))
  {
    TextNoNul(if n < 0 then -n else n, 10, false);
    assert forall i | 0 <= i < |SignedText(n)| :: SignedText(n)[i] != 0;
    hide SignedText, Field;
    var bf := new Byte[12];
    var end := I2a(n, bf);
    assert forall i | 0 <= i < end :: bf[i] == bf[..end][i];
    out := PutChw(width, zero, bf[..], end);
    assert bf[..][..end] == bf[..end];
  }

  /** The switch over the conversion characters that take an argument. */
  method PutArg(p: Piece, a: Arg) returns (out: seq<Byte>)
    requires p.Conv? && Shown(p, a).Some?
    ensures Some(out) == Shown(p, a)
  {
    hide Field, Text, SignedText;
    if p.kind == 0x75 {
      out := PutUnsigned(a.bits, 10, false, p.width, p.zero);
    } else if p.kind == 0x64 {
      out := PutSigned(AsInt(a.bits), p.width, p.zero);
    } else if p.kind == 0x78 || p.kind == 0x58 {
      out := PutUnsigned(a.bits, 16, p.kind == 0x58, p.width, p.zero);
    } else if p.kind == 0x63 {
      out := [a.bits % 256];
    } else {
      out := PutChw(p.width, false, a.text + [0], |a.text|);
      assert (a.text + [0])[..|a.text|] == a.text;
    }
  }

  /** The characters after a percent sign, up to and including the conversion character. */
  method Scan(fmt: seq<Byte>, i: nat) returns (ch: Byte, next: nat, zero: bool, width: nat)
    requires i <= |fmt|
    ensures var d := ReadDirective(fmt, i);
      zero == d.zero && width == d.width && ch == CharAt(fmt, d.end) && next == d.end + 1
  {
    zero, width := false, 0;
    ch := CharAt(fmt, i);
    next := i + 1;
    if ch == ZERO {
      ch := CharAt(fmt, next);
      next := next + 1;
      zero := true;
    }
    if Decimal(ch) {
      ch, next, width := A2i(fmt, next - 1, 10);
    }
  }

  /** The characters a format and its arguments put out. */
  method TfpFormat(fmt: seq<Byte>, args: seq<Arg>) returns (out: seq<Byte>)
    requires IsString(fmt) && Render(Parse(fmt, 0), args).Some?
    ensures Some(out) == Render(Parse(fmt, 0), args)
  {
    hide Render, Parse, ReadDirective, Shown, Text;
    var i: nat, a: nat := 0, 0;
    out := [];
    PrependNothing(Render(Parse(fmt, 0), args));
    var ch := CharAt(fmt, i);
    i := i + 1;
    while ch != 0
      invariant 1 <= i <= |fmt| + 1 && ch == CharAt(fmt, i - 1) && a <= |args|
      invariant Render(Parse(fmt, 0), args) == Prepend(out, Render(Parse(fmt, i - 1), args[a..]))
      decreases |fmt| + 1 - i
    {
      ParseStep(fmt, i - 1, args[a..], out);
      if ch != PERCENT {
        out := out + [ch];
      } else {
        var zero, width;
        ch, i, zero, width := Scan(fmt, i);
        if ch == 0 {
          return;
        }
        if ch == PERCENT {
          out := out + [PERCENT];
        } else if Takes(ch) {
          var s := PutArg(Conv(zero, width, ch), args[a]);
          out := out + s;
          assert args[a..][1..] == args[a + 1..];
          a := a + 1;
        }
      }
      ch := CharAt(fmt, i);
      i := i + 1;
    }
    ParseEnd(fmt, args[a..], out);
  }

  lemma PrependNothing(r: Option<seq<Byte>>)
    ensures Prepend([], r) == r
  {
    match r case None => case Some(t) => assert [] + t == t;
  }

  /** One round of the main loop: what is left to print after a character or a directive. */
  lemma ParseStep(f: seq<Byte>, k: nat, args: seq<Arg>, out: seq<Byte>)
    requires k < |f| && Render(Parse(f, k), args).Some?
    ensures f[k] != PERCENT ==>
      Prepend(out, Render(Parse(f, k), args)) == Prepend(out + [f[k]], Render(Parse(f, k + 1), args))
    ensures f[k] == PERCENT ==> DirectiveStep(f, k, args, out, ReadDirective(f, k + 1))
  {
    var d := ReadDirective(f, k + 1);
    if f[k] != PERCENT {
      assert Parse(f, k)[1..] == Parse(f, k + 1);
      PrependTwice(out, [f[k]], Render(Parse(f, k + 1), args));
    } else if d.end < |f| {
      ConvStep(f, k, args, out, d);
    } else {
      PrependNothing(Some(out));
      assert out + [] == out;
    }
  }

  ghost predicate DirectiveStep(f: seq<Byte>, k: nat, args: seq<Arg>, out: seq<Byte>, d: Directive)
    requires k < |f| && d.end <= |f|
  {
    var all := Prepend(out, Render(Parse(f, k), args));
    if d.end == |f| then all == Some(out)
    else
      var kind, rest := f[d.end], Parse(f, d.end + 1);
      if kind == PERCENT then all == Prepend(out + [PERCENT], Render(rest, args))
      else if !Takes(kind) then all == Prepend(out, Render(rest, args))
      else
        && args != [] && Shown(Conv(d.zero, d.width, kind), args[0]).Some?
        && all == Prepend(out + Shown(Conv(d.zero, d.width, kind), args[0]).value, Render(rest, args[1..]))
  }

  lemma ConvStep(f: seq<Byte>, k: nat, args: seq<Arg>, out: seq<Byte>, d: Directive)
    requires k < |f| && f[k] == PERCENT && d == ReadDirective(f, k + 1) && d.end < |f|
    requires Render(Parse(f, k), args).Some?
    ensures DirectiveStep(f, k, args, out, d)
  {
    var kind, rest := f[d.end], Parse(f, d.end + 1);
    var p := Conv(d.zero, d.width, kind);
    assert Parse(f, k) == [p] + rest && ([p] + rest)[1..] == rest;
    PrependTwice(out, [PERCENT], Render(rest, args));
    if kind != PERCENT && Takes(kind) {
      PrependTwice(out, Shown(p, args[0]).value, Render(rest, args[1..]));
    }
  }

  lemma ParseEnd(f: seq<Byte>, args: seq<Arg>, out: seq<Byte>)
    ensures Prepend(out, Render(Parse(f, |f|), args)) == Some(out)
  {
    assert out + [] == out;
  }
}
