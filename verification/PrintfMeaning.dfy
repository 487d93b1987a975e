/** What a format prints, told without the functions that print it; and how the directives are written. */
module PrintfMeaning {
  import opened Basics
  import opened DigitStrings
  import opened PrintfFormat

  const LOWER := "0123456789abcdef"
  const UPPER := "0123456789ABCDEF"

  // ---- numbers

  /** The text is the number in that base, with these digits and without leading zeros. */
  ghost predicate Numeral(t: seq<Byte>, n: nat, base: nat, digits: string) {
    base <= |digits| && exists ds: seq<nat> ::
      |ds| == |t| && Canonical(ds, base) && Value(ds, base) == n
      && forall i | 0 <= i < |t| :: t[i] == digits[ds[i]] as int
  }

  lemma DigitIs(d: nat)
    requires d < 16
    ensures DigitChar(d, false) == LOWER[d] as int && DigitChar(d, true) == UPPER[d] as int
  {
    assert LOWER[..10] == UPPER[..10] == "0123456789";
  }

  lemma TextMeans(n: nat, base: nat, uc: bool)
    requires 2 <= base <= 16
    ensures Numeral(Text(n, base, uc), n, base, if uc then UPPER else LOWER)
  {
    var ds, t := Digits(n, base), Text(n, base, uc);
    DigitsCanonical(n, base);
    forall i | 0 <= i < |t| ensures t[i] == (if uc then UPPER else LOWER)[ds[i]] as int {
      DigitIs(ds[i]);
    }
  }

  /** A number has one numeral. */
  lemma NumeralOnce(t: seq<Byte>, u: seq<Byte>, n: nat, base: nat, digits: string)
    requires base >= 2 && Numeral(t, n, base, digits) && Numeral(u, n, base, digits)
    ensures t == u
  {
    var ds: seq<nat> :| |ds| == |t| && Canonical(ds, base) && Value(ds, base) == n
      && forall i | 0 <= i < |t| :: t[i] == digits[ds[i]] as int;
    var es: seq<nat> :| |es| == |u| && Canonical(es, base) && Value(es, base) == n
      && forall i | 0 <= i < |u| :: u[i] == digits[es[i]] as int;
    CanonicalUnique(ds, base);
    CanonicalUnique(es, base);
  }

  /** a2d knows the digits of both cases and nothing else. */
  lemma A2dMeans(c: Byte)
    ensures if A2d(c) >= 0 then c == LOWER[A2d(c)] as int || c == UPPER[A2d(c)] as int
            else forall d | 0 <= d < 16 :: c != LOWER[d] as int && c != UPPER[d] as int
  {
    if A2d(c) >= 0 {
      DigitIs(A2d(c));
    } else {
      forall d | 0 <= d < 16 ensures c != LOWER[d] as int && c != UPPER[d] as int {
        DigitIs(d);
        CharValue(d, false);
        CharValue(d, true);
      }
    }
  }

  // ---- conversions

  /** The text, filled up on the left to the width. */
  predicate Filled(out: seq<Byte>, t: seq<Byte>, width: nat, fill: char) {
    && |out| == (if width > |t| then width else |t|) && out[|out| - |t|..] == t
    && forall i | 0 <= i < |out| - |t| :: out[i] == fill as int
  }

  /** The text of an argument, before it is filled up. */
  ghost predicate Spells(kind: char, a: Arg, t: seq<Byte>) {
    match a
    case Str(s) => kind == 's' && t == s
    case Num(n) =>
      if kind == 'u' then Numeral(t, n, 10, LOWER)
      else if kind == 'd' then
        var v := AsInt(n);
        if v >= 0 then Numeral(t, v, 10, LOWER) else t != [] && t[0] == '-' as int && Numeral(t[1..], -v, 10, LOWER)
      else if kind == 'x' then Numeral(t, n, 16, LOWER)
      else if kind == 'X' then Numeral(t, n, 16, UPPER)
      else kind == 'c' && t == [n % 256]
  }

  /** What a conversion prints: the width does not matter to a character, nor the flag to a string. */
  ghost predicate Prints(p: Piece, a: Arg, out: seq<Byte>)
    requires p.Conv?
  {
    var kind := p.kind as char;
    if kind == 'c' then Spells(kind, a, out)
    else exists t :: Spells(kind, a, t) && Filled(out, t, p.width, if p.zero && kind != 's' then '0' else ' ')
  }

  predicate NumberKind(kind: char) { kind == 'u' || kind == 'd' || kind == 'x' || kind == 'X' || kind == 'c' }

  /** The argument is there and of the kind the conversion reads. */
  predicate Suits(kind: char, a: Arg) {
    match a case Num(n) => NumberKind(kind) && n < U32 case Str(s) => kind == 's' && IsString(s)
  }

  /** The text of an argument that suits. */
  function Spelling(kind: char, a: Arg): seq<Byte>
    requires Suits(kind, a)
  {
    match a
    case Str(s) => s
    case Num(n) =>
      if kind == 'c' then [n % 256] else if kind == 'd' then SignedText(AsInt(n))
      else if kind == 'u' then Text(n, 10, false) else Text(n, 16, kind == 'X')
  }

  lemma SpellingMeans(kind: char, a: Arg)
    requires Suits(kind, a)
    ensures Spells(kind, a, Spelling(kind, a))
  {
    hide Numeral, Text;
    if a.Num? && kind != 'c' {
      var v := if kind == 'd' then AsInt(a.bits) else a.bits;
      TextMeans(if v < 0 then -v else v, if kind == 'x' || kind == 'X' then 16 else 10, kind == 'X');
    }
  }

  /** A conversion prints its argument, converted and filled up, iff the argument suits it. */
  lemma ShownMeans(p: Piece, a: Arg)
    requires p.Conv?
    ensures Shown(p, a).Some? <==> Suits(p.kind as char, a)
    ensures Shown(p, a).Some? ==> Prints(p, a, Shown(p, a).value)
  {
    var kind := p.kind as char;
    ShownSuits(p, a);
    if Suits(kind, a) {
      hide Numeral, Text, SignedText, Spelling, Spells, Field, Shown;
      SpellingMeans(kind, a);
      FieldFills(p.zero && kind != 's', p.width, Spelling(kind, a));
    }
  }

  lemma KindIs(k: Byte)
    ensures k as char == 'u' <==> k == 0x75
    ensures k as char == 'd' <==> k == 0x64
    ensures k as char == 'x' <==> k == 0x78
    ensures k as char == 'X' <==> k == 0x58
    ensures k as char == 'c' <==> k == 0x63
    ensures k as char == 's' <==> k == 0x73
    ensures k as char == '%' <==> k == PERCENT
  {}

  lemma ShownSuits(p: Piece, a: Arg)
    requires p.Conv?
    ensures Shown(p, a).Some? <==> Suits(p.kind as char, a)
    ensures Suits(p.kind as char, a) ==>
      var t := Spelling(p.kind as char, a);
      Shown(p, a).value == if p.kind as char == 'c' then t else Field(p.zero && p.kind as char != 's', p.width, t)
  {
    hide Text, SignedText, Field, AsInt, IsString;
    KindIs(p.kind);
    match a {
      case Num(_) =>
      case Str(_) =>
    }
  }

  lemma FieldFills(zero: bool, width: nat, t: seq<Byte>)
    ensures Filled(Field(zero, width, t), t, width, if zero then '0' else ' ')
  {}

  lemma SpellsOnce(kind: char, a: Arg, t: seq<Byte>, u: seq<Byte>)
    requires Spells(kind, a, t) && Spells(kind, a, u)
    ensures t == u
  {
    hide Numeral;
    if a.Num? && NumberKind(kind) && kind != 'c' {
      var v := if kind == 'd' then AsInt(a.bits) else a.bits;
      var base, digits := if kind == 'x' || kind == 'X' then 16 else 10, if kind == 'X' then UPPER else LOWER;
      if v >= 0 {
        NumeralOnce(t, u, v, base, digits);
      } else {
        NumeralOnce(t[1..], u[1..], -v, base, digits);
        assert t == [t[0]] + t[1..] && u == [u[0]] + u[1..];
      }
    }
  }

  /** So there is nothing else a conversion can print. */
  lemma PrintsOnce(p: Piece, a: Arg, out: seq<Byte>, out': seq<Byte>)
    requires p.Conv? && Prints(p, a, out) && Prints(p, a, out')
    ensures out == out'
  {
    hide Spells;
    var kind := p.kind as char;
    var fill := if p.zero && kind != 's' then '0' else ' ';
    if kind == 'c' {
      SpellsOnce(kind, a, out, out');
    } else {
      var t :| Spells(kind, a, t) && Filled(out, t, p.width, fill);
      var u :| Spells(kind, a, u) && Filled(out', u, p.width, fill);
      SpellsOnce(kind, a, t, u);
      FilledOnce(out, out', t, p.width, fill);
    }
  }

  lemma FilledOnce(out: seq<Byte>, out': seq<Byte>, t: seq<Byte>, width: nat, fill: char)
    requires Filled(out, t, width, fill) && Filled(out', t, width, fill)
    ensures out == out'
  {
    var n := |out| - |t|;
    assert out[..n] == out'[..n];
    assert out == out[..n] + out[n..] && out' == out'[..n] + out'[n..];
  }

  // ---- whole formats

  /** Nothing but these conversions takes an argument. */
  predicate Takes(kind: char) { NumberKind(kind) || kind == 's' }

  /** The output of pieces in a row: characters stand for themselves, two percent signs for one, and a conversion
      nobody knows for nothing. */
  ghost predicate Output(ps: seq<Piece>, args: seq<Arg>, out: seq<Byte>)
    decreases |ps|
  {
    if ps == [] then out == []
    else
      match ps[0]
      case Lit(c) => out != [] && out[0] == c && Output(ps[1..], args, out[1..])
      case Conv(_, _, k) =>
        if k as char == '%' then out != [] && out[0] == '%' as int && Output(ps[1..], args, out[1..])
        else if !Takes(k as char) then Output(ps[1..], args, out)
        else args != [] && exists n ::
          0 <= n <= |out| && Prints(ps[0], args[0], out[..n]) && Output(ps[1..], args[1..], out[n..])
  }

  /** Every conversion has an argument that suits it. */
  predicate Supplied(ps: seq<Piece>, args: seq<Arg>)
    decreases |ps|
  {
    if ps == [] then true
    else if ps[0].Conv? && Takes(ps[0].kind as char) then
      args != [] && Suits(ps[0].kind as char, args[0]) && Supplied(ps[1..], args[1..])
    else Supplied(ps[1..], args)
  }

  /** What a format prints, and that it prints iff the arguments suit it. */
  lemma {:induction false} RenderMeans(ps: seq<Piece>, args: seq<Arg>)
    ensures Render(ps, args).Some? <==> Supplied(ps, args)
    ensures Render(ps, args).Some? ==> Output(ps, args, Render(ps, args).value)
    decreases |ps|
  {
    hide Shown, Prints, Suits;
    if ps != [] {
      var p, r := ps[0], Render(ps, args);
      if p.Conv? {
        KindIs(p.kind);
      }
      if p.Conv? && Takes(p.kind as char) {
        if args != [] {
          RenderMeans(ps[1..], args[1..]);
          ShownMeans(p, args[0]);
          if r.Some? {
            var shown := Shown(p, args[0]).value;
            assert r.value[..|shown|] == shown && r.value[|shown|..] == Render(ps[1..], args[1..]).value;
          }
        }
      } else {
        RenderMeans(ps[1..], args);
        if r.Some? && (p.Lit? || p.kind == PERCENT) {
          assert r.value[1..] == Render(ps[1..], args).value;
        }
      }
    }
  }

  // ---- directives as they are written

  predicate LetterA(c: char) { c == 'a' || c == 'A' }

  predicate Writable(p: Piece) {
    match p
    case Lit(c) => c != PERCENT
    case Conv(_, width, kind) =>
      width < 0x8000_0000 && !('0' <= kind as char <= '9') && (width > 0 ==> !LetterA(kind as char))
  }

  function Digits10(width: nat): seq<Byte> { if width > 0 then Text(width, 10, false) else [] }

  /** A character, or a percent sign, the flag, the width in decimal, and the conversion. */
  function Written(p: Piece): seq<Byte> {
    match p
    case Lit(c) => [c]
    case Conv(zero, width, kind) => [PERCENT] + (Flag(p) + (Digits10(width) + [kind]))
  }

  function AllWritten(ps: seq<Piece>): seq<Byte> { if ps == [] then [] else Written(ps[0]) + AllWritten(ps[1..]) }

  lemma Sliced(f: seq<Byte>, j: nat, t: seq<Byte>, c: Byte, rest: seq<Byte>)
    requires j <= |f| && f[j..] == t + ([c] + rest)
    ensures j + |t| < |f| && f[j..j + |t|] == t && f[j + |t|] == c && f[j + |t| + 1..] == rest
    ensures forall i | 0 <= i < |t| :: f[j + i] == t[i]
  {
    assert f[j..][..|t|] == t && f[j..][|t|] == c && f[j..][|t| + 1..] == rest;
  }

  lemma DecimalText(n: nat)
    requires 0 < n < 0x8000_0000
    ensures var t := Text(n, 10, false);
      t != [] && t[0] != ZERO && Value(Row(t), 10) == n
      && forall i | 0 <= i < |t| :: Decimal(t[i]) && Accepted(t[i], 10)
  {
    A2iInverts(n, 10, false);
    DigitsCanonical(n, 10);
    hide Row, Value;
  }

  lemma NoDigit(c: Byte)
    requires !('0' <= c as char <= '9')
    ensures !Decimal(c) && (!LetterA(c as char) ==> !Accepted(c, 10))
  {}

  /** A width is read back, whatever its number of digits. */
  lemma WidthReads(f: seq<Byte>, j: nat, width: nat, kind: Byte, rest: seq<Byte>)
    requires j <= |f| && f[j..] == Digits10(width) + ([kind] + rest) && Writable(Conv(false, width, kind))
    ensures var end := j + |Digits10(width)|;
      && end < |f| && f[end] == kind && f[end + 1..] == rest && CharAt(f, j) != ZERO
      && if Decimal(CharAt(f, j)) then width > 0 && RunEnd(f, j, 10) == end && Value(Row(f[j..end]), 10) == width
         else width == 0
  {
    hide Text, Row, Value, RunEnd, Accepted;
    var t := Digits10(width);
    Sliced(f, j, t, kind, rest);
    NoDigit(kind);
    if width > 0 {
      DecimalText(width);
      assert forall k | j <= k < j + |t| :: f[k] == t[k - j];
      RunIs(f, j, j + |t|, 10);
    }
  }

  lemma Regrouped(p: Piece, rest: seq<Byte>)
    requires p.Conv?
    ensures Written(p) + rest == [PERCENT] + (Flag(p) + (Digits10(p.width) + ([p.kind] + rest)))
  {
    hide Text;
  }

  function Flag(p: Piece): seq<Byte>
    requires p.Conv?
  {
    if p.zero then [ZERO] else []
  }

  lemma AfterPercent(f: seq<Byte>, i: nat, flag: seq<Byte>, w: seq<Byte>)
    requires i <= |f| && f[i..] == [PERCENT] + (flag + w)
    ensures i + 1 + |flag| <= |f| && f[i] == PERCENT && f[i + 1 + |flag|..] == w
    ensures flag != [] ==> f[i + 1] == flag[0]
  {
    assert f[i..][0] == PERCENT && f[i..][1..] == flag + w && f[i..][1..][|flag|..] == w;
    assert flag != [] ==> f[i..][1] == flag[0];
  }

  lemma DirectiveReads(f: seq<Byte>, i: nat, p: Piece, rest: seq<Byte>)
    requires i < |f| && p.Conv? && Writable(p) && f[i..] == Written(p) + rest
    ensures var d := ReadDirective(f, i + 1);
      d.zero == p.zero && d.width == p.width && d.end < |f| && f[d.end] == p.kind && f[d.end + 1..] == rest
    ensures f[i] == PERCENT
  {
    hide Text, Row, Value, RunEnd, Accepted, Digits10, Written, Decimal;
    Regrouped(p, rest);
    AfterPercent(f, i, Flag(p), Digits10(p.width) + ([p.kind] + rest));
    WidthReads(f, i + 1 + |Flag(p)|, p.width, p.kind, rest);
    NoWidth();
  }

  lemma NoWidth()
    ensures Digits10(0) == []
  {}

  lemma {:induction false} ReadsBack(f: seq<Byte>, i: nat, ps: seq<Piece>)
    requires i <= |f| && f[i..] == AllWritten(ps) && forall k | 0 <= k < |ps| :: Writable(ps[k])
    ensures Parse(f, i) == ps
    decreases |ps|
  {
    hide ReadDirective, Writable, Written, Parse;
    if ps == [] {
      AtEnd(f);
    } else {
      WrittenSome(ps[0]);
      ParseOne(f, i, 10);
      assert ps == [ps[0]] + ps[1..];
      if ps[0].Lit? {
        LitReads(f, i, ps[0], AllWritten(ps[1..]));
        ReadsBack(f, i + 1, ps[1..]);
      } else {
        DirectiveReads(f, i, ps[0], AllWritten(ps[1..]));
        ReadsBack(f, ReadDirective(f, i + 1).end + 1, ps[1..]);
      }
    }
  }

  lemma WrittenSome(p: Piece)
    ensures Written(p) != []
  {}

  lemma LitReads(f: seq<Byte>, i: nat, p: Piece, rest: seq<Byte>)
    requires i < |f| && p.Lit? && Writable(p) && f[i..] == Written(p) + rest
    ensures f[i] == p.c != PERCENT && f[i + 1..] == rest
  {
    assert f[i..][0] == p.c && f[i..][1..] == rest;
  }

  /** A format is read as the pieces it was written from. */
  lemma FormatReads(ps: seq<Piece>)
    requires forall k | 0 <= k < |ps| :: Writable(ps[k])
    ensures Parse(AllWritten(ps), 0) == ps
  {
    assert AllWritten(ps)[0..] == AllWritten(ps);
    ReadsBack(AllWritten(ps), 0, ps);
  }
}
