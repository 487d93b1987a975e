/** 8.3 names: what the user types, what a directory entry stores, and what the listing shows. */
module ShortNames {
  import opened Basics

  const BLANK := 0x20
  const DOT := 0x2E

  function ToUpper(c: Byte): Byte { if 0x61 <= c <= 0x7A then c - 32 else c }

  function Upper(s: seq<Byte>): (r: seq<Byte>)
    ensures |r| == |s| && forall i | 0 <= i < |s| :: r[i] == ToUpper(s[i])
  {
    seq(|s|, i requires 0 <= i < |s| => ToUpper(s[i]))
  }

  /** The first `n` bytes of `s`, filled up with blanks. */
  function Padded(s: seq<Byte>, n: nat): (r: seq<Byte>)
    ensures |r| == n && forall i | 0 <= i < n :: r[i] == if i < |s| then s[i] else BLANK
  {
    seq(n, i requires 0 <= i < n => if i < |s| then s[i] else BLANK)
  }

  /** The index of the last dot, or -1. */
  function LastDot(s: seq<Byte>): (r: int)
    ensures -1 <= r < |s|
    ensures r >= 0 ==> s[r] == DOT
    ensures forall i | r < i < |s| :: s[i] != DOT
  {
    if s == [] then -1 else if s[|s| - 1] == DOT then |s| - 1 else LastDot(s[..|s| - 1])
  }

  function Take(s: seq<Byte>, n: nat): seq<Byte> { if |s| <= n then s else s[..n] }

  /** normalise_83: the eleven bytes a directory entry would hold for a name. */
  function Normalise(s: seq<Byte>): (r: seq<Byte>)
    ensures |r| == 11
  {
    if s == [DOT] || s == [DOT, DOT] then Padded(s, 11)
    else
      var d := LastDot(s);
      var name := if d < 0 then s else s[..d];
      var ext := if d < 0 then [] else s[d + 1..];
      Padded(Upper(Take(name, 8)), 8) + Padded(Upper(Take(ext, 3)), 3)
  }

  /** The bytes before the first blank. */
  function Trimmed(s: seq<Byte>): (r: seq<Byte>)
    ensures |r| <= |s| && r == s[..|r|] && BLANK !in r && (|r| < |s| ==> s[|r|] == BLANK)
  {
    if s == [] || s[0] == BLANK then [] else [s[0]] + Trimmed(s[1..])
  }

  /** format_83: how a directory entry's name is shown. */
  function Format(raw: seq<Byte>): seq<Byte>
    requires |raw| == 11
  {
    Trimmed(raw[..8]) + if raw[8] != BLANK then [DOT] + Trimmed(raw[8..]) else []
  }

  // ---- letters

  /** The lower-case letters become the upper-case ones at the same place of the alphabet; no other byte changes. */
  lemma UpperLetters(c: Byte)
    ensures if 'a' as int <= c <= 'z' as int then ToUpper(c) - 'A' as int == c - 'a' as int else ToUpper(c) == c
    ensures !('a' as int <= ToUpper(c) <= 'z' as int) && ToUpper(ToUpper(c)) == ToUpper(c)
  {}

  lemma UpperDots(s: seq<Byte>)
    ensures forall i | 0 <= i < |s| :: Upper(s)[i] == DOT <==> s[i] == DOT
    ensures LastDot(Upper(s)) == LastDot(s) && Upper(Upper(s)) == Upper(s)
  {
    var d := LastDot(s);
    hide LastDot;
    if d >= 0 {
      LastDotIs(Upper(s), d);
    } else {
      NoDot(Upper(s));
    }
  }

  lemma UpperSlices(s: seq<Byte>, i: nat, j: nat)
    requires i <= j <= |s|
    ensures Upper(s)[i..j] == Upper(s[i..j])
  {}

  lemma NormaliseParts(s: seq<Byte>, d: int)
    requires d == LastDot(s) && s != [DOT] && s != [DOT, DOT]
    ensures Normalise(s) ==
      Padded(Upper(Take(if d < 0 then s else s[..d], 8)), 8)
      + Padded(Upper(Take(if d < 0 then [] else s[d + 1..], 3)), 3)
  {}

  /** A name may be typed in either case. */
  lemma CaseDoesNotMatter(s: seq<Byte>)
    ensures Normalise(Upper(s)) == Normalise(s)
  {
    hide LastDot, Normalise, Padded, Take;
    UpperDots(s);
    var d, u := LastDot(s), Upper(s);
    if s == [DOT] || s == [DOT, DOT] {
      assert u == s;
    } else {
      assert u != [DOT] && u != [DOT, DOT];
      NormaliseParts(s, d);
      NormaliseParts(u, d);
      hide Upper;
      UpperParts(if d < 0 then s else s[..d], 8);
      UpperParts(if d < 0 then [] else s[d + 1..], 3);
      if d >= 0 {
        UpperSlices(s, 0, d);
        UpperSlices(s, d + 1, |s|);
        assert s[0..d] == s[..d] && u[0..d] == u[..d] && s[d + 1..|s|] == s[d + 1..] && u[d + 1..|s|] == u[d + 1..];
      } else {
        UpperNothing();
      }
    }
  }

  lemma UpperNothing()
    ensures Upper([]) == []
  {}

  lemma UpperParts(s: seq<Byte>, n: nat)
    ensures Upper(Take(Upper(s), n)) == Upper(Take(s, n))
  {}

  /** A typed name with one dot before its extension: base and extension are cut to eight and three characters, put in
      upper case, and filled up with blanks. */
  lemma TypedName(base: seq<Byte>, ext: seq<Byte>, i: nat)
    requires DOT !in ext && (ext != [] || |base| > 1) && i < 11
    ensures Normalise(base + [DOT] + ext)[i] ==
      if i < 8 then (if i < |base| then ToUpper(base[i]) else ' ' as int)
      else if i - 8 < |ext| then ToUpper(ext[i - 8]) else ' ' as int
  {
    NormaliseSplit(base, ext);
  }

  // ---- round trip

  /** Blanks only at the end. */
  predicate RightPadded(s: seq<Byte>) { forall i, j | 0 <= i < j < |s| && s[i] == BLANK :: s[j] == BLANK }

  predicate NoLower(s: seq<Byte>) { forall i | 0 <= i < |s| :: !(0x61 <= s[i] <= 0x7A) }

  /** Base and extension are blank-padded and in upper case. */
  predicate Proper(raw: seq<Byte>) {
    |raw| == 11 && RightPadded(raw[..8]) && RightPadded(raw[8..]) && NoLower(raw)
  }

  lemma PaddedTrimmed(s: seq<Byte>)
    requires RightPadded(s)
    ensures Padded(Trimmed(s), |s|) == s
  {
    var t := Trimmed(s);
    forall i | 0 <= i < |s| ensures Padded(t, |s|)[i] == s[i] {
      if i > |t| {
        assert s[|t|] == BLANK;
      }
    }
  }

  lemma UpperSame(s: seq<Byte>)
    requires NoLower(s)
    ensures Upper(s) == s
  {}

  lemma LastDotIs(s: seq<Byte>, d: nat)
    requires d < |s| && s[d] == DOT && forall i | d < i < |s| :: s[i] != DOT
    ensures LastDot(s) == d
  {}

  /** A name splits at its last dot. */
  lemma SplitAtDot(a: seq<Byte>, b: seq<Byte>)
    requires DOT !in b
    ensures var s := a + [DOT] + b;
      LastDot(s) == |a| && s[..|a|] == a && s[|a| + 1..] == b
  {
    var s := a + [DOT] + b;
    assert s[|a|] == DOT && s[|a| + 1..] == b;
    forall i | |a| < i < |s| ensures s[i] != DOT {
      assert s[i] == b[i - |a| - 1];
    }
    hide LastDot;
    LastDotIs(s, |a|);
  }

  lemma NoDot(s: seq<Byte>)
    requires DOT !in s
    ensures LastDot(s) == -1
  {}

  /** The names that come back: no NUL, no dot in the extension, and no dot in the base unless an extension
      follows or the whole name is "." or "..". */
  predicate Recoverable(raw: seq<Byte>)
    requires |raw| == 11
  {
    && IsString(raw)
    && DOT !in raw[8..]
    && (DOT !in raw[..8] || raw[8] != BLANK || Trimmed(raw[..8]) == [DOT] || Trimmed(raw[..8]) == [DOT, DOT])
  }

  lemma Halves(raw: seq<Byte>, base: seq<Byte>, ext: seq<Byte>)
    requires Proper(raw) && base == Trimmed(raw[..8]) && ext == Trimmed(raw[8..])
    ensures |base| <= 8 && |ext| <= 3 && NoLower(base) && NoLower(ext)
    ensures Padded(base, 8) + Padded(ext, 3) == raw
    ensures raw[8] == BLANK <==> ext == []
    ensures DOT in base <==> DOT in raw[..8]
    ensures DOT in ext <==> DOT in raw[8..]
  {
    PaddedTrimmed(raw[..8]);
    PaddedTrimmed(raw[8..]);
    TrimKeeps(raw[..8], DOT);
    TrimKeeps(raw[8..], DOT);
  }

  lemma TrimKeeps(s: seq<Byte>, c: Byte)
    requires RightPadded(s) && c != BLANK
    ensures c in Trimmed(s) <==> c in s
  {
    if c in s {
      var i :| 0 <= i < |s| && s[i] == c;
      assert Trimmed(s)[i] == c;
    }
  }

  /** Names without blanks that differ in length differ when padded. */
  lemma PaddedDiffer(a: seq<Byte>, b: seq<Byte>, n: nat)
    requires BLANK !in b && |a| < |b| <= n
    ensures Padded(a, n) != Padded(b, n)
  {
    assert Padded(a, n)[|a|] == BLANK && Padded(b, n)[|a|] == b[|a|] && b[|a|] in b;
  }

  lemma ConcatDiffer(a: seq<Byte>, b: seq<Byte>, x: seq<Byte>, y: seq<Byte>)
    requires |a| == |x| && (a != x || b != y)
    ensures a + b != x + y
  {
    assert (a + b)[..|a|] == a && (x + y)[..|a|] == x;
    assert (a + b)[|a|..] == b && (x + y)[|a|..] == y;
  }

  lemma NormaliseSplit(base: seq<Byte>, ext: seq<Byte>)
    requires DOT !in ext && (ext != [] || |base| > 1)
    ensures Normalise(base + [DOT] + ext) == Padded(Upper(Take(base, 8)), 8) + Padded(Upper(Take(ext, 3)), 3)
  {
    SplitAtDot(base, ext);
    var s := base + [DOT] + ext;
    assert ext != [] ==> s[|s| - 1] == ext[|ext| - 1] != DOT;
  }

  lemma NormalisePlain(base: seq<Byte>)
    requires DOT !in base
    ensures Normalise(base) == Padded(Upper(Take(base, 8)), 8) + Padded([], 3)
  {
    NoDot(base);
    assert [DOT][0] == DOT && [DOT, DOT][0] == DOT;
    assert Upper(Take([], 3)) == [];
  }

  /** A name the listing shows finds its own entry again. */
  lemma NameComesBack(raw: seq<Byte>)
    requires Proper(raw) && Recoverable(raw)
    ensures Normalise(Format(raw)) == raw
  {
    hide Normalise, Upper, Padded;
    var base, ext := Trimmed(raw[..8]), Trimmed(raw[8..]);
    Halves(raw, base, ext);
    UpperSame(base);
    UpperSame(ext);
    assert Format(raw) == if ext != [] then base + [DOT] + ext else base;
    assert Take(base, 8) == base && Take(ext, 3) == ext;
    if ext != [] {
      NormaliseSplit(base, ext);
    } else if DOT !in base {
      NormalisePlain(base);
    } else {
      DotNames(base);
    }
  }

  lemma DotNames(s: seq<Byte>)
    requires s == [DOT] || s == [DOT, DOT]
    ensures Normalise(s) == Padded(s, 8) + Padded([], 3)
  {}

  lemma DotInExtension(base: seq<Byte>, ext: seq<Byte>)
    requires DOT in ext && |base| <= 8 && |ext| <= 3 && BLANK !in ext
    requires NoLower(base) && NoLower(ext)
    ensures Normalise(base + [DOT] + ext) != Padded(base, 8) + Padded(ext, 3)
  {
    var s := base + [DOT] + ext;
    if s == [DOT, DOT] {
      assert |base| == 0;
      assert Padded(s, 11)[0] == DOT && (Padded(base, 8) + Padded(ext, 3))[0] == BLANK;
    } else {
      var i :| 0 <= i < |ext| && ext[i] == DOT;
      var j := LastDot(ext);
      var a, e := base + [DOT] + ext[..j], ext[j + 1..];
      assert s == a + [DOT] + e && DOT !in e && |e| < |ext| && (e != [] || |a| > 1);
      UpperSame(e);
      PaddedDiffer(e, ext, 3);
      hide *;
      NormaliseSplit(a, e);
      TakeShort(e, 3);
      ConcatDiffer(Padded(Upper(Take(a, 8)), 8), Padded(e, 3), Padded(base, 8), Padded(ext, 3));
    }
  }

  lemma TakeShort(s: seq<Byte>, n: nat)
    ensures |s| <= n ==> Take(s, n) == s
  {}

  lemma DotInBase(base: seq<Byte>)
    requires DOT in base && base != [DOT] && base != [DOT, DOT] && |base| <= 8 && BLANK !in base && NoLower(base)
    ensures Normalise(base) != Padded(base, 8) + Padded([], 3)
  {
    var i :| 0 <= i < |base| && base[i] == DOT;
    var d := LastDot(base);
    var b := base[..d];
    UpperSame(b);
    PaddedDiffer(b, base, 8);
    ConcatDiffer(Padded(b, 8), Padded(Upper(Take(base[d + 1..], 3)), 3), Padded(base, 8), Padded([], 3));
  }

  lemma NormaliseIsString(s: seq<Byte>)
    requires IsString(s)
    ensures IsString(Normalise(s))
  {}

  lemma FormatIsString(raw: seq<Byte>)
    requires |raw| == 11 && IsString(raw)
    ensures CString(Format(raw)) == Format(raw)
  {
    var base, ext := Trimmed(raw[..8]), Trimmed(raw[8..]);
    assert IsString(raw[..8]) && IsString(raw[8..]);
    assert IsString(base) && IsString(ext);
    CStringWhole(Format(raw));
  }

  /** Whatever is typed without a blank normalises to a blank-padded upper-case name. */
  lemma NormaliseProper(s: seq<Byte>)
    requires BLANK !in s
    ensures Proper(Normalise(s))
  {
    var d := LastDot(s);
    var name := if d < 0 then s else s[..d];
    var ext := if d < 0 then [] else s[d + 1..];
    if s == [DOT] || s == [DOT, DOT] {
      assert Normalise(s)[..8] == Padded(s, 8) && Normalise(s)[8..] == Padded([], 3);
      PaddedProper(s, 8);
      PaddedProper([], 3);
    } else {
      assert Normalise(s)[..8] == Padded(Upper(Take(name, 8)), 8) && Normalise(s)[8..] ==
        Padded(Upper(Take(ext, 3)), 3);
      PaddedProper(Upper(Take(name, 8)), 8);
      PaddedProper(Upper(Take(ext, 3)), 3);
    }
    ProperHalves(Normalise(s));
  }

  lemma PaddedProper(s: seq<Byte>, n: nat)
    requires BLANK !in s && NoLower(s)
    ensures RightPadded(Padded(s, n)) && NoLower(Padded(s, n))
  {}

  lemma ProperHalves(raw: seq<Byte>)
    requires |raw| == 11 && RightPadded(raw[..8]) && RightPadded(raw[8..]) && NoLower(raw[..8]) && NoLower(raw[8..])
    ensures Proper(raw)
  {
    assert raw == raw[..8] + raw[8..];
  }

  lemma ShownNoBlank(raw: seq<Byte>)
    requires |raw| == 11
    ensures BLANK !in CString(Format(raw))
  {
    var shown := CString(Format(raw));
    assert forall i | 0 <= i < |shown| :: shown[i] == Format(raw)[i];
  }

  /** What is shown is the formatted name up to its NUL; the round trip works for exactly the names that are
      blank-padded, in upper case, and recoverable. */
  lemma RoundTripExact(raw: seq<Byte>)
    requires |raw| == 11
    ensures Normalise(CString(Format(raw))) == raw <==> Proper(raw) && Recoverable(raw)
  {
    ShownNoBlank(raw);
    NormaliseProper(CString(Format(raw)));
    NormaliseIsString(CString(Format(raw)));
    if IsString(raw) && Proper(raw) {
      FormatIsString(raw);
      NamesExact(raw);
    }
  }

  lemma NamesExact(raw: seq<Byte>)
    requires Proper(raw) && IsString(raw)
    ensures Normalise(Format(raw)) == raw <==> Recoverable(raw)
  {
    if Recoverable(raw) {
      NameComesBack(raw);
    } else {
      var base, ext := Trimmed(raw[..8]), Trimmed(raw[8..]);
      Halves(raw, base, ext);
      assert Format(raw) == if ext != [] then base + [DOT] + ext else base;
      if DOT in ext {
        DotInExtension(base, ext);
      } else {
        DotInBase(base);
      }
    }
  }

  // ---- as they run

  method Normalise83(name: seq<Byte>, out: array<Byte>)
    requires out.Length == 11
    modifies out
    ensures out[..] == Normalise(name)
  {
    hide LastDot;
    Blank(out);
    if name == [DOT] {
      out[0] := DOT;
      assert out[..] == Padded(name, 11);
      return;
    }
    if name == [DOT, DOT] {
      out[0], out[1] := DOT, DOT;
      assert out[..] == Padded(name, 11);
      return;
    }
    var dot := FindLastDot(name);
    var base := if dot >= 0 then name[..dot] else name;
    CopyUpper(base, 8, out, 0);
    var ext := if dot >= 0 then name[dot + 1..] else [];
    if dot >= 0 {
      CopyUpper(ext, 3, out, 8);
    }
    Assembled(out[..], base, ext);
  }

  lemma Assembled(o: seq<Byte>, base: seq<Byte>, ext: seq<Byte>)
    requires |o| == 11
    requires forall k | 0 <= k < 8 :: o[k] == if k < |base| then ToUpper(base[k]) else BLANK
    requires forall k | 8 <= k < 11 :: o[k] == if k - 8 < |ext| then ToUpper(ext[k - 8]) else BLANK
    ensures o == Padded(Upper(Take(base, 8)), 8) + Padded(Upper(Take(ext, 3)), 3)
  {}

  method Blank(out: array<Byte>)
    modifies out
    ensures forall k | 0 <= k < out.Length :: out[k] == BLANK
  {
    var i := 0;
    while i < out.Length
      invariant 0 <= i <= out.Length && forall k | 0 <= k < i :: out[k] == BLANK
    {
      out[i] := BLANK;
      i := i + 1;
    }
  }

  method FindLastDot(name: seq<Byte>) returns (dot: int)
    ensures dot == LastDot(name)
  {
    var p := 0;
    dot := -1;
    while p < |name|
      invariant 0 <= p <= |name| && -1 <= dot < p
      invariant dot >= 0 ==> name[dot] == DOT
      invariant forall k | dot < k < p :: name[k] != DOT
    {
      if name[p] == DOT {
        dot := p;
      }
      p := p + 1;
    }
    FoundDot(name, dot);
  }

  /** At most `n` bytes of a part of the name, in upper case, from position `at` on. */
  method CopyUpper(part: seq<Byte>, n: nat, out: array<Byte>, at: nat)
    requires at + n <= out.Length
    modifies out
    ensures forall k | 0 <= k < out.Length ::
      out[k] == if at <= k < at + n && k - at < |part| then ToUpper(part[k - at]) else old(out[k])
  {
    var i := 0;
    while i < n && i < |part|
      invariant 0 <= i <= n && i <= |part|
      invariant forall k | 0 <= k < out.Length ::
        out[k] == if at <= k < at + i then ToUpper(part[k - at]) else old(out[k])
    {
      out[at + i] := ToUpper(part[i]);
      i := i + 1;
    }
  }

  lemma FoundDot(s: seq<Byte>, d: int)
    requires -1 <= d < |s| && (d >= 0 ==> s[d] == DOT) && forall i | d < i < |s| :: s[i] != DOT
    ensures LastDot(s) == d
  {}

  method Format83(raw: seq<Byte>) returns (out: seq<Byte>)
    requires |raw| == 11
    ensures out == Format(raw)
  {
    out := CopyToBlank(raw[..8]);
    if raw[8] != BLANK {
      var ext := CopyToBlank(raw[8..]);
      out := out + [DOT] + ext;
    }
  }

  /** The copying loop of format_83. */
  method CopyToBlank(part: seq<Byte>) returns (out: seq<Byte>)
    ensures out == Trimmed(part)
  {
    hide Trimmed;
    out := [];
    while |out| < |part| && part[|out|] != BLANK
      invariant |out| <= |part| && out == part[..|out|] && BLANK !in out
      decreases |part| - |out|
    {
      out := out + [part[|out|]];
    }
    TrimmedIs(part, out);
  }

  lemma {:induction false} TrimmedIs(s: seq<Byte>, t: seq<Byte>)
    requires t <= s && BLANK !in t && (|t| < |s| ==> s[|t|] == BLANK)
    ensures Trimmed(s) == t
  {
    if t != [] {
      assert s[0] == t[0];
      TrimmedIs(s[1..], t[1..]);
    }
  }
}
