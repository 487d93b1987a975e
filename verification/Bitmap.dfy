/** The bitmap: 64-bit words whose bits stand for numbered units, and the first-fit search over them. */
module Bitmaps {
  import opened Basics
  import opened Bits
  import opened FirstFit

  const WORD_BITS := 64

  // ---- words as rows of bits

  predicate IsWord(w: nat) { w < Pow2(WORD_BITS) }

  lemma OneBit(n: nat, i: nat)
    requires n < WORD_BITS
    ensures IsWord(Pow2(n)) && (Bit(Pow2(n), i) <==> i == n)
  {
    Pow2Mono(n, WORD_BITS);
    BitOfPow2(n, i);
  }

  /** `w | BIT(n)` sets bit n and no other. */
  lemma SetBit(w: nat, n: nat, i: nat)
    requires IsWord(w) && n < WORD_BITS
    ensures IsWord(Or(w, Pow2(n)))
    ensures Bit(Or(w, Pow2(n)), i) <==> i == n || Bit(w, i)
  {
    OneBit(n, i);
    OrBound(w, Pow2(n), WORD_BITS);
    BitOfOr(w, Pow2(n), i);
  }

  /** `w & ~BIT(n)` clears bit n and no other. */
  lemma ClearBit(w: nat, n: nat, i: nat)
    requires IsWord(w) && n < WORD_BITS && i < WORD_BITS
    ensures IsWord(Pow2(n)) && IsWord(And(w, Not(Pow2(n), WORD_BITS)))
    ensures Bit(And(w, Not(Pow2(n), WORD_BITS)), i) <==> i != n && Bit(w, i)
  {
    OneBit(n, i);
    AndBound(w, Not(Pow2(n), WORD_BITS));
    BitOfNot(Pow2(n), WORD_BITS, i);
    BitOfAnd(w, Not(Pow2(n), WORD_BITS), i);
  }

  /** The shift and mask of WORD(n) and BIT(n) are division and remainder. */
  lemma Position(n: nat)
    ensures Shr(n, 6) == n / WORD_BITS && And(n, 63) == n % WORD_BITS
  {
    assert Pow2(6) == 64;
    ShrIsDiv(n, 6);
    AndLowMask(n, 6);
  }

  /** Bits i..i+n get the value `b`. */
  function Filled(v: seq<bool>, i: nat, n: nat, b: bool): (r: seq<bool>)
    requires i + n <= |v|
    ensures |r| == |v|
    ensures forall j | 0 <= j < |v| :: r[j] == if i <= j < i + n then b else v[j]
  {
    v[..i] + seq(n, _ => b) + v[i + n..]
  }

  /** Clearing a run that was clear before it was set restores every bit. */
  lemma FillBack(v: seq<bool>, i: nat, n: nat)
    requires ClearRun(v, i, n)
    ensures Filled(Filled(v, i, n, true), i, n, false) == v
  {}

  class Bitmap {
    const words: array<nat>
    const numBits: nat

    ghost predicate Valid()
      reads words
    {
      words.Length == (numBits + 63) / WORD_BITS && forall i | 0 <= i < words.Length :: IsWord(words[i])
    }

    /** Bit n of the map, wherever it is stored. */
    ghost function View(): (v: seq<bool>)
      reads words
      requires Valid()
      ensures |v| == numBits
    {
      seq(numBits, n requires 0 <= n < numBits && Valid() reads words => Bit(words[n / WORD_BITS], n % WORD_BITS))
    }

    constructor (n: nat)
      ensures Valid() && View() == seq(n, _ => false) && numBits == n && fresh(words)
    {
      numBits := n;
      words := new nat[(n + 63) / WORD_BITS](_ => 0);
      new;
      AllClear();
    }

    lemma AllClear()
      requires words.Length == (numBits + 63) / WORD_BITS && forall i | 0 <= i < words.Length :: words[i] == 0
      ensures Valid() && View() == seq(numBits, _ => false)
    {
      forall n | 0 <= n < numBits ensures !Bit(words[n / WORD_BITS], n % WORD_BITS) {
        BitOfZero(n % WORD_BITS);
      }
    }

    method Set(n: nat)
      requires Valid() && n < numBits
      modifies words
      ensures Valid() && View() == old(View())[n := true]
    {
      Position(n);
      ghost var v := View();
      var w := words[Shr(n, 6)];
      SetBit(w, n % WORD_BITS, 0);
      words[Shr(n, 6)] := Or(w, Pow2(And(n, 63)));
      forall m | 0 <= m < numBits ensures View()[m] == v[n := true][m] {
        SamePosition(m, n);
        SetBit(w, n % WORD_BITS, m % WORD_BITS);
      }
    }

    method Clear(n: nat)
      requires Valid() && n < numBits
      modifies words
      ensures Valid() && View() == old(View())[n := false]
    {
      Position(n);
      ghost var v := View();
      var w := words[Shr(n, 6)];
      ClearBit(w, n % WORD_BITS, 0);
      words[Shr(n, 6)] := And(w, Not(Pow2(And(n, 63)), WORD_BITS));
      forall m | 0 <= m < numBits ensures View()[m] == v[n := false][m] {
        SamePosition(m, n);
        ClearBit(w, n % WORD_BITS, m % WORD_BITS);
      }
    }

    method Test(n: nat) returns (b: bool)
      requires Valid() && n < numBits
      ensures b == View()[n]
    {
      Position(n);
      AndPow2(words[n / WORD_BITS], n % WORD_BITS);
      b := And(words[Shr(n, 6)], Pow2(And(n, 63))) != 0;
    }

    method SetRange(start: nat, count: nat)
      requires Valid() && start + count <= numBits
      modifies words
      ensures Valid() && View() == Filled(old(View()), start, count, true)
    {
      var i := start;
      while i < start + count
        invariant start <= i <= start + count && Valid()
        invariant View() == Filled(old(View()), start, i - start, true)
      {
        Set(i);
        i := i + 1;
      }
    }

    method ClearRange(start: nat, count: nat)
      requires Valid() && start + count <= numBits
      modifies words
      ensures Valid() && View() == Filled(old(View()), start, count, false)
    {
      var i := start;
      while i < start + count
        invariant start <= i <= start + count && Valid()
        invariant View() == Filled(old(View()), start, i - start, false)
      {
        Clear(i);
        i := i + 1;
      }
    }

    /** The start of the leftmost run of `count` clear bits; -1 without one, and for a count of 0. */
    method FindClearRun(count: nat) returns (r: int)
      requires Valid()
      ensures count == 0 ==> r == -1
      ensures count > 0 ==> match FirstClear(View(), count) case None => r == -1 case Some(i) => r == i
    {
      hide Searched, ClearRun;
      ghost var v := View();
      SearchStarts(v, count);
      var runStart, runLen := 0, 0;
      var i := 0;
      while i < numBits
        invariant 0 <= i <= numBits && 0 <= runLen && Searched(v, count, i, runLen)
        invariant runLen > 0 ==> runStart == i - runLen
      {
        var used := Test(i);
        if !used {
          ClearPlace(v, count, i, runLen);
          if runLen == 0 {
            runStart := i;
          }
          runLen := runLen + 1;
          if runLen == count {
            return runStart;
          }
        } else {
          UsedPlace(v, count, i, runLen);
          runLen := 0;
        }
        i := i + 1;
      }
      if count > 0 {
        NoneFound(v, count, runLen);
      }
      r := -1;
    }
  }

  lemma SamePosition(m: nat, n: nat)
    ensures m == n <==> m / WORD_BITS == n / WORD_BITS && m % WORD_BITS == n % WORD_BITS
  {}
}
