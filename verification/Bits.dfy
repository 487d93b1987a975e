/** Machine-word operators on natural numbers, defined bit by bit, and the
    arithmetic they amount to for the masks and shifts the kernel uses. */
module Bits {
  import opened Basics

  function Pow2(k: nat): (r: nat)
    ensures r > 0
  {
    if k == 0 then 1 else 2 * Pow2(k - 1)
  }

  lemma {:induction false} Pow2Add(j: nat, k: nat)
    ensures Pow2(j + k) == Pow2(j) * Pow2(k)
  {
    if j > 0 {
      Pow2Add(j - 1, k);
      assert Pow2(j + k) == 2 * Pow2(j - 1 + k);
      assert 2 * (Pow2(j - 1) * Pow2(k)) == (2 * Pow2(j - 1)) * Pow2(k);
    }
  }

  /** C's `a & b`. */
  function And(a: nat, b: nat): nat
    decreases a
  {
    if a == 0 || b == 0 then 0 else 2 * And(a / 2, b / 2) + (if a % 2 == 1 && b % 2 == 1 then 1 else 0)
  }

  /** C's `a | b`. */
  function Or(a: nat, b: nat): nat
    decreases a + b
  {
    if a == 0 then b else if b == 0 then a
    else 2 * Or(a / 2, b / 2) + (if a % 2 + b % 2 > 0 then 1 else 0)
  }

  /** C's `a >> k`. */
  function Shr(a: nat, k: nat): nat
  {
    if k == 0 then a else Shr(a / 2, k - 1)
  }

  lemma AndOdd(a: nat, c: nat)
    ensures And(a, 2 * c + 1) == 2 * And(a / 2, c) + a % 2
  {
    assert (2 * c + 1) / 2 == c && (2 * c + 1) % 2 == 1;
  }

  lemma AndLowStep(a: nat, c: nat)
    requires And(a / 2, c) == a / 2 % (c + 1)
    ensures And(a, 2 * c + 1) == a % (2 * (c + 1))
  {
    AndOdd(a, c);
    HalfMod(a, c + 1);
  }

  /** `a & (2^k - 1)` keeps the low `k` bits. */
  lemma {:induction false} AndLowMask(a: nat, k: nat)
    ensures And(a, Pow2(k) - 1) == a % Pow2(k)
  {
    if k > 0 {
      AndLowMask(a / 2, k - 1);
      AndLowStep(a, Pow2(k - 1) - 1);
    }
  }

  lemma HalfMod(a: nat, m: nat)
    requires m > 0
    ensures a % (2 * m) == 2 * (a / 2 % m) + a % 2
  {
    var q, r := a / 2 / m, a / 2 % m;
    assert a / 2 == q * m + r;
    assert a == (2 * m) * q + (2 * r + a % 2);
    DivModUnique(a, 2 * m, q, 2 * r + a % 2);
  }

  lemma DivModUnique(a: nat, m: nat, q: nat, r: nat)
    requires r < m && a == m * q + r
    ensures a / m == q && a % m == r
  {
    var q', r' := a / m, a % m;
    if q' < q {
      MulMono(m, q' + 1, q);
    } else if q < q' {
      MulMono(m, q + 1, q');
    }
  }

  lemma AndHighStep(a: nat, d: nat, m: nat)
    requires m > 0 && And(a / 2, d) == a / 2 - a / 2 % m
    ensures And(a, 2 * d) == a - a % (2 * m)
  {
    HalfMod(a, m);
    if a > 0 && d > 0 {
      assert (2 * d) / 2 == d && (2 * d) % 2 == 0;
      assert And(a, 2 * d) == 2 * And(a / 2, d);
    } else if d == 0 {
      assert And(a / 2, d) == 0;
    }
  }

  /** For an `n`-bit word, `a & ~(2^k - 1)` drops the low `k` bits. */
  lemma {:induction false} AndHighMask(a: nat, k: nat, n: nat)
    requires k <= n && a < Pow2(n)
    ensures Pow2(k) <= Pow2(n)
    ensures And(a, Pow2(n) - Pow2(k)) == a - a % Pow2(k)
  {
    if k == 0 {
      AndLowMask(a, n);
      SmallMod(a, Pow2(n));
    } else {
      AndHighMask(a / 2, k - 1, n - 1);
      AndHighStep(a, Pow2(n - 1) - Pow2(k - 1), Pow2(k - 1));
    }
  }

  lemma SmallMod(a: nat, m: nat)
    requires a < m
    ensures a % m == a && a % 1 == 0
  {}

  /** Or-ing flags into the clear low bits of a word adds them. */
  lemma {:induction false} OrLow(a: nat, f: nat, k: nat)
    requires a % Pow2(k) == 0 && f < Pow2(k)
    ensures Or(a, f) == a + f
  {
    if k > 0 && a > 0 && f > 0 {
      HalfMod(a, Pow2(k - 1));
      OrLow(a / 2, f / 2, k - 1);
    }
  }

  lemma {:induction false} OrComm(a: nat, b: nat)
    ensures Or(a, b) == Or(b, a)
    decreases a + b
  {
    if a > 0 && b > 0 {
      OrComm(a / 2, b / 2);
    }
  }

  /** Or-ing in bits that were shifted up above the others adds them. */
  lemma OrShifted(low: nat, high: nat, k: nat)
    requires low < Pow2(k)
    ensures high * Pow2(k) >= 0 && Or(low, high * Pow2(k)) == low + high * Pow2(k)
  {
    MulMono(Pow2(k), 0, high);
    DivModUnique(high * Pow2(k), Pow2(k), high, 0);
    OrLow(high * Pow2(k), low, k);
    OrComm(low, high * Pow2(k));
  }

  lemma {:induction false} ShrIsDiv(a: nat, k: nat)
    ensures Shr(a, k) == a / Pow2(k)
  {
    if k > 0 {
      ShrIsDiv(a / 2, k - 1);
      DivDiv(a, Pow2(k - 1));
    }
  }

  lemma DivDiv(a: nat, m: nat)
    requires m > 0
    ensures a / 2 / m == a / (2 * m)
  {
    var q, r := a / 2 / m, a / 2 % m;
    assert a / 2 == q * m + r;
    assert a == (2 * m) * q + (2 * r + a % 2);
    DivModUnique(a, 2 * m, q, 2 * r + a % 2);
  }

  // ---- single bits

  /** Bit `i` of a word. */
  predicate Bit(w: nat, i: nat)
  {
    if i == 0 then w % 2 == 1 else Bit(w / 2, i - 1)
  }

  lemma {:induction false} BitOfPow2(n: nat, i: nat)
    ensures Bit(Pow2(n), i) <==> i == n
  {
    if n > 0 && i > 0 {
      assert Pow2(n) / 2 == Pow2(n - 1);
      BitOfPow2(n - 1, i - 1);
    } else if i > 0 {
      BitOfZero(i - 1);
    }
  }

  lemma {:induction false} BitOfZero(i: nat)
    ensures !Bit(0, i)
  {
    if i > 0 {
      BitOfZero(i - 1);
    }
  }

  lemma {:induction false} BitOfAnd(a: nat, b: nat, i: nat)
    ensures Bit(And(a, b), i) <==> Bit(a, i) && Bit(b, i)
    decreases i
  {
    if a == 0 || b == 0 {
      BitOfZero(i);
    } else if i > 0 {
      BitOfAnd(a / 2, b / 2, i - 1);
    }
  }

  lemma {:induction false} BitOfOr(a: nat, b: nat, i: nat)
    ensures Bit(Or(a, b), i) <==> Bit(a, i) || Bit(b, i)
    decreases i
  {
    if a == 0 || b == 0 {
      BitOfZero(i);
    } else if i > 0 {
      BitOfOr(a / 2, b / 2, i - 1);
    }
  }

  /** C's `~x` for a `k`-bit word. */
  function Not(x: nat, k: nat): nat
    requires x < Pow2(k)
  {
    Pow2(k) - 1 - x
  }

  lemma {:induction false} BitOfNot(x: nat, k: nat, i: nat)
    requires x < Pow2(k) && i < k
    ensures Bit(Not(x, k), i) <==> !Bit(x, i)
  {
    if i > 0 {
      assert Not(x, k) / 2 == Not(x / 2, k - 1);
      BitOfNot(x / 2, k - 1, i - 1);
    }
  }

  /** Testing a word against one bit. */
  lemma {:induction false} AndPow2(w: nat, n: nat)
    ensures And(w, Pow2(n)) != 0 <==> Bit(w, n)
  {
    if w == 0 {
      BitOfZero(n);
    } else if n > 0 {
      assert Pow2(n) / 2 == Pow2(n - 1);
      AndPow2(w / 2, n - 1);
    }
  }

  lemma {:induction false} OrBound(a: nat, b: nat, k: nat)
    requires a < Pow2(k) && b < Pow2(k)
    ensures Or(a, b) < Pow2(k)
  {
    if k > 0 {
      OrBound(a / 2, b / 2, k - 1);
    }
  }

  lemma {:induction false} AndBound(a: nat, b: nat)
    ensures And(a, b) <= a
  {
    if a > 0 {
      AndBound(a / 2, b / 2);
    }
  }

  lemma {:induction false} Pow2Mono(j: nat, k: nat)
    requires j < k
    ensures Pow2(j) < Pow2(k)
  {
    if j < k - 1 {
      Pow2Mono(j, k - 1);
    }
  }
}
