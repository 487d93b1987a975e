/** Numbers as strings of digits: printf's ui2a and i2a, its a2i, and itoa with strrev. */
module DigitStrings {
  import opened Basics
  import opened Bits

  function Pow(b: nat, k: nat): nat { if k == 0 then 1 else b * Pow(b, k - 1) }

  /** The number a row of digits stands for, most significant digit first. */
  function Value(ds: seq<nat>, base: nat): nat {
    if ds == [] then 0 else Value(ds[..|ds| - 1], base) * base + ds[|ds| - 1]
  }

  /** Digits below the base, at least one, and no leading zero. */
  predicate Canonical(ds: seq<nat>, base: nat) {
    ds != [] && (forall i | 0 <= i < |ds| :: ds[i] < base) && (|ds| > 1 ==> ds[0] > 0)
  }

  lemma DivLess(n: nat, base: nat)
    requires 2 <= base <= n
    ensures 0 < n / base < n && 0 <= n % base < base && n == n / base * base + n % base
  {
    var q := n / base;
    assert n == base * q + n % base;
    MulMono(q, 2, base);
    assert base * q > 0;
  }

  /** The digits of a number. */
  function Digits(n: nat, base: nat): (ds: seq<nat>)
    requires base >= 2
  {
    if n < base then [n] else
    DivLess(n, base);
    Digits(n / base, base) + [n % base]
  }

  lemma {:induction false} DigitsCanonical(n: nat, base: nat)
    requires base >= 2
    ensures Canonical(Digits(n, base), base) && Value(Digits(n, base), base) == n
    ensures n > 0 ==> Digits(n, base)[0] > 0
  {
    if n < base {
      assert Value([n], base) == Value([], base) * base + n;
    } else {
      DivLess(n, base);
      DigitsCanonical(n / base, base);
      var q := Digits(n / base, base);
      assert Digits(n, base)[..|q|] == q;
    }
  }

  lemma DivMod(q: nat, r: nat, base: nat)
    requires r < base
    ensures (q * base + r) / base == q && (q * base + r) % base == r
  {
    DivModUnique(q * base + r, base, q, r);
  }

  /** A number has one canonical row of digits. */
  lemma {:induction false} CanonicalUnique(ds: seq<nat>, base: nat)
    requires base >= 2 && Canonical(ds, base)
    ensures Digits(Value(ds, base), base) == ds
    ensures |ds| > 1 ==> Value(ds, base) >= base
    decreases |ds|
  {
    var front, last := ds[..|ds| - 1], ds[|ds| - 1];
    if |ds| == 1 {
      assert Value(front, base) == 0;
    } else {
      CanonicalUnique(front, base);
      var q := Value(front, base);
      LeadingPositive(front, base);
      DivMod(q, last, base);
      MulMono(base, 1, q);
      assert ds == front + [last];
    }
  }

  lemma {:induction false} LeadingPositive(ds: seq<nat>, base: nat)
    requires ds != [] && ds[0] > 0 && base >= 1
    ensures Value(ds, base) > 0
    decreases |ds|
  {
    if |ds| > 1 {
      LeadingPositive(ds[..|ds| - 1], base);
      MulMono(base, 1, Value(ds[..|ds| - 1], base));
    } else {
      assert ds[..0] == [];
    }
  }

  // ---- characters

  const ZERO := 0x30
  const MINUS := 0x2D

  function DigitChar(d: nat, uc: bool): (c: Byte)
    requires d < 16
    ensures c != 0
  {
    if d < 10 then ZERO + d else (if uc then 0x41 else 0x61) + d - 10
  }

  function Chars(ds: seq<nat>, uc: bool): (s: seq<Byte>)
    requires forall i | 0 <= i < |ds| :: ds[i] < 16
    ensures |s| == |ds| && forall i | 0 <= i < |ds| :: s[i] == DigitChar(ds[i], uc)
  {
    seq(|ds|, i requires 0 <= i < |ds| => DigitChar(ds[i], uc))
  }

  /** The number as text. */
  function Text(n: nat, base: nat, uc: bool): (s: seq<Byte>)
    requires 2 <= base <= 16
  {
    DigitsCanonical(n, base);
    Chars(Digits(n, base), uc)
  }

  /** a2d: the value of a hexadecimal digit of either case, -1 for anything else. */
  function A2d(c: Byte): (d: int)
    ensures -1 <= d < 16
  {
    if 0x30 <= c <= 0x39 then c - 0x30
    else if 0x61 <= c <= 0x66 then c - 0x61 + 10
    else if 0x41 <= c <= 0x46 then c - 0x41 + 10
    else -1
  }

  lemma CharValue(d: nat, uc: bool)
    requires d < 16
    ensures A2d(DigitChar(d, uc)) == d
  {}

  // ---- ui2a

  lemma {:induction false} PowGrows(b: nat, j: nat, k: nat)
    requires b >= 1 && j <= k
    ensures 1 <= Pow(b, j) <= Pow(b, k)
  {
    if j < k {
      PowGrows(b, j, k - 1);
      MulMono(Pow(b, k - 1), 1, b);
    } else if j > 0 {
      PowGrows(b, j - 1, j - 1);
      MulMono(b, 1, Pow(b, j - 1));
    }
  }

  lemma BigPower(base: nat, k: nat)
    requires base >= 10 && k >= 10
    ensures Pow(base, k) >= U32
  {
    PowGrows(base, 10, k);
    PowBase(10, base, 10);
    assert Pow(10, 5) == 10_0000;
    assert Pow(10, 10) == 100_0000_0000;
  }

  /** A 32-bit number has at most ten digits in base 10 and above. */
  lemma TenDigits(base: nat, k: nat, n: nat)
    requires base >= 10 && Pow(base, k) <= n < U32
    ensures k < 10
  {
    if k >= 10 {
      BigPower(base, k);
    }
  }

  lemma {:induction false} PowBase(a: nat, b: nat, k: nat)
    requires a <= b
    ensures Pow(a, k) <= Pow(b, k)
  {
    if k > 0 {
      PowBase(a, b, k - 1);
      MulMono(a, Pow(a, k - 1), Pow(b, k - 1));
      MulMono(Pow(b, k - 1), a, b);
    }
  }

  lemma GrowStep(num: nat, d: nat, base: nat)
    requires d >= 1
    ensures num / d >= base <==> d * base <= num
  {
    var q := num / d;
    assert num == d * q + num % d;
    if q >= base {
      MulMono(d, base, q);
    } else {
      MulMono(d, q + 1, base);
    }
  }

  function Quotient(a: nat, d: nat): nat
    requires d > 0
  {
    a / d
  }

  function Remainder(a: nat, d: nat): nat
    requires d > 0
  {
    a % d
  }

  /** The divisor when `left` digits remain: the weight of the next one, 0 after the last. */
  function Weight(base: nat, left: nat): nat { if left == 0 then 0 else Pow(base, left - 1) }

  /** The state of ui2a's second loop: the digits `ds` are out, `num` is what the `left` others must make up. */
  ghost predicate Emitting(ds: seq<nat>, base: nat, left: nat, num: nat, n: nat) {
    && |ds| + left <= 10 && (forall i | 0 <= i < |ds| :: ds[i] < base)
    && Balance(Value(ds, base), Pow(base, left), num, n) && num < Pow(base, left)
    && (ds == [] ==> left > 0 && num == n && (left == 1 || Pow(base, left - 1) <= num))
    && (ds != [] && |ds| + left > 1 ==> ds[0] > 0)
  }

  predicate Balance(v: nat, weight: nat, num: nat, n: nat) { v * weight + num == n }

  /** The digit at weight `d` moves from the rest to the output. */
  lemma BalanceStep(v: nat, base: nat, d: nat, num: nat, dgt: nat, rest: nat, n: nat)
    requires d >= 1 && Balance(v, base * d, num, n) && num < base * d && dgt == num / d && rest == num % d
    ensures dgt < base && Balance(v * base + dgt, d, rest, n) && rest < d
  {
    assert num == d * dgt + rest;
    if dgt >= base {
      MulMono(d, base, dgt);
    }
    assert (v * base + dgt) * d == v * (base * d) + d * dgt;
  }

  /** Each round emits a digit: the test for leading zeros never skips one. */
  lemma EmitStep(ds: seq<nat>, base: nat, left: nat, num: nat, n: nat, dgt: nat, rest: nat)
    requires base >= 2 && Emitting(ds, base, left, num, n) && left > 0
    requires Pow(base, left - 1) >= 1 && dgt == Quotient(num, Pow(base, left - 1))
    requires rest == Remainder(num, Pow(base, left - 1))
    ensures dgt < base && |ds| <= 9 && (ds != [] || dgt > 0 || left == 1)
    ensures Emitting(ds + [dgt], base, left - 1, rest, n)
  {
    BalanceStep(Value(ds, base), base, Pow(base, left - 1), num, dgt, rest, n);
    DigitPositive(num, Pow(base, left - 1));
    AppendValue(ds, dgt, base);
  }

  lemma WeightStep(base: nat, left: nat)
    requires base >= 2 && left > 0
    ensures Weight(base, left) == Pow(base, left - 1) >= 1
    ensures Quotient(Weight(base, left), base) == Weight(base, left - 1) < Weight(base, left)
  {
    PowGrows(base, 0, left - 1);
    PowDiv(base, left - 1);
    if left > 1 {
      PowGrows(base, 0, left - 2);
      MulMono(Pow(base, left - 2), 2, base);
    }
  }

  /** The state of the first loop: `d` is a power of the base, and not above the number. */
  ghost predicate Weighing(d: nat, base: nat, k: nat, n: nat) {
    d == Pow(base, k) && d >= 1 && (k == 0 || d <= n)
  }

  lemma WeighStart(base: nat, n: nat)
    ensures Weighing(1, base, 0, n)
  {}

  /** The divisor never grows beyond the number, so it does not overflow. */
  lemma WeighStep(d: nat, base: nat, k: nat, n: nat)
    requires Weighing(d, base, k, n) && base >= 2 && n / d >= base
    ensures d < d * base <= n && Weighing(d * base, base, k + 1, n)
  {
    GrowStep(n, d, base);
    MulMono(d, 2, base);
  }

  lemma WeighEnd(d: nat, base: nat, k: nat, n: nat)
    requires Weighing(d, base, k, n) && base >= 10 && n / d < base && n < U32
    ensures d == Weight(base, k + 1) && Emitting([], base, k + 1, n, n)
  {
    GrowStep(n, d, base);
    if k > 0 {
      TenDigits(base, k, n);
    }
  }

  lemma EmitEnd(ds: seq<nat>, base: nat, num: nat, n: nat, uc: bool)
    requires Emitting(ds, base, 0, num, n) && 2 <= base <= 16
    ensures |ds| <= 10 && (forall i | 0 <= i < |ds| :: ds[i] < 16) && Text(n, base, uc) == Chars(ds, uc)
  {
    assert Canonical(ds, base) && Value(ds, base) * 1 == n;
    hide Emitting, Balance, Pow, Value;
    CanonicalUnique(ds, base);
  }

  /** ui2a: the digits of `n` and a NUL, from position `at` of the buffer on; the position of the NUL. */
  method Ui2a(n: nat, base: nat, uc: bool, bf: array<Byte>, at: nat) returns (end: nat)
    requires n < U32 && (base == 10 || base == 16) && at + 11 <= bf.Length
    modifies bf
    ensures end == at + |Text(n, base, uc)| <= at + 10 && bf[end] == 0 && bf[at..end] == Text(n, base, uc)
    ensures forall i | 0 <= i < at :: bf[i] == old(bf[i])
  {
    hide Emitting, Weighing, Weight, Text, Pow;
    var num: nat, d: nat := n, 1;
    ghost var k: nat := 0;
    WeighStart(base, n);
    while num / d >= base
      modifies {}
      invariant num == n && 1 <= d < U32 && Weighing(d, base, k, n)
      decreases num - d
    {
      WeighStep(d, base, k, n);
      d := d * base;
      k := k + 1;
    }
    WeighEnd(d, base, k, n);
    end := Emit(n, base, uc, bf, at, d, k + 1);
  }

  /** The second loop of ui2a, with `digits` digits to come, the first at weight `d0`. */
  method Emit(n: nat, base: nat, uc: bool, bf: array<Byte>, at: nat, d0: nat, ghost digits: nat) returns (end: nat)
    requires (base == 10 || base == 16) && at + 11 <= bf.Length && digits > 0
    requires d0 == Weight(base, digits) && Emitting([], base, digits, n, n)
    modifies bf
    ensures end == at + |Text(n, base, uc)| <= at + 10 && bf[end] == 0 && bf[at..end] == Text(n, base, uc)
    ensures forall i | 0 <= i < at :: bf[i] == old(bf[i])
  {
    hide Emitting, Weight, Text, Pow, Chars, Quotient, Remainder;
    assert Chars([], uc) == [];
    var num: nat, d: nat := n, d0;
    end := at;
    ghost var ds: seq<nat>, left := [], digits;
    WeightStep(base, left);
    WeightPositive(base);
    while d != 0
      invariant |ds| <= 10 && end == at + |ds| && forall i | 0 <= i < |ds| :: ds[i] < base
      invariant bf[at..end] == Chars(ds, uc)
      invariant forall i | 0 <= i < at :: bf[i] == old(bf[i])
      invariant left >= 0 && Emitting(ds, base, left, num, n) && d == Weight(base, left)
      decreases d
    {
      WeightStep(base, left);
      var dgt, rest := Quotient(num, d), Remainder(num, d);
      EmitStep(ds, base, left, num, n, dgt, rest);
      num := rest;
      d := Quotient(d, base);
      if end > at || dgt > 0 || d == 0 {
        end := PutDigit(bf, at, end, dgt, uc, ds);
      }
      ds := ds + [dgt];
      left := left - 1;
    }
    EmitEnd(ds, base, num, n, uc);
    bf[end] := 0;
  }

  /** *bf++ = the character of a digit */
  method PutDigit(bf: array<Byte>, at: nat, end: nat, dgt: nat, uc: bool, ghost ds: seq<nat>) returns (next: nat)
    requires at <= end < bf.Length && dgt < 16 && (forall i | 0 <= i < |ds| :: ds[i] < 16)
    requires bf[at..end] == Chars(ds, uc)
    modifies bf
    ensures next == end + 1 && bf[at..next] == Chars(ds + [dgt], uc)
    ensures forall i | 0 <= i < end :: bf[i] == old(bf[i])
  {
    bf[end] := DigitChar(dgt, uc);
    next := end + 1;
    assert bf[at..next] == bf[at..end] + [DigitChar(dgt, uc)];
  }

  lemma WeightPositive(base: nat)
    requires base >= 2
    ensures forall left: nat :: Weight(base, left) == 0 <==> left == 0
  {
    forall left: nat | left > 0 ensures Weight(base, left) > 0 {
      WeightStep(base, left);
    }
  }

  lemma DigitPositive(num: nat, d: nat)
    requires d >= 1
    ensures num / d > 0 <==> d <= num
  {
    GrowStep(num, d, 1);
  }

  lemma PowDiv(base: nat, k: nat)
    requires base >= 2
    ensures Pow(base, k) / base == if k == 0 then 0 else Pow(base, k - 1)
    ensures k > 0 ==> Pow(base, k - 1) * base == Pow(base, k) && Pow(base, k - 1) >= 1
  {
    if k > 0 {
      DivMod(Pow(base, k - 1), 0, base);
      PowGrows(base, 0, k - 1);
    }
  }

  lemma AppendValue(ds: seq<nat>, x: nat, base: nat)
    ensures Value(ds + [x], base) == Value(ds, base) * base + x
  {
    assert (ds + [x])[..|ds|] == ds;
  }

  // ---- i2a

  /** A signed number as text. */
  function SignedText(n: int): seq<Byte>
  {
    if n < 0 then [MINUS] + Text(-n, 10, false) else Text(n, 10, false)
  }

  /** i2a always fits its buffer of twelve. */
  method I2a(n: int, bf: array<Byte>) returns (end: nat)
    requires -0x8000_0000 <= n < 0x8000_0000 && bf.Length == 12
    modifies bf
    ensures end == |SignedText(n)| < 12 && bf[end] == 0 && bf[..end] == SignedText(n)
  {
    hide Text, Wrap;
    if n < 0 {
      var num: nat := Wrap(-n);
      assert num == -n;
      bf[0] := MINUS;
      end := Ui2a(num, 10, false, bf, 1);
      assert bf[..end] == [MINUS] + bf[1..end];
    } else {
      end := Ui2a(n, 10, false, bf, 0);
      assert bf[..end] == bf[0..end];
    }
  }

  // ---- a2i

  /** The character a pointer into a NUL-terminated string sees; the NUL is the last one it may look at. */
  function CharAt(s: seq<Byte>, i: nat): Byte
    requires i <= |s|
  {
    if i < |s| then s[i] else 0
  }

  /** A digit of value at most `top`. The test of a2i lets the digit that equals the base pass, so its `top` is
      the base; for the digits of base b it would be b - 1. */
  predicate Accepted(c: Byte, top: nat) { 0 <= A2d(c) <= top }

  /** Where the run of accepted characters ends. */
  function RunEnd(s: seq<Byte>, i: nat, top: nat): (j: nat)
    requires i <= |s|
    ensures i <= j <= |s| && !Accepted(CharAt(s, j), top) && forall k | i <= k < j :: Accepted(s[k], top)
    decreases |s| - i
  {
    if i == |s| || !Accepted(s[i], top) then i else RunEnd(s, i + 1, top)
  }

  /** The values of a row of digits. */
  function Row(s: seq<Byte>): (ds: seq<nat>)
    ensures |ds| == |s| && forall i | 0 <= i < |s| && A2d(s[i]) >= 0 :: ds[i] == A2d(s[i])
  {
    seq(|s|, i requires 0 <= i < |s| => if A2d(s[i]) >= 0 then A2d(s[i]) else 0)
  }

  /** a2i from the character at index `i` on: the number, the first character that is not part of it, and the index
      after that. */
  method A2i(s: seq<Byte>, i: nat, base: nat) returns (ch: Byte, next: nat, num: nat)
    requires i <= |s|
    ensures var j := RunEnd(s, i, base);
      && ch == CharAt(s, j) && next == j + 1
      && (forall k | i <= k < j :: A2d(s[k]) >= 0) && num == Value(Row(s[i..j]), base)
  {
    ghost var end := RunEnd(s, i, base);
    hide Value, RunEnd, Row, Extended;
    ch := CharAt(s, i);
    next := i + 1;
    num := 0;
    RowMore([], base);
    while A2d(ch) >= 0
      invariant i < next <= end + 1 && ch == CharAt(s, next - 1)
      invariant num == Value(Row(s[i..next - 1]), base)
      decreases |s| - next
    {
      var digit := A2d(ch);
      if digit > base {
        break;
      }
      RunStep(s, i, next - 1, base);
      num := Extended(num, base, digit);
      ch := CharAt(s, next);
      next := next + 1;
    }
  }

  /** num * base + digit */
  function Extended(num: nat, base: nat, digit: nat): nat { num * base + digit }

  lemma RunStep(s: seq<Byte>, i: nat, j: nat, base: nat)
    requires i <= j < |s| && A2d(s[j]) >= 0
    ensures Value(Row(s[i..j + 1]), base) == Extended(Value(Row(s[i..j]), base), base, A2d(s[j]))
  {
    assert s[i..j + 1][..j - i] == s[i..j];
    RowMore(s[i..j + 1], base);
  }

  lemma RowMore(s: seq<Byte>, base: nat)
    ensures s == [] ==> Value(Row(s), base) == 0
    ensures s != [] && A2d(s[|s| - 1]) >= 0 ==>
      Value(Row(s), base) == Value(Row(s[..|s| - 1]), base) * base + A2d(s[|s| - 1])
  {
    if s != [] {
      assert Row(s)[..|s| - 1] == Row(s[..|s| - 1]);
    }
  }

  /** a2i reads back what ui2a wrote, up to the NUL. */
  lemma A2iInverts(n: nat, base: nat, uc: bool)
    requires n < 0x8000_0000 && (base == 10 || base == 16)
    ensures var t := Text(n, base, uc);
      RunEnd(t, 0, base) == |t| && (forall i | 0 <= i < |t| :: A2d(t[i]) >= 0) && Value(Row(t), base) == n
  {
    var t, ds := Text(n, base, uc), Digits(n, base);
    DigitsCanonical(n, base);
    forall i | 0 <= i < |t| ensures A2d(t[i]) == ds[i] {
      CharValue(ds[i], uc);
    }
    assert Row(t) == ds;
    assert forall k | 0 <= k < |t| :: Accepted(t[k], base);
  }

  lemma {:induction false} RunIs(s: seq<Byte>, i: nat, j: nat, top: nat)
    requires i <= j <= |s| && !Accepted(CharAt(s, j), top) && forall k | i <= k < j :: Accepted(s[k], top)
    ensures RunEnd(s, i, top) == j
    decreases j - i
  {
    if i < j {
      RunIs(s, i + 1, j, top);
    }
  }

  /** More digits never make the number smaller, and the digit that equals the base makes it larger. */
  lemma {:induction false} LongerRun(s: seq<Byte>, i: nat, k: nat, j: nat, base: nat)
    requires base >= 1 && i <= k <= j <= |s| && (forall x | i <= x < j :: A2d(s[x]) >= 0)
    ensures Value(Row(s[i..k]), base) <= Value(Row(s[i..j]), base)
    ensures k < j && A2d(s[k]) == base ==> Value(Row(s[i..k]), base) < Value(Row(s[i..j]), base)
    decreases j
  {
    if k < j {
      hide Value, Row;
      RunStep(s, i, j - 1, base);
      LongerRun(s, i, k, j - 1, base);
      ExtendedGrows(Value(Row(s[i..j - 1]), base), base, A2d(s[j - 1]));
    }
  }

  /** No round of a2i leaves the int it computes in iff the number itself fits. */
  lemma StaysInInt(s: seq<Byte>, i: nat, base: nat)
    requires i <= |s| && base >= 1
    ensures var end := RunEnd(s, i, base);
      && (forall k | i <= k < end :: A2d(s[k]) >= 0)
      && ((forall k | i <= k <= end :: Value(Row(s[i..k]), base) < 0x8000_0000)
          <==> Value(Row(s[i..end]), base) < 0x8000_0000)
  {
    var end := RunEnd(s, i, base);
    hide Value, Row;
    forall k | i <= k <= end ensures Value(Row(s[i..k]), base) <= Value(Row(s[i..end]), base) {
      LongerRun(s, i, k, end, base);
    }
  }

  lemma ExtendedGrows(num: nat, base: nat, digit: nat)
    requires base >= 1
    ensures Extended(num, base, digit) >= num + digit
  {
    MulMono(num, 1, base);
  }

  /**
   * a2i stops where the digits of the base end, with their value, iff the character there is not a digit equal to
   * the base: for base 10 the letter `a` of either case. No character is the digit 16.
   */
  lemma LetterAsDigit(s: seq<Byte>, i: nat, base: nat)
    requires i <= |s| && base >= 1
    ensures var end, digits := RunEnd(s, i, base), RunEnd(s, i, base - 1);
      && digits <= end && (forall k | i <= k < end :: A2d(s[k]) >= 0)
      && (end == digits <==> A2d(CharAt(s, digits)) != base)
      && (Value(Row(s[i..end]), base) == Value(Row(s[i..digits]), base) <==> A2d(CharAt(s, digits)) != base)
    ensures base == 10 ==> forall c: Byte :: A2d(c) == base <==> c == 0x61 || c == 0x41
    ensures base >= 16 ==> RunEnd(s, i, base) == RunEnd(s, i, base - 1)
  {
    var end, digits := RunEnd(s, i, base), RunEnd(s, i, base - 1);
    hide Value, Row;
    if A2d(CharAt(s, digits)) != base {
      RunIs(s, i, digits, base);
    } else {
      LongerRun(s, i, digits, end, base);
    }
  }

  // ---- itoa and strrev

  function Reversed<T>(s: seq<T>): (r: seq<T>)
    ensures |r| == |s| && forall i | 0 <= i < |s| :: r[i] == s[|s| - 1 - i]
  {
    seq(|s|, i requires 0 <= i < |s| => s[|s| - 1 - i])
  }

  /** strrev of the string of length `n` at the start of the array. */
  method StrRev(s: array<Byte>, ghost n: nat)
    requires n < s.Length && s[n] == 0 && forall i | 0 <= i < n :: s[i] != 0
    modifies s
    ensures s[..n] == Reversed(old(s[..n])) && forall i | n <= i < s.Length :: s[i] == old(s[i])
  {
    ghost var w := s[..n];
    var tail: int := Length(s, n);
    tail := tail - 1;
    var head := 0;
    while head < tail
      invariant 0 <= head <= n && head + tail == n - 1 && tail < n
      invariant forall i | 0 <= i < n :: s[i] == w[if i < head || i > tail then n - 1 - i else i]
      invariant forall i | n <= i < s.Length :: s[i] == old(s[i])
    {
      s[tail], s[head] := s[head], s[tail];
      tail := tail - 1;
      head := head + 1;
    }
    ReversedIs(w, s[..n]);
  }

  /** while (*tail) tail++ */
  method Length(s: array<Byte>, ghost n: nat) returns (len: nat)
    requires n < s.Length && s[n] == 0 && forall i | 0 <= i < n :: s[i] != 0
    ensures len == n
  {
    len := 0;
    while s[len] != 0
      invariant 0 <= len <= n
      decreases n - len
    {
      len := len + 1;
    }
  }

  lemma ReversedIs(w: seq<Byte>, r: seq<Byte>)
    requires |r| == |w| && forall i | 0 <= i < |w| :: r[i] == w[|w| - 1 - i]
    ensures r == Reversed(w)
  {}

  /** itoa: low digit first, then reversed in place. It is the text ui2a makes in base 10. */
  method Itoa(n: nat, buf: array<Byte>)
    requires |Text(n, 10, false)| < buf.Length
    modifies buf
    ensures var len := |Text(n, 10, false)|; buf[..len] == Text(n, 10, false) && buf[len] == 0
  {
    hide Text, Reversed, RestOfText;
    RestWhole(n);
    ghost var t := Text(n, 10, false);
    TextOfDigit(n);
    if n == 0 {
      buf[0] := ZERO;
      buf[1] := 0;
      return;
    }
    var val: nat, p: nat := n, 0;
    ReversedNothing();
    while val > 0
      invariant p <= |t| < buf.Length && t == RestOfText(val) + Reversed(buf[..p])
    {
      ItoaStep(t, val, buf[..p]);
      var d := val % 10;
      val := val / 10;
      buf[p] := d + ZERO;
      p := p + 1;
      assert buf[..p] == buf[..p - 1] + [d + ZERO];
    }
    buf[p] := 0;
    NoNul(n, buf[..p]);
    StrRev(buf, p);
  }

  lemma RestWhole(n: nat)
    ensures RestOfText(0) == [] && (n > 0 ==> RestOfText(n) == Text(n, 10, false))
  {}

  lemma ReversedNothing()
    ensures Reversed<Byte>([]) == []
  {}

  lemma TextOfDigit(n: nat)
    ensures n < 10 ==> Text(n, 10, false) == [n + ZERO]
    ensures n >= 10 ==> Text(n, 10, false) == Text(n / 10, 10, false) + [n % 10 + ZERO]
  {
    DigitsCanonical(n, 10);
    if n >= 10 {
      DigitsCanonical(n / 10, 10);
    }
  }

  /** The digits itoa has not written yet. */
  function RestOfText(n: nat): seq<Byte> { if n > 0 then Text(n, 10, false) else [] }

  /** The low digit moves from the rest to the end of what is written. */
  lemma ItoaStep(t: seq<Byte>, n: nat, written: seq<Byte>)
    requires n > 0 && t == RestOfText(n) + Reversed(written)
    ensures t == RestOfText(n / 10) + Reversed(written + [n % 10 + ZERO]) && |written| < |t|
  {
    hide Text, Reversed;
    TextOfDigit(n);
    var c := n % 10 + ZERO;
    ReversedPush(written, c);
    assert RestOfText(n) == RestOfText(n / 10) + [c];
  }

  lemma ReversedPush(written: seq<Byte>, c: Byte)
    ensures Reversed(written + [c]) == [c] + Reversed(written)
  {}

  lemma NoNul(n: nat, b: seq<Byte>)
    requires Text(n, 10, false) == Reversed(b)
    ensures forall i | 0 <= i < |b| :: b[i] != 0
  {
    assert forall i | 0 <= i < |b| :: b[i] == Reversed(b)[|b| - 1 - i];
  }
}
