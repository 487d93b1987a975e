/** The string routines other components rely on. */
module Strings {
  import opened Basics

  /** Where strncmp stops: after `n` bytes, at the end of `a`, or at the first difference. */
  function StopAt(a: seq<Byte>, b: seq<Byte>, n: nat, i: nat): (k: nat)
    requires i <= n <= |a| && n <= |b|
    ensures i <= k <= n
    decreases n - i
  {
    if i == n || a[i] == 0 || a[i] != b[i] then i else StopAt(a, b, n, i + 1)
  }

  function Compare(a: seq<Byte>, b: seq<Byte>, n: nat): int
    requires n <= |a| && n <= |b|
  {
    var k := StopAt(a, b, n, 0);
    if k == n then 0 else a[k] as int - b[k] as int
  }

  method StrnCmp(a: seq<Byte>, b: seq<Byte>, n: nat) returns (r: int)
    requires n <= |a| && n <= |b|
    ensures r == Compare(a, b, n)
  {
    var i := 0;
    while i < n && a[i] != 0 && a[i] == b[i]
      invariant 0 <= i <= n && StopAt(a, b, n, 0) == StopAt(a, b, n, i)
    {
      i := i + 1;
    }
    r := if i == n then 0 else a[i] as int - b[i] as int;
  }

  lemma {:induction false} StopAtEqual(a: seq<Byte>, b: seq<Byte>, n: nat, i: nat)
    requires i <= n <= |a| && n <= |b| && forall j | 0 <= j < n :: b[j] != 0
    ensures StopAt(a, b, n, i) == n || a[StopAt(a, b, n, i)] != b[StopAt(a, b, n, i)]
    ensures forall j | i <= j < StopAt(a, b, n, i) :: a[j] == b[j]
    decreases n - i
  {
    if i < n && a[i] != 0 && a[i] == b[i] {
      StopAtEqual(a, b, n, i + 1);
    }
  }

  /** Against a key without NUL, strncmp is 0 exactly when all `n` bytes agree. */
  lemma CompareIsEquality(a: seq<Byte>, b: seq<Byte>, n: nat)
    requires n <= |a| && n <= |b| && forall j | 0 <= j < n :: b[j] != 0
    ensures Compare(a, b, n) == 0 <==> a[..n] == b[..n]
  {
    var k := StopAt(a, b, n, 0);
    StopAtEqual(a, b, n, 0);
    if a[..n] == b[..n] {
      assert forall j | 0 <= j < n :: a[..n][j] == a[j] && b[..n][j] == b[j];
    }
  }

  /** The strings agree before place `k`, and neither has ended. */
  predicate AgreeUpTo(a: seq<Byte>, b: seq<Byte>, k: nat) {
    k <= |a| && k <= |b| && forall j | 0 <= j < k :: a[j] == b[j] != 0
  }

  lemma {:induction false} StopIs(a: seq<Byte>, b: seq<Byte>, n: nat, i: nat, k: nat)
    requires i <= k <= n <= |a| && n <= |b| && AgreeUpTo(a, b, k) && (k < n ==> a[k] == 0 || a[k] != b[k])
    ensures StopAt(a, b, n, i) == k
    decreases k - i
  {
    if i < k {
      StopIs(a, b, n, i + 1, k);
    }
  }

  lemma {:induction false} AgreeToStop(a: seq<Byte>, b: seq<Byte>, n: nat, i: nat)
    requires i <= n <= |a| && n <= |b| && AgreeUpTo(a, b, i)
    ensures AgreeUpTo(a, b, StopAt(a, b, n, i))
    decreases n - i
  {
    if i < n && a[i] != 0 && a[i] == b[i] {
      AgreeToStop(a, b, n, i + 1);
    }
  }

  /** strncmp is the order of the dictionary on the first `n` bytes: it is negative iff at the first place where the
      strings differ, neither having ended before, the first one has the smaller byte, and the other way round. */
  lemma CompareOrders(a: seq<Byte>, b: seq<Byte>, n: nat)
    requires n <= |a| && n <= |b|
    ensures Compare(a, b, n) < 0 <==> exists k :: 0 <= k < n && AgreeUpTo(a, b, k) && a[k] < b[k]
    ensures Compare(a, b, n) > 0 <==> exists k :: 0 <= k < n && AgreeUpTo(a, b, k) && a[k] > b[k]
  {
    AgreeToStop(a, b, n, 0);
    forall k | 0 <= k < n && AgreeUpTo(a, b, k) && a[k] != b[k] ensures StopAt(a, b, n, 0) == k {
      StopIs(a, b, n, 0, k);
    }
  }
}
