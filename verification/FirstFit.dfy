/** First fit: the leftmost run of clear places in a row of used and clear ones. */
module FirstFit {
  import opened Basics

  predicate ClearRun(v: seq<bool>, i: nat, n: nat) {
    i + n <= |v| && forall j | i <= j < i + n :: !v[j]
  }

  /** The leftmost run of `n` clear places from position `k` on. */
  function FirstClear(v: seq<bool>, n: nat, k: nat := 0): (r: Option<nat>)
    requires k <= |v|
    ensures r.Some? ==> ClearRun(v, r.value, n) && forall i: nat | k <= i < r.value :: !ClearRun(v, i, n)
    ensures r.None? ==> forall i: nat | k <= i :: !ClearRun(v, i, n)
    decreases |v| - k
  {
    if ClearRun(v, k, n) then Some(k) else if k == |v| then None else FirstClear(v, n, k + 1)
  }

  lemma FirstClearIs(v: seq<bool>, n: nat, i: nat)
    requires ClearRun(v, i, n) && forall k: nat | k < i :: !ClearRun(v, k, n)
    ensures FirstClear(v, n) == Some(i)
  {}

  // ---- the search loop, which counts the clear places that end at the one it looks at

  /** No run ends before place `i`, and the last `len` places before it are clear, but not one more. */
  predicate Searched(v: seq<bool>, n: int, i: nat, len: nat) {
    && len <= i <= |v| && (n > 0 ==> len < n)
    && ClearRun(v, i - len, len) && (i - len > 0 ==> v[i - len - 1])
    && (n > 0 ==> forall k: nat | k + n <= i :: !ClearRun(v, k, n))
  }

  lemma SearchStarts(v: seq<bool>, n: int)
    ensures Searched(v, n, 0, 0)
  {}

  lemma ClearPlace(v: seq<bool>, n: int, i: nat, len: nat)
    requires Searched(v, n, i, len) && i < |v| && !v[i]
    ensures len + 1 != n ==> Searched(v, n, i + 1, len + 1)
    ensures len + 1 == n ==> FirstClear(v, n) == Some(i - len)
  {
    if len + 1 == n {
      FirstClearIs(v, n, i - len);
    }
  }

  lemma UsedPlace(v: seq<bool>, n: int, i: nat, len: nat)
    requires Searched(v, n, i, len) && i < |v| && v[i]
    ensures Searched(v, n, i + 1, 0)
  {}

  lemma NoneFound(v: seq<bool>, n: int, len: nat)
    requires Searched(v, n, |v|, len) && n > 0
    ensures FirstClear(v, n) == None
  {}
}
