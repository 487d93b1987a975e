/** Types and machine arithmetic that several components share. */
module Basics {
  datatype Option<+T> = None | Some(value: T)

  type Byte = b: nat | b < 256

  const U32 := 0x1_0000_0000
  const PAGE_SIZE := 4096

  /** Where the kernel sees physical address 0. */
  const VA_START := 0xffff_0000_0000_0000

  /** The value an `unsigned int` computation leaves. */
  function Wrap(x: int): (r: nat)
    ensures r < U32 && (0 <= x < U32 ==> r == x) && (-U32 <= x < 0 ==> r == x + U32)
    ensures (U32 <= x < 2 * U32 ==> r == x - U32)
  {
    x % U32
  }

  /** C's conversion of an unsigned to an int. */
  function AsInt(x: nat): int { if x < 0x8000_0000 then x else x - U32 }

  function Min(a: nat, b: nat): nat { if a < b then a else b }

  /** The bytes of a C string, its NUL not among them. */
  predicate IsString(s: seq<Byte>) { forall i | 0 <= i < |s| :: s[i] != 0 }

  /** The string that starts at `s`: what comes before the first NUL. */
  function CString(s: seq<Byte>): (r: seq<Byte>)
    ensures IsString(r) && r <= s && (|r| < |s| ==> s[|r|] == 0)
  {
    if s == [] || s[0] == 0 then [] else [s[0]] + CString(s[1..])
  }

  lemma CStringWhole(s: seq<Byte>)
    ensures IsString(s) ==> CString(s) == s
  {
    var r := CString(s);
    assert |r| < |s| ==> s[|r|] == 0;
  }

  lemma MulMono(m: nat, x: int, y: int)
    requires x <= y
    ensures m * x <= m * y
  {}
}
