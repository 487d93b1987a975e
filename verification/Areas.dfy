/** The list of virtual areas of one address space (vma_add, vma_find, vma_remove). */
module Areas {
  import opened Basics
  import opened Frames
  import opened PageTables
  import opened Mapping

  const MAX_VMA_COUNT := 16

  predicate Contains(a: VmArea, addr: int) { a.start <= addr < a.end }

  predicate Overlap(a: VmArea, b: VmArea) { a.start < b.end && a.end > b.start }

  predicate WellFormed(a: VmArea) {
    a.start < a.end && a.start % PAGE_SIZE == 0 && a.end % PAGE_SIZE == 0
  }

  /** Areas are non-empty, page-aligned and share no address. */
  ghost predicate Good(v: seq<VmArea>) {
    && |v| <= MAX_VMA_COUNT
    && (forall i | 0 <= i < |v| :: WellFormed(v[i]))
    && (forall i, j | 0 <= i < j < |v| :: Disjoint(v[i], v[j]))
  }

  ghost predicate Disjoint(a: VmArea, b: VmArea) {
    forall x :: !(Contains(a, x) && Contains(b, x))
  }

  /** Some area of the list shares an address with `a`. */
  ghost predicate Clashes(v: seq<VmArea>, a: VmArea) {
    exists i :: 0 <= i < |v| && !Disjoint(a, v[i])
  }

  /** The half-open test of vma_add is emptiness of the intersection. */
  lemma OverlapMeans(a: VmArea, b: VmArea)
    requires WellFormed(a) && WellFormed(b)
    ensures Overlap(a, b) <==> !Disjoint(a, b)
  {
    if Overlap(a, b) {
      var x := if a.start < b.start then b.start else a.start;
      assert Contains(a, x) && Contains(b, x);
    }
  }

  function Removed(v: seq<VmArea>, start: Word): (r: seq<VmArea>)
    ensures |r| <= |v|
  {
    if v == [] then [] else if v[0].start == start then v[1..] else [v[0]] + Removed(v[1..], start)
  }

  lemma AddKeepsGood(v: seq<VmArea>, a: VmArea)
    requires Good(v) && |v| < MAX_VMA_COUNT && WellFormed(a)
    ensures Good(v + [a]) <==> forall i | 0 <= i < |v| :: !Overlap(a, v[i])
  {
    var w := v + [a];
    forall i | 0 <= i < |v| ensures Overlap(a, v[i]) <==> !Disjoint(w[i], w[|v|]) {
      OverlapMeans(a, v[i]);
    }
    assert forall i | 0 <= i < |v| :: w[i] == v[i];
  }

  lemma {:induction false} RemovedAt(v: seq<VmArea>, start: Word, i: nat)
    requires i <= |v| && (forall k | 0 <= k < i :: v[k].start != start) && (i < |v| ==> v[i].start == start)
    ensures Removed(v, start) == if i < |v| then v[..i] + v[i + 1..] else v
  {
    if 0 < i {
      RemovedAt(v[1..], start, i - 1);
    }
  }

  /** vma_remove deletes exactly the area that starts at `start`, if any, and keeps the order of the rest. */
  lemma RemovedIs(v: seq<VmArea>, start: Word)
    requires Good(v)
    ensures Good(Removed(v, start))
    ensures (forall k | 0 <= k < |v| :: v[k].start != start) ==> Removed(v, start) == v
    ensures forall i | 0 <= i < |v| && v[i].start == start :: Removed(v, start) == v[..i] + v[i + 1..]
  {
    if i :| 0 <= i < |v| && v[i].start == start {
      forall k | 0 <= k < |v| && k != i ensures v[k].start != start {
        assert Contains(v[i], v[i].start) && Contains(v[k], v[k].start);
        assert if i < k then Disjoint(v[i], v[k]) else Disjoint(v[k], v[i]);
      }
      RemovedAt(v, start, i);
      DropGood(v, i);
    } else {
      RemovedAt(v, start, |v|);
    }
  }

  lemma DropGood(v: seq<VmArea>, i: nat)
    requires Good(v) && i < |v|
    ensures Good(v[..i] + v[i + 1..])
  {
    var r := v[..i] + v[i + 1..];
    assert forall a | 0 <= a < |r| :: r[a] == v[if a < i then a else a + 1];
  }

  lemma GoodTail(v: seq<VmArea>)
    requires Good(v) && v != []
    ensures Good(v[1..])
  {
    DropGood(v, 0);
    assert v[1..] == v[..0] + v[1..];
  }

  /** The first area containing an address; Good areas make it the only one. */
  function Find(v: seq<VmArea>, addr: Word): (r: Option<nat>)
    ensures r.Some? ==> r.value < |v| && Contains(v[r.value], addr)
    ensures r.None? <==> forall i | 0 <= i < |v| :: !Contains(v[i], addr)
  {
    if v == [] then None
    else if Contains(v[0], addr) then Some(0)
    else match Find(v[1..], addr)
      case None => None
      case Some(k) => Some(k + 1)
  }

  lemma FindUnique(v: seq<VmArea>, addr: Word, i: nat)
    requires Good(v) && i < |v| && Contains(v[i], addr)
    ensures Find(v, addr) == Some(i)
  {
    forall j | 0 <= j < |v| && j != i ensures !Contains(v[j], addr) {
      assert if i < j then Disjoint(v[i], v[j]) else Disjoint(v[j], v[i]);
    }
  }

  // ---- the pages of the areas, in the order copy_virt_memory visits them

  /** Every area ends at or below 2^48, the addresses the tables can tell apart. */
  predicate Low(v: seq<VmArea>) { forall i | 0 <= i < |v| :: v[i].end <= VA_LIMIT }

  function AreaPages(from: Word, end: Word): (r: seq<Word>)
    requires end <= VA_LIMIT
    decreases if from < end then end - from else 0
  {
    if from >= end then [] else [from] + AreaPages(from + PAGE_SIZE, end)
  }

  function AllPages(v: seq<VmArea>): seq<Word>
    requires Low(v)
  {
    if v == [] then [] else AreaPages(v[0].start, v[0].end) + AllPages(v[1..])
  }

  lemma {:induction false} AreaPagesAre(from: Word, end: Word)
    requires end <= VA_LIMIT && from % PAGE_SIZE == 0
    ensures forall x: Word :: x in AreaPages(from, end) <==> x % PAGE_SIZE == 0 && from <= x < end
    ensures DistinctPages(AreaPages(from, end))
    decreases if from < end then end - from else 0
  {
    if from < end {
      AreaPagesAre(from + PAGE_SIZE, end);
      var r := AreaPages(from + PAGE_SIZE, end);
      forall j | 0 <= j < |r| ensures Vpn(r[j]) != Vpn(from) {
        assert r[j] in r;
        PageVpn(r[j], from);
      }
    }
  }

  ghost predicate DistinctPages(vas: seq<Word>) {
    forall i, j | 0 <= i < j < |vas| :: Vpn(vas[i]) != Vpn(vas[j])
  }

  lemma PageVpn(x: Word, y: Word)
    requires x % PAGE_SIZE == 0 && y % PAGE_SIZE == 0 && x < VA_LIMIT && y < VA_LIMIT
    ensures Vpn(x) == Vpn(y) <==> x == y
  {}

  lemma {:induction false} AllPagesAre(v: seq<VmArea>)
    requires Low(v) && Good(v)
    ensures forall x: Word :: x in AllPages(v) <==> x % PAGE_SIZE == 0 && Find(v, x).Some?
    ensures DistinctPages(AllPages(v))
  {
    if v != [] {
      GoodTail(v);
      AllPagesAre(v[1..]);
      AreaPagesAre(v[0].start, v[0].end);
      var a, b := AreaPages(v[0].start, v[0].end), AllPages(v[1..]);
      forall i, j | 0 <= i < |a| && 0 <= j < |b| ensures Vpn(a[i]) != Vpn(b[j]) {
        assert a[i] in a && b[j] in b;
        var k := Find(v[1..], b[j]).value;
        assert v[1..][k] == v[k + 1] && Contains(v[k + 1], b[j]);
        PageVpn(a[i], b[j]);
      }
    }
  }
}
