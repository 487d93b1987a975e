/** The part of TASK_STRUCT that mm.c updates, and the operations on its virtual areas. */
module TaskStructs {
  import opened Basics
  import opened Frames
  import opened PageTables
  import opened Areas

  const E_OK := 0
  const E_NOMEM := -1
  const E_INVAL := -2

  /** The parts of TASK_STRUCT that mm.c uses. */
  class TaskStruct {
    var pgd: Word
    var vmaCount: nat
    var kernelPagesCount: nat
    const vmas: array<VmArea>
    const kernelPages: array<Word>
    const home: nat

    ghost predicate Valid()
      reads this
    {
      && vmas.Length == MAX_VMA_COUNT && kernelPages.Length == MAX_PROCESS_PAGES
      && vmaCount <= MAX_VMA_COUNT && kernelPagesCount <= MAX_PROCESS_PAGES
    }

    ghost function View(): Mm
      reads this, vmas, kernelPages
      requires Valid()
    {
      Mm(pgd, vmas[..vmaCount], kernelPages[..kernelPagesCount], home)
    }

    /** In the zeroed page `f`. */
    constructor (f: nat)
      ensures Valid() && View() == Mm(0, [], [], f) && fresh(vmas) && fresh(kernelPages)
    {
      pgd, vmaCount, kernelPagesCount := 0, 0, 0;
      vmas := new VmArea[MAX_VMA_COUNT](_ => VmArea(0, 0, 0));
      kernelPages := new Word[MAX_PROCESS_PAGES](_ => 0);
      home := f;
    }

    /** kernel_pages[kernel_pages_count++] = page */
    method Record(page: Word)
      requires Valid() && kernelPagesCount < MAX_PROCESS_PAGES
      modifies this`kernelPagesCount, kernelPages
      ensures Valid() && View() == old(View()).(kernelPages := old(View()).kernelPages + [page])
    {
      kernelPages[kernelPagesCount] := page;
      kernelPagesCount := kernelPagesCount + 1;
    }

    method VmaAdd(start: Word, end: Word, flags: nat) returns (code: int)
      requires Valid() && Good(View().vmas) && WellFormed(VmArea(start, end, flags))
      modifies this`vmaCount, vmas
      ensures Valid() && Good(View().vmas)
      ensures code == E_NOMEM <==> |old(View()).vmas| == MAX_VMA_COUNT
      ensures code == E_INVAL <==>
        |old(View()).vmas| < MAX_VMA_COUNT && Clashes(old(View()).vmas, VmArea(start, end, flags))
      ensures code == E_OK || code == E_NOMEM || code == E_INVAL
      ensures View() ==
        if code == E_OK then old(View()).(vmas := old(View()).vmas + [VmArea(start, end, flags)]) else old(View())
    {
      var a := VmArea(start, end, flags);
      ghost var v := View().vmas;
      if vmaCount >= MAX_VMA_COUNT {
        return E_NOMEM;
      }
      var i := 0;
      while i < vmaCount
        modifies {}
        invariant 0 <= i <= vmaCount
        invariant forall j | 0 <= j < i :: !Overlap(a, v[j])
      {
        OverlapMeans(a, v[i]);
        if start < vmas[i].end && end > vmas[i].start {
          return E_INVAL;
        }
        i := i + 1;
      }
      forall j | 0 <= j < |v| ensures Disjoint(a, v[j]) {
        OverlapMeans(a, v[j]);
      }
      AddKeepsGood(v, a);
      vmas[vmaCount] := a;
      vmaCount := vmaCount + 1;
      assert View().vmas == v + [a];
      code := E_OK;
    }

    /** The index of the area containing `addr`, or -1 (a null pointer in the source). */
    method VmaFind(addr: Word) returns (idx: int)
      requires Valid()
      ensures match Find(View().vmas, addr) case None => idx == -1 case Some(k) => idx == k
    {
      var i := 0;
      while i < vmaCount
        invariant 0 <= i <= vmaCount
        invariant forall j | 0 <= j < i :: !Contains(vmas[j], addr)
      {
        if vmas[i].start <= addr && addr < vmas[i].end {
          FindAt(View().vmas, addr, i);
          return i;
        }
        i := i + 1;
      }
      idx := -1;
    }

    method VmaRemove(start: Word)
      requires Valid() && Good(View().vmas)
      modifies this`vmaCount, vmas
      ensures Valid() && Good(View().vmas)
      ensures View() == old(View()).(vmas := Removed(old(View()).vmas, start))
    {
      ghost var v := View().vmas;
      assert Good(Removed(v, start)) by {
        RemovedIs(v, start);
      }
      hide Good;
      var idx := IndexOf(start);
      if idx == -1 {
        RemovedAt(v, start, |v|);
        return;
      }
      RemovedAt(v, start, idx);
      CloseGap(idx);
      vmaCount := vmaCount - 1;
      vmas[vmaCount] := VmArea(0, 0, 0);
      Closed(v, View().vmas, idx);
    }

    /** The first area starting at `start`, or -1. */
    method IndexOf(start: Word) returns (idx: int)
      requires Valid()
      ensures -1 <= idx < vmaCount
      ensures idx == -1 ==> forall j | 0 <= j < vmaCount :: vmas[j].start != start
      ensures idx != -1 ==> vmas[idx].start == start && forall j | 0 <= j < idx :: vmas[j].start != start
    {
      var i := 0;
      while i < vmaCount
        modifies {}
        invariant 0 <= i <= vmaCount && forall j | 0 <= j < i :: vmas[j].start != start
      {
        if vmas[i].start == start {
          return i;
        }
        i := i + 1;
      }
      idx := -1;
    }

    /** Moves the areas behind `idx` one slot down. */
    method CloseGap(idx: nat)
      requires Valid() && idx < vmaCount
      modifies vmas
      ensures forall j | 0 <= j < vmaCount - 1 :: vmas[j] == old(vmas[if j < idx then j else j + 1])
    {
      var i := idx;
      while i < vmaCount - 1
        invariant idx <= i <= vmaCount - 1
        invariant forall j | 0 <= j < i :: vmas[j] == old(vmas[if j < idx then j else j + 1])
        invariant forall j | i < j < vmaCount :: vmas[j] == old(vmas[j])
      {
        vmas[i] := vmas[i + 1];
        i := i + 1;
      }
    }
  }

  lemma Closed(v: seq<VmArea>, w: seq<VmArea>, idx: nat)
    requires idx < |v| == |w| + 1 && forall j | 0 <= j < |w| :: w[j] == v[if j < idx then j else j + 1]
    ensures w == v[..idx] + v[idx + 1..]
  {}

  lemma {:induction false} FindAt(v: seq<VmArea>, addr: Word, i: nat)
    requires i < |v| && Contains(v[i], addr) && forall j | 0 <= j < i :: !Contains(v[j], addr)
    ensures Find(v, addr) == Some(i)
  {
    if i > 0 {
      FindAt(v[1..], addr, i - 1);
    }
  }
}
