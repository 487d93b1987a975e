/** mm.c as it runs: descriptors, frames and task records updated in place. */
module MemoryManager {
  import opened Basics
  import opened Bits
  import opened FirstFit
  import opened Frames
  import opened PageTables
  import opened Mapping
  import opened MemoryRuns
  import opened Census

  const PAGE_MASK := 0xffff_ffff_ffff_f000

  // ---- the bit operations mean the arithmetic of the specification

  lemma Powers()
    ensures Pow2(6) == 64 && Pow2(9) == 512 && Pow2(12) == 4096
    ensures Pow2(21) == 0x20_0000 && Pow2(30) == 0x4000_0000 && Pow2(39) == 0x80_0000_0000
  {}

  lemma Pow2Double(j: nat, x: nat)
    requires Pow2(j) == x
    ensures Pow2(j + j) == x * x
  {
    Pow2Add(j, j);
  }

  lemma BytePower()
    ensures Pow2(8) == 0x100
  {}

  lemma WordPower(j: nat)
    requires j == 8
    ensures Pow2(8 * j) == WORD_LIMIT
  {
    hide Pow2;
    BytePower();
    Pow2Double(j, 0x100);
    Pow2Double(2 * j, 0x1_0000);
    Pow2Double(4 * j, 0x1_0000_0000);
  }

  function Shift(level: nat): nat {
    if level == 0 then 39 else if level == 1 then 30 else if level == 2 then 21 else 12
  }

  lemma IndexBits(va: Word, level: nat)
    requires level < LEVELS
    ensures And(Shr(va, Shift(level)), PTRS_PER_TABLE - 1) == Index(va, level)
  {
    Powers();
    ShrIsDiv(va, Shift(level));
    AndLowMask(Shr(va, Shift(level)), 9);
  }

  lemma MaskBits(w: Word)
    ensures And(w, PAGE_MASK) == w - w % PAGE_SIZE
  {
    Powers();
    var j: nat :| j == 8;
    WordPower(j);
    AndHighMask(w, 12, 8 * j);
  }

  lemma OrBits(g: nat, flags: nat)
    requires flags < PAGE_SIZE
    ensures Or(Pa(g), flags) == Pa(g) + flags
  {
    Powers();
    OrLow(Pa(g), flags, 12);
  }

  // ---- frames

  /** Physical memory: one descriptor and one page of words per frame. */
  class PhysicalMemory {
    const memMap: array<Desc>
    const frames: array<Page>

    ghost predicate Valid()
      reads this
    {
      memMap.Length == frames.Length && LOW_MEMORY + frames.Length * PAGE_SIZE <= VA_LIMIT
      && memMap as object != frames as object
    }

    ghost function View(): (m: Memory)
      reads this, memMap, frames
      requires Valid()
      ensures Sized(m)
    {
      Memory(memMap[..], frames[..])
    }

    constructor (n: nat)
      requires LOW_MEMORY + n * PAGE_SIZE <= VA_LIMIT
      ensures Valid() && fresh(memMap) && fresh(frames) && |View().descs| == n
      ensures forall f | 0 <= f < n :: View().descs[f].flag == Free
    {
      memMap := new Desc[n](_ => Desc(Free, 0, 0));
      frames := new Page[n](_ => ZeroPage());
    }

    /** The leftmost free frame becomes a zeroed kernel frame; 0 when there is none. */
    method GetFreePage() returns (page: Word)
      requires Valid()
      modifies memMap, frames
      ensures Valid()
      ensures var g := FirstFree(old(View()).descs);
        if g == |old(View()).descs| then page == 0 && View() == old(View())
        else page == Pa(g) && page != 0 && View() == Claimed(old(View()), g, Kernel)
    {
      var i := 0;
      while i < memMap.Length
        invariant 0 <= i <= memMap.Length && View() == old(View())
        invariant forall j | 0 <= j < i :: memMap[j].flag != Free
      {
        if memMap[i].flag == Free {
          FirstFreeIs(memMap[..], i);
          memMap[i] := Desc(Kernel, 1, -1);
          frames[i] := ZeroPage();
          page := LOW_MEMORY + i * PAGE_SIZE;
          return;
        }
        i := i + 1;
      }
      FirstFreeIs(memMap[..], i);
      page := 0;
    }

    /** The leftmost run of `n` free frames is claimed and zeroed; 0 when there is none, or when n <= 0. */
    method GetFreePages(n: int) returns (base: Word)
      requires Valid()
      modifies memMap, frames
      ensures Valid()
      ensures n <= 0 ==> base == 0 && View() == old(View())
      ensures n > 0 ==> match FirstRun(old(View()).descs, n)
        case None => base == 0 && View() == old(View())
        case Some(i) => base == Pa(i) && View() == ClaimRun(old(View()), i, n)
    {
      hide Searched, ClearRun, FirstClear, Used;
      ghost var v := Used(memMap[..]);
      SearchStarts(v, n);
      var runStart, runLen := 0, 0;
      var i := 0;
      while i < memMap.Length
        invariant 0 <= i <= memMap.Length && 0 <= runLen && Searched(v, n, i, runLen) && View() == old(View())
        invariant runLen > 0 ==> runStart == i - runLen
      {
        if memMap[i].flag == Free {
          ClearPlace(v, n, i, runLen);
          if runLen == 0 {
            runStart := i;
          }
          runLen := runLen + 1;
          if runLen == n {
            Claim(runStart, n);
            base := LOW_MEMORY + runStart * PAGE_SIZE;
            return;
          }
        } else {
          UsedPlace(v, n, i, runLen);
          runLen := 0;
        }
        i := i + 1;
      }
      if n > 0 {
        NoneFound(v, n, runLen);
      }
      base := 0;
    }

    /** Marks `n` frames from `start` on as kernel frames, then zeroes them. */
    method Claim(start: nat, n: nat)
      requires Valid() && start + n <= memMap.Length
      modifies memMap, frames
      ensures Valid() && View() == ClaimRun(old(View()), start, n)
    {
      var j := start;
      while j < start + n
        modifies memMap
        invariant start <= j <= start + n && Valid()
        invariant forall k | 0 <= k < memMap.Length ::
          memMap[k] == if start <= k < j then Desc(Kernel, 1, -1) else old(memMap[k])
      {
        memMap[j] := Desc(Kernel, 1, -1);
        j := j + 1;
      }
      j := 0;
      while j < n
        modifies frames
        invariant 0 <= j <= n && Valid()
        invariant forall k | 0 <= k < frames.Length ::
          frames[k] == if start <= k < start + j then ZeroPage() else old(frames[k])
      {
        frames[start + j] := ZeroPage();
        j := j + 1;
      }
      ClaimRunIs(old(View()), start, n, View());
    }

    method FreePage(p: Word)
      requires Valid() && LOW_MEMORY <= p && (p - LOW_MEMORY) / PAGE_SIZE < memMap.Length
      modifies memMap
      ensures Valid()
      ensures View() == old(View()).(descs := old(View()).descs[(p - LOW_MEMORY) / PAGE_SIZE := Desc(Free, 0, -1)])
    {
      memMap[(p - LOW_MEMORY) / PAGE_SIZE] := Desc(Free, 0, -1);
    }

    /** The counts of get_mem_stats. */
    method GetMemStats() returns (total: nat, kernel: nat, user: nat, pagetable: nat, used: nat, free: int)
      requires Valid()
      ensures total == |View().descs| && kernel == CountFlag(View().descs, Kernel)
      ensures user == CountFlag(View().descs, User) && pagetable == CountFlag(View().descs, PageTable)
      ensures used == kernel + user + pagetable && free == CountFlag(View().descs, Free)
    {
      total := memMap.Length;
      kernel, user, pagetable := 0, 0, 0;
      var i := 0;
      while i < memMap.Length
        modifies {}
        invariant 0 <= i <= memMap.Length
        invariant kernel == CountFlag(memMap[..i], Kernel) && user == CountFlag(memMap[..i], User)
        invariant pagetable == CountFlag(memMap[..i], PageTable)
      {
        assert memMap[..i + 1][..i] == memMap[..i];
        match memMap[i].flag {
          case Kernel => kernel := kernel + 1;
          case User => user := user + 1;
          case PageTable => pagetable := pagetable + 1;
          case Free =>
        }
        i := i + 1;
      }
      assert memMap[..i] == memMap[..];
      used := kernel + user + pagetable;
      free := total - used;
      CountsAddUp(memMap[..]);
    }
  }
}
