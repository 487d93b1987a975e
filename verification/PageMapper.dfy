/** map_page, pt_walk, copy_virt_memory and do_mem_abort, run on physical memory and one or two task records. */
module PageMapper {
  import opened Basics
  import opened Bits
  import opened Frames
  import opened PageTables
  import opened Mapping
  import opened Areas
  import opened TaskStructs
  import opened Fork
  import opened ForkTheorems
  import opened MemoryRuns
  import opened MemoryManager

  /** FRAME_IDX */
  function FrameIdx(pa: Word): nat
    requires LOW_MEMORY <= pa
  {
    (pa - LOW_MEMORY) / PAGE_SIZE
  }

  // ---- the state on the way down to a page

  /** What holds at a table: it is there, its entries are well-formed, and there is room for one more. */
  ghost predicate TableReady(s: System, p: Path, i: nat)
    requires Sized(s.mem) && Task(p) < |s.mms|
  {
    Node(s, p).Some? && i < PTRS_PER_TABLE &&
    var w := s.mem.frames[Node(s, p).value][i];
    (w == 0 || IsEntry(w, Level(p), |s.mem.frames|))
    && (w == 0 && Level(p) < 3 ==>
          FirstFree(s.mem.descs) < |s.mem.descs| && |s.mms[Task(p)].kernelPages| < MAX_PROCESS_PAGES)
  }

  ghost predicate MapReady(s: System, t: nat, va: Word) {
    Sized(s.mem) && IsForest(s) && t < |s.mms| && FreeCount(s) >= Missing(s, PathTo(t, va, 3))
    && |s.mms[t].kernelPages| + Missing(s, PathTo(t, va, 3)) <= MAX_PROCESS_PAGES
  }

  /** The system once the tables down to level `l` exist. */
  function Down(s: System, t: nat, va: Word, l: nat): (s': System)
    requires Sized(s.mem) && t < |s.mms| && l <= 3
    ensures Sized(s'.mem) && |s'.mms| == |s.mms|
  {
    EnsurePath(s, PathTo(t, va, l))
  }

  lemma DownStep(s: System, t: nat, va: Word, l: nat)
    requires Sized(s.mem) && t < |s.mms| && l < 3
    ensures Down(s, t, va, l + 1) == EnsureTable(Down(s, t, va, l), PathTo(t, va, l), Index(va, l))
  {}

  lemma RootReady(s: System, t: nat, va: Word)
    requires MapReady(s, t, va)
    ensures s.mms[t].pgd == 0 ==> FirstFree(s.mem.descs) < |s.mem.descs| && |s.mms[t].kernelPages| < MAX_PROCESS_PAGES
  {
    var own :| Forest(s, own);
    if s.mms[t].pgd == 0 {
      NoPgd(s, Root(t));
      MissingMono(s, t, va, 3);
      CountPositive(s.mem.descs, Free);
      FreeExists(s.mem.descs);
    }
  }

  lemma {:induction false} MissingMono(s: System, t: nat, va: Word, l: nat)
    ensures Missing(s, PathTo(t, va, l)) >= Missing(s, Root(t))
    ensures l > 0 ==> Missing(s, PathTo(t, va, l)) >= Missing(s, PathTo(t, va, l - 1))
  {
    if l > 0 {
      MissingMono(s, t, va, l - 1);
    }
  }

  lemma MissingBelow(s: System, t: nat, va: Word, l: nat)
    requires l <= 3
    ensures Missing(s, PathTo(t, va, l)) <= Missing(s, PathTo(t, va, 3))
    ensures l < 3 && Node(s, PathTo(t, va, l + 1)).None? ==>
      1 + Missing(s, PathTo(t, va, l)) <= Missing(s, PathTo(t, va, 3))
  {
    MissingMono(s, t, va, 3);
    MissingMono(s, t, va, 2);
    MissingMono(s, t, va, 1);
  }

  lemma Ready(s: System, t: nat, va: Word, l: nat)
    requires MapReady(s, t, va) && l <= 3
    ensures TableReady(Down(s, t, va, l), PathTo(t, va, l), Index(va, l)) && IsForest(Down(s, t, va, l))
  {
    var own :| Forest(s, own);
    MissingBelow(s, t, va, l);
    assert FreeCount(s) >= Missing(s, PathTo(t, va, l)) && Down(s, t, va, l) == EnsurePath(s, PathTo(t, va, l));
    assert Sized(s.mem) && t < |s.mms| && |s.mms[t].kernelPages| + Missing(s, PathTo(t, va, 3)) <= MAX_PROCESS_PAGES;
    assert l < 3 ==> PathTo(t, va, l + 1) == Step(PathTo(t, va, l), Index(va, l));
    hide *;
    var own' := PathStep(s, own, PathTo(t, va, l));
    ReadyAt(s, own, t, va, l, Down(s, t, va, l), own', PathTo(t, va, l));
  }

  lemma ReadyAt(s: System, own: map<nat, Path>, t: nat, va: Word, l: nat, s': System, own': map<nat, Path>, p: Path)
    requires l <= 3 && p == PathTo(t, va, l) && Sized(s.mem) && Reached(s, own, s', own', p, Missing(s, p))
    requires MapReady(s, t, va)
    ensures t < |s'.mms| && TableReady(s', p, Index(va, l)) && IsForest(s')
  {
    MissingBelow(s, t, va, l);
    EntryReady(s', own', p, Index(va, l));
    if l < 3 && s'.mem.frames[Node(s', p).value][Index(va, l)] == 0 {
      EmptyBelow(s, s', t, va, l);
      FreeExists(s'.mem.descs);
    }
  }

  lemma EmptyBelow(s: System, s': System, t: nat, va: Word, l: nat)
    requires l < 3 && Extends(s, s', PathTo(t, va, l)) && Node(s', PathTo(t, va, l)).Some?
    requires s'.mem.frames[Node(s', PathTo(t, va, l)).value][Index(va, l)] == 0
    ensures Node(s, PathTo(t, va, l + 1)).None?
  {
    var p, q := PathTo(t, va, l), PathTo(t, va, l + 1);
    assert q == Step(p, Index(va, l)) && Node(s', q).None?;
    NotPrefix(q, p);
  }

  lemma EntryReady(s: System, own: map<nat, Path>, p: Path, i: nat)
    requires Forest(s, own) && Level(p) < LEVELS && Node(s, p).Some? && i < PTRS_PER_TABLE
    ensures var w := s.mem.frames[Node(s, p).value][i]; w == 0 || IsEntry(w, Level(p), |s.mem.frames|)
  {
    assert own[Node(s, p).value] == p;
  }

  lemma RootDecodes(s: System, t: nat)
    requires IsForest(s) && t < |s.mms| && s.mms[t].pgd != 0
    ensures Node(s, Root(t)).Some? && s.mms[t].pgd == Pa(Node(s, Root(t)).value)
  {
    var own :| Forest(s, own);
    assert ListedFor(s.mms[t], t, own, |s.mem.frames|);
    assert TableOf(s.mms[t].kernelPages[0], t, own, |s.mem.frames|);
  }

  /** Masking the flags of an entry leaves the address of the frame it points at. */
  lemma MaskEntry(w: Word, level: nat, n: nat)
    requires IsEntry(w, level, n)
    ensures And(w, PAGE_MASK) == Pa(Decode(w, n).value) < WORD_LIMIT
  {
    assert w - w % PAGE_SIZE == Pa(Decode(w, n).value) < WORD_LIMIT;
    hide *;
    MaskBits(w);
  }

  // ---- the methods

  /** The system seen by an operation on task `t`; the other tasks' records are `mms`. */
  ghost function Sys(pm: PhysicalMemory, mms: seq<Mm>, t: nat, task: TaskStruct): (s: System)
    reads pm, pm.memMap, pm.frames, task, task.vmas, task.kernelPages
    requires pm.Valid() && task.Valid() && t < |mms|
    ensures Sized(s.mem) && |s.mms| == |mms|
  {
    System(pm.View(), mms[t := task.View()])
  }

  ghost predicate Apart(pm: PhysicalMemory, task: TaskStruct) {
    pm.frames as object != task.kernelPages as object && pm.memMap as object != task.kernelPages as object
    && pm.frames as object != task.vmas as object && pm.memMap as object != task.vmas as object
    && task.vmas as object != task.kernelPages as object
  }

  method MapTableEntry(pm: PhysicalMemory, pte: Word, va: Word, pa: Word, ghost f: nat, ghost g: nat)
    requires pm.Valid() && f < pm.frames.Length && pte == Pa(f) && g < pm.frames.Length && pa == Pa(g)
    modifies pm.frames
    ensures pm.View() == old(pm.View()).(frames := Linked(old(pm.View()).frames, f, Index(va, 3), g, 3))
  {
    var index := And(Shr(va, Shift(3)), PTRS_PER_TABLE - 1);
    IndexBits(va, 3);
    var entry := Or(pa, PTE_FLAGS);
    OrBits(g, PTE_FLAGS);
    DecodeEntry(g, 3, pm.frames.Length);
    ghost var before := pm.frames[..];
    pm.frames[FrameIdx(pte)] := pm.frames[FrameIdx(pte)][index := entry];
    assert pm.frames[..] == Linked(before, f, Index(va, 3), g, 3);
  }

  /** The next table below entry `index` of a table, allocated when the entry is empty. */
  method MapTable(pm: PhysicalMemory, table: Word, level: nat, va: Word, ghost f: nat)
      returns (next: Word, newTable: bool)
    requires pm.Valid() && level < 3 && f < pm.frames.Length && table == Pa(f)
    requires var w := pm.frames[f][Index(va, level)];
      (w == 0 || IsEntry(w, level, pm.frames.Length)) && (w == 0 ==> FirstFree(pm.memMap[..]) < pm.memMap.Length)
    modifies pm.memMap, pm.frames
    ensures var m := old(pm.View()); var w := m.frames[f][Index(va, level)]; var g := FirstFree(m.descs);
      newTable == (w == 0) &&
      if w == 0 then
        next == Pa(g) && Entry(g, level) < WORD_LIMIT
        && pm.View() == Memory(m.descs[g := Desc(PageTable, 1, -1)], Linked(m.frames, f, Index(va, level), g, level))
      else Some(next) == PaOf(Decode(w, |m.frames|)) && pm.View() == m
  {
    var index := And(Shr(va, Shift(level)), PTRS_PER_TABLE - 1);
    IndexBits(va, level);
    var word := pm.frames[FrameIdx(table)][index];
    if word == 0 {
      newTable := true;
      ghost var m, g := pm.View(), FirstFree(pm.memMap[..]);
      DecodeEntry(g, level, pm.frames.Length);
      next := pm.GetFreePage();
      pm.memMap[FrameIdx(next)] := pm.memMap[FrameIdx(next)].(flag := PageTable);
      OrBits(g, TABLE_FLAGS);
      pm.frames[FrameIdx(table)] := pm.frames[FrameIdx(table)][index := Or(next, TABLE_FLAGS)];
      assert pm.memMap[..] == m.descs[g := Desc(PageTable, 1, -1)];
      assert pm.frames[..] == Linked(m.frames, f, index, g, level);
    } else {
      newTable := false;
      MaskEntry(word, level, pm.frames.Length);
      next := And(word, PAGE_MASK);
    }
  }

  function PaOf(f: Option<nat>): Option<nat> {
    match f case None => None case Some(g) => Some(Pa(g))
  }

  lemma DescendNew(s: System, p: Path, f: nat, i: nat, g: nat)
    requires IsForest(s) && Sized(s.mem) && Task(p) < |s.mms| && Level(p) < 3 && TableReady(s, p, i)
    requires Node(s, p) == Some(f) && s.mem.frames[f][i] == 0 && g == FirstFree(s.mem.descs)
    ensures EnsureTable(s, p, i) == LinkTable(s, p, f, i, g)
    ensures Node(EnsureTable(s, p, i), Step(p, i)) == Some(g)
  {
    var own :| Forest(s, own);
    FreeOutside(s, own, g);
    DecodeEntry(g, Level(p), |s.mem.frames|);
    LinkTableMoves(s, own, p, f, i, g);
  }

  lemma FreeOutside(s: System, own: map<nat, Path>, g: nat)
    requires Sized(s.mem) && Flagged(s, own) && g < |s.mem.descs| && s.mem.descs[g].flag == Free
    ensures g !in own
  {}

  lemma LinkTableMoves(s: System, own: map<nat, Path>, p: Path, f: nat, i: nat, g: nat)
    requires Labelled(s, own) && Sized(s.mem) && Task(p) < |s.mms| && Level(p) < 3 && i < PTRS_PER_TABLE
    requires g < |s.mem.frames|
    requires g !in own && Node(s, p) == Some(f) && s.mem.frames[f][i] == 0 && Entry(g, Level(p)) < WORD_LIMIT
    ensures Node(LinkTable(s, p, f, i, g), Step(p, i)) == Some(g)
  {
    LinkedMoves(s, own, p, f, i, g, LinkTable(s, p, f, i, g));
  }

  lemma DescendOld(s: System, p: Path, f: nat, i: nat)
    requires Sized(s.mem) && Task(p) < |s.mms| && Level(p) < 3 && TableReady(s, p, i)
    requires Node(s, p) == Some(f) && s.mem.frames[f][i] != 0
    ensures EnsureTable(s, p, i) == s && Node(s, Step(p, i)) == Decode(s.mem.frames[f][i], |s.mem.frames|)
  {}

  /** map_table, and the record in kernel_pages when the table is new. */
  method Descend(pm: PhysicalMemory, task: TaskStruct, table: Word, level: nat, va: Word, ghost mms: seq<Mm>,
      ghost p: Path)
      returns (next: Word)
    requires pm.Valid() && task.Valid() && Apart(pm, task) && Task(p) < |mms| && Level(p) == level < 3
    requires var s := Sys(pm, mms, Task(p), task);
      IsForest(s) && TableReady(s, p, Index(va, level)) && table == Pa(Node(s, p).value)
    modifies pm.memMap, pm.frames, task`kernelPagesCount, task.kernelPages
    ensures pm.Valid() && task.Valid()
    ensures Sys(pm, mms, Task(p), task) == EnsureTable(old(Sys(pm, mms, Task(p), task)), p, Index(va, level))
    ensures PaOf(Node(Sys(pm, mms, Task(p), task), Step(p, Index(va, level)))) == Some(next)
  {
    ghost var s := Sys(pm, mms, Task(p), task);
    ghost var f, i := Node(s, p).value, Index(va, level);
    ghost var mm, m := task.View(), pm.View();
    assert s == System(m, mms[Task(p) := mm]);
    var newTable: bool;
    next, newTable := MapTable(pm, table, level, va, f);
    if newTable {
      DescendNew(s, p, f, i, FirstFree(m.descs));
      task.Record(next);
      hide TableReady, EnsureTable, IsForest, Node;
      LinkTableIs(s, p, f, i, FirstFree(m.descs), m, mm, mms);
    } else {
      DescendOld(s, p, f, i);
    }
  }

  lemma LinkTableIs(s: System, p: Path, f: nat, i: nat, g: nat, m: Memory, mm: Mm, mms: seq<Mm>)
    requires Sized(m) && Task(p) < |mms| && s == System(m, mms[Task(p) := mm])
    requires Level(p) < 3 && f < |m.frames| && i < PTRS_PER_TABLE && g < |m.frames|
    ensures Entry(g, Level(p)) < WORD_LIMIT && Pa(g) < WORD_LIMIT
    ensures LinkTable(s, p, f, i, g) ==
      System(Memory(m.descs[g := Desc(PageTable, 1, -1)], Linked(m.frames, f, i, g, Level(p))),
        mms[Task(p) := mm.(kernelPages := mm.kernelPages + [Pa(g)])])
  {
    DecodeEntry(g, Level(p), |m.frames|);
  }

  lemma RootIs(s: System, t: nat, va: Word, g: nat, m: Memory, mm: Mm, mms: seq<Mm>)
    requires Sized(m) && t < |mms| && s == System(m, mms[t := mm])
    requires mm.pgd == 0 && g == FirstFree(m.descs) && g < |m.descs|
    ensures Pa(g) < WORD_LIMIT
    ensures Down(s, t, va, 0) == System(Claimed(m, g, Kernel), mms[t := RootMm(mm, g)])
  {
    DecodeEntry(g, 0, |m.frames|);
  }

  lemma RootThere(s: System, t: nat, va: Word)
    requires Sized(s.mem) && t < |s.mms| && s.mms[t].pgd != 0
    ensures Down(s, t, va, 0) == s
  {}

  lemma RootLeads(s: System, t: nat, va: Word)
    requires MapReady(s, t, va)
    ensures PaOf(Node(Down(s, t, va, 0), PathTo(t, va, 0))) == Some(Down(s, t, va, 0).mms[t].pgd)
  {
    Ready(s, t, va, 0);
    var s' := Down(s, t, va, 0);
    NoPgdRoot(s', t);
    RootDecodes(s', t);
  }

  lemma NoPgdRoot(s: System, t: nat)
    requires t < |s.mms| && Node(s, Root(t)).Some?
    ensures s.mms[t].pgd != 0
  {}

  lemma LeafIs(s: System, t: nat, va: Word, g: nat, f: nat)
    requires Sized(s.mem) && t < |s.mms| && g < |s.mem.frames| && |Down(s, t, va, 3).mem.frames| == |s.mem.frames|
    requires Node(Down(s, t, va, 3), PathTo(t, va, 3)) == Some(f)
    ensures Entry(g, 3) < WORD_LIMIT && f < |s.mem.frames|
    ensures var s3 := Down(s, t, va, 3);
      MapPage(s, t, va, g) == s3.(mem := s3.mem.(frames := Linked(s3.mem.frames, f, Index(va, 3), g, 3)))
  {
    DecodeEntry(g, 3, |s.mem.frames|);
  }

  ghost predicate AtLevel(s0: System, s: System, t: nat, va: Word, level: nat, table: Word) {
    && MapReady(s0, t, va) && level <= 3 && s == Down(s0, t, va, level)
    && PaOf(Node(s, PathTo(t, va, level))) == Some(table)
  }

  lemma AtReady(s0: System, s: System, t: nat, va: Word, level: nat, table: Word)
    requires AtLevel(s0, s, t, va, level, table) && level < 3
    ensures Sized(s.mem) && t < |s.mms| && IsForest(s)
    ensures TableReady(s, PathTo(t, va, level), Index(va, level)) && table == Pa(Node(s, PathTo(t, va, level)).value)
    ensures Down(s0, t, va, level + 1) == EnsureTable(s, PathTo(t, va, level), Index(va, level))
    ensures PathTo(t, va, level + 1) == Step(PathTo(t, va, level), Index(va, level))
  {
    Ready(s0, t, va, level);
    DownStep(s0, t, va, level);
  }

  method DescendTo(pm: PhysicalMemory, task: TaskStruct, table: Word, level: nat, va: Word,
      ghost s0: System, ghost mms: seq<Mm>, ghost t: nat) returns (next: Word)
    requires pm.Valid() && task.Valid() && Apart(pm, task) && t < |mms| && level < 3
    requires AtLevel(s0, Sys(pm, mms, t, task), t, va, level, table)
    modifies pm.memMap, pm.frames, task`kernelPagesCount, task.kernelPages
    ensures pm.Valid() && task.Valid() && AtLevel(s0, Sys(pm, mms, t, task), t, va, level + 1, next)
  {
    AtReady(s0, Sys(pm, mms, t, task), t, va, level, table);
    hide TableReady, IsForest, EnsureTable, Node, Down, MapReady;
    next := Descend(pm, task, table, level, va, mms, PathTo(t, va, level));
  }

  method Map(pm: PhysicalMemory, task: TaskStruct, va: Word, page: Word, ghost mms: seq<Mm>, ghost t: nat, ghost g: nat)
    requires pm.Valid() && task.Valid() && Apart(pm, task) && t < |mms|
    requires MapReady(Sys(pm, mms, t, task), t, va) && g < pm.frames.Length && page == Pa(g)
    modifies pm.memMap, pm.frames, task`pgd, task`kernelPagesCount, task.kernelPages
    ensures pm.Valid() && task.Valid()
    ensures Sys(pm, mms, t, task) == MapPage(old(Sys(pm, mms, t, task)), t, va, g)
  {
    ghost var s := Sys(pm, mms, t, task);
    EnsurePgd(pm, task, va, mms, t);
    var pgd := task.pgd;
    RootLeads(s, t, va);
    assert AtLevel(s, Sys(pm, mms, t, task), t, va, 0, pgd);
    hide AtLevel, MapPage, Down, PathTo, Linked, MapReady;
    var pud := DescendTo(pm, task, pgd, 0, va, s, mms, t);
    var pmd := DescendTo(pm, task, pud, 1, va, s, mms, t);
    var pte := DescendTo(pm, task, pmd, 2, va, s, mms, t);
    AtLeaf(s, Sys(pm, mms, t, task), t, va, g, pte);
    ghost var f := Node(Sys(pm, mms, t, task), PathTo(t, va, 3)).value;
    MapTableEntry(pm, pte, va, page, f, g);
  }

  lemma AtLeaf(s: System, s3: System, t: nat, va: Word, g: nat, pte: Word)
    requires AtLevel(s, s3, t, va, 3, pte) && g < |s3.mem.frames|
    ensures Sized(s.mem) && t < |s.mms| && g < |s.mem.frames| && Sized(s3.mem)
    ensures var f := Node(s3, PathTo(t, va, 3));
      f.Some? && pte == Pa(f.value) && Entry(g, 3) < WORD_LIMIT
      && MapPage(s, t, va, g) == s3.(mem := s3.mem.(frames := Linked(s3.mem.frames, f.value, Index(va, 3), g, 3)))
  {
    DownSize(s, PathTo(t, va, 3));
    LeafIs(s, t, va, g, Node(s3, PathTo(t, va, 3)).value);
  }

  lemma {:induction false} DownSize(s: System, p: Path)
    requires Sized(s.mem) && Task(p) < |s.mms| && Level(p) <= 3
    ensures |EnsurePath(s, p).mem.frames| == |s.mem.frames|
  {
    if p.Step? {
      DownSize(s, p.up);
    }
  }

  method EnsurePgd(pm: PhysicalMemory, task: TaskStruct, va: Word, ghost mms: seq<Mm>, ghost t: nat)
    requires pm.Valid() && task.Valid() && Apart(pm, task) && t < |mms| && MapReady(Sys(pm, mms, t, task), t, va)
    modifies pm.memMap, pm.frames, task`pgd, task`kernelPagesCount, task.kernelPages
    ensures pm.Valid() && task.Valid()
    ensures Sys(pm, mms, t, task) == Down(old(Sys(pm, mms, t, task)), t, va, 0)
  {
    ghost var s, m, mm := Sys(pm, mms, t, task), pm.View(), task.View();
    RootReady(s, t, va);
    if task.pgd == 0 {
      RootIs(s, t, va, FirstFree(m.descs), m, mm, mms);
      task.pgd := pm.GetFreePage();
      task.Record(task.pgd);
    } else {
      RootThere(s, t, va);
    }
  }

  // ---- pt_walk

  lemma EntryLeads(s: System, p: Path, i: nat)
    requires IsForest(s) && Level(p) < LEVELS && Node(s, p).Some? && i < PTRS_PER_TABLE
    ensures var w := s.mem.frames[Node(s, p).value][i];
      if w == 0 then Node(s, Step(p, i)).None?
      else IsEntry(w, Level(p), |s.mem.frames|) && Node(s, Step(p, i)) == Decode(w, |s.mem.frames|)
  {
    var own :| Forest(s, own);
    EntryReady(s, own, p, i);
  }

  ghost predicate Leads(s: System, p: Path, pa: Word) {
    if pa == 0 then Node(s, p).None? else PaOf(Node(s, p)) == Some(pa)
  }

  lemma LookupIs(s: System, t: nat, va: Word, level: nat, table: Word)
    requires IsForest(s) && level < LEVELS && table != 0 && Leads(s, PathTo(t, va, level), table)
    ensures LOW_MEMORY <= table && FrameIdx(table) < |s.mem.frames|
    ensures var w := s.mem.frames[FrameIdx(table)][Index(va, level)];
      And(w, PAGE_MASK) < WORD_LIMIT && (w == 0 <==> And(w, PAGE_MASK) == 0)
      && Leads(s, PathTo(t, va, level + 1), And(w, PAGE_MASK))
  {
    assert And(0, PAGE_MASK) == 0;
    hide IsForest, Node, And, Index, Decode, IsEntry;
    EntryLeads(s, PathTo(t, va, level), Index(va, level));
    assert PathTo(t, va, level + 1) == Step(PathTo(t, va, level), Index(va, level));
    var w := s.mem.frames[FrameIdx(table)][Index(va, level)];
    if w != 0 {
      MaskEntry(w, level, |s.mem.frames|);
    }
  }

  /** One level of pt_walk: the frame the entry for `va` points at, 0 for an empty entry. */
  method Lookup(pm: PhysicalMemory, table: Word, level: nat, va: Word, ghost s: System, ghost t: nat)
      returns (next: Word)
    requires pm.Valid() && pm.View() == s.mem && IsForest(s) && level < LEVELS
    requires table != 0 && Leads(s, PathTo(t, va, level), table)
    ensures Leads(s, PathTo(t, va, level + 1), next)
  {
    LookupIs(s, t, va, level, table);
    var idx := And(Shr(va, Shift(level)), PTRS_PER_TABLE - 1);
    IndexBits(va, level);
    hide IsForest, Leads, PathTo, Index;
    var entry := pm.frames[FrameIdx(table)][idx];
    if entry == 0 {
      return 0;
    }
    next := And(entry, PAGE_MASK);
  }

  lemma NoneBelow(s: System, t: nat, va: Word, level: nat)
    requires level <= LEVELS && Node(s, PathTo(t, va, level)).None?
    ensures Node(s, PathTo(t, va, LEVELS)).None?
    decreases LEVELS - level
  {
    if level < LEVELS {
      NoneBelow(s, t, va, level + 1);
    }
  }

  /** The physical address of the page mapped at `va`, or 0. */
  method PtWalk(pm: PhysicalMemory, task: TaskStruct, va: Word, ghost s: System, ghost t: nat) returns (pa: Word)
    requires pm.Valid() && task.Valid() && pm.View() == s.mem && t < |s.mms| && s.mms[t] == task.View() && IsForest(s)
    ensures Leads(s, PathTo(t, va, LEVELS), pa)
  {
    if task.pgd == 0 {
      NoPgd(s, PathTo(t, va, LEVELS));
      return 0;
    }
    RootDecodes(s, t);
    assert Leads(s, PathTo(t, va, 0), task.pgd);
    hide IsForest, PathTo, Node;
    var pud := Lookup(pm, task.pgd, 0, va, s, t);
    if pud == 0 {
      NoneBelow(s, t, va, 1);
      return 0;
    }
    var pmd := Lookup(pm, pud, 1, va, s, t);
    if pmd == 0 {
      NoneBelow(s, t, va, 2);
      return 0;
    }
    var pte := Lookup(pm, pmd, 2, va, s, t);
    if pte == 0 {
      NoneBelow(s, t, va, 3);
      return 0;
    }
    pa := Lookup(pm, pte, 3, va, s, t);
  }

  // ---- allocate_user_page and do_mem_abort

  lemma ClaimReady(s: System, t: nat, va: Word, g: nat)
    requires Sized(s.mem) && IsForest(s) && MapRoom(s, t, va) && g == FirstFree(s.mem.descs) < |s.mem.descs|
    ensures var s1 := s.(mem := Claimed(s.mem, g, User));
      MapReady(s1, t, va) && AllocUser(s, t, va) == (MapPage(s1, t, va, g), true)
  {
    var s1 := s.(mem := Claimed(s.mem, g, User));
    ClaimStep(s, g, User, t);
    MissingSame(s, s1, PathTo(t, va, 3));
  }

  /** A zeroed user frame mapped at `va`; 0 when memory is exhausted. */
  method AllocateUserPage(pm: PhysicalMemory, task: TaskStruct, va: Word, ghost mms: seq<Mm>, ghost t: nat)
      returns (kva: Word)
    requires pm.Valid() && task.Valid() && Apart(pm, task) && t < |mms|
    requires IsForest(Sys(pm, mms, t, task)) && MapRoom(Sys(pm, mms, t, task), t, va)
    modifies pm.memMap, pm.frames, task`pgd, task`kernelPagesCount, task.kernelPages
    ensures pm.Valid() && task.Valid()
    ensures Sys(pm, mms, t, task) == AllocUser(old(Sys(pm, mms, t, task)), t, va).0
    ensures var g := FirstFree(old(pm.View()).descs);
      if g == |old(pm.View()).descs| then kva == 0 else kva == Pa(g) + VA_START
  {
    ghost var s, g := Sys(pm, mms, t, task), FirstFree(pm.memMap[..]);
    ghost var m := pm.View();
    var page := pm.GetFreePage();
    if page == 0 {
      return 0;
    }
    pm.memMap[FrameIdx(page)] := pm.memMap[FrameIdx(page)].(flag := User);
    ClaimReady(s, t, va, g);
    assert pm.View() == Claimed(m, g, User);
    Map(pm, task, va, page, mms, t, g);
    kva := page + VA_START;
  }

  /** The new state and the code: E_INVAL exactly for a fault that is not serviceable, E_NOMEM exactly when no frame
      is free. */
  ghost predicate FaultDone(s: System, s': System, t: nat, addr: Word, esr: Word, code: int) {
    && Sized(s.mem) && Allowed(s, Fault(t, addr, esr)) && s' == Apply(s, Fault(t, addr, esr))
    && code ==
         if !Serviceable(s, t, addr, esr) then E_INVAL
         else if FirstFree(s.mem.descs) == |s.mem.descs| then E_NOMEM else E_OK
  }

  lemma FaultIs(s: System, t: nat, addr: Word, esr: Word)
    requires Sized(s.mem) && t < |s.mms| && Allowed(s, Fault(t, addr, esr))
    ensures Serviceable(s, t, addr, esr) <==> esr % 64 / 4 == 1 && Find(s.mms[t].vmas, addr - addr % PAGE_SIZE).Some?
    ensures !Serviceable(s, t, addr, esr) ==> FaultDone(s, s, t, addr, esr, E_INVAL)
    ensures Serviceable(s, t, addr, esr) ==>
      && MapRoom(s, t, addr - addr % PAGE_SIZE)
      && FaultDone(s, AllocUser(s, t, addr - addr % PAGE_SIZE).0, t, addr, esr,
           if FirstFree(s.mem.descs) == |s.mem.descs| then E_NOMEM else E_OK)
  {
    hide AllocUser, MapRoom, Find, FirstFree;
  }

  /** The code of a translation fault, on a page inside an area. */
  predicate Known(v: seq<VmArea>, addr: Word, esr: Word) {
    esr % 64 / 4 == 1 && exists k :: 0 <= k < |v| && v[k].start <= addr - addr % PAGE_SIZE < v[k].end
  }

  predicate Exhausted(m: Memory) { forall f | 0 <= f < |m.descs| :: m.descs[f].flag != Free }

  /** A fault is refused iff it is no translation fault or no area of the task contains the page, and fails iff memory
      is exhausted then; in both cases nothing changes. */
  lemma FaultCode(s: System, s': System, t: nat, addr: Word, esr: Word, code: int)
    requires t < |s.mms| && FaultDone(s, s', t, addr, esr, code)
    ensures code == if !Known(s.mms[t].vmas, addr, esr) then -2 else if Exhausted(s.mem) then -1 else 0
    ensures code != 0 ==> s' == s
    ensures code == 0 ==> s' == AllocUser(s, t, addr - addr % PAGE_SIZE).0 && MapRoom(s, t, addr - addr % PAGE_SIZE)
  {
    hide MapPage, Node, PathTo, Missing;
    FaultIs(s, t, addr, esr);
    FindArea(s.mms[t].vmas, addr - addr % PAGE_SIZE);
  }

  /** When a fault is served the task reads a page of zeros at the address, and nobody else reads anything different. */
  lemma FaultServed(s: System, s': System, t: nat, addr: Word, esr: Word, i: nat, u: nat, vb: Word)
    requires Inv(s) && t < |s.mms| && FaultDone(s, s', t, addr, esr, E_OK) && i < PTRS_PER_TABLE && u != t
    ensures Load(s', t, addr, i) == Some(0) && Load(s', u, vb, i) == Load(s, u, vb, i)
  {
    hide Inv, FaultDone, Load, AllocUser, MapRoom, IsForest, Serviceable, Allowed, Known, Exhausted, Sized;
    var va := addr - addr % PAGE_SIZE;
    FaultCode(s, s', t, addr, esr, E_OK);
    InvParts(s);
    ServedAlone(s, s', t, addr, esr, u, vb, i);
    AllocReads(s, t, va, addr, i);
  }

  lemma InvParts(s: System)
    requires Inv(s)
    ensures IsForest(s) && Sized(s.mem)
  {}

  lemma ServedAlone(s: System, s': System, t: nat, addr: Word, esr: Word, u: nat, vb: Word, i: nat)
    requires Inv(s) && t < |s.mms| && FaultDone(s, s', t, addr, esr, E_OK) && i < PTRS_PER_TABLE && u != t
    ensures FirstFree(s.mem.descs) < |s.mem.descs| && Load(s', u, vb, i) == Load(s, u, vb, i)
  {
    StepKeeps(s, Fault(t, addr, esr));
    hide Inv, Apply, Load, IsForest;
  }

  /** A page obtained for an address reads as zeros there. */
  lemma AllocReads(s: System, t: nat, va: Word, addr: Word, i: nat)
    requires IsForest(s) && Sized(s.mem) && MapRoom(s, t, va) && FirstFree(s.mem.descs) < |s.mem.descs|
    requires va == addr - addr % PAGE_SIZE && i < PTRS_PER_TABLE
    ensures t < |s.mms| && Load(AllocUser(s, t, va).0, t, addr, i) == Some(0)
  {
    RoomParts(s, t, va);
    hide *;
    AllocUserCorrect(s, t, va);
    SamePage(t, va, t, addr);
    PageStart(addr, va);
    LeafReads(s, AllocUser(s, t, va).0, t, va, addr, FirstFree(s.mem.descs), i);
  }

  lemma RoomParts(s: System, t: nat, va: Word)
    requires Sized(s.mem) && MapRoom(s, t, va) && FirstFree(s.mem.descs) < |s.mem.descs|
    ensures t < |s.mms| && FreeCount(s) > Missing(s, PathTo(t, va, 3))
  {}

  lemma PageStart(addr: Word, va: Word)
    requires va == addr - addr % PAGE_SIZE
    ensures Vpn(va) == Vpn(addr)
  {}

  lemma LeafReads(s: System, s': System, t: nat, va: Word, addr: Word, g: nat, i: nat)
    requires Mapped(s, s', t, va, g) && PathTo(t, va, LEVELS) == PathTo(t, addr, LEVELS) && i < PTRS_PER_TABLE
    requires g < |s'.mem.frames| && s'.mem.frames[g] == ZeroPage()
    ensures Load(s', t, addr, i) == Some(0)
  {
    hide Keeps, TablesAdded, IsForest, Node;
  }

  lemma FindArea(v: seq<VmArea>, x: Word)
    ensures Find(v, x).Some? <==> exists k :: 0 <= k < |v| && v[k].start <= x < v[k].end
  {
    assert forall k | 0 <= k < |v| :: Contains(v[k], x) <==> v[k].start <= x < v[k].end;
  }

  /** The page-fault handler: E_INVAL for other faults and for addresses outside every area, E_NOMEM without frames. */
  method DoMemAbort(pm: PhysicalMemory, current: TaskStruct, addr: Word, esr: Word, ghost mms: seq<Mm>, ghost t: nat)
      returns (code: int)
    requires pm.Valid() && current.Valid() && Apart(pm, current) && t < |mms| && IsForest(Sys(pm, mms, t, current))
    requires Allowed(Sys(pm, mms, t, current), Fault(t, addr, esr))
    modifies pm.memMap, pm.frames, current`pgd, current`kernelPagesCount, current.kernelPages
    ensures pm.Valid() && current.Valid()
    ensures FaultDone(old(Sys(pm, mms, t, current)), Sys(pm, mms, t, current), t, addr, esr, code)
  {
    hide Allowed, FaultDone, Apply, AllocUser, MapRoom, IsForest, Serviceable, Find, FirstFree;
    ghost var s := Sys(pm, mms, t, current);
    FaultIs(s, t, addr, esr);
    var faultAddr, ok := Classify(current, addr, esr);
    if !ok {
      return E_INVAL;
    }
    var page := AllocateUserPage(pm, current, faultAddr, mms, t);
    if page == 0 {
      return E_NOMEM;
    }
    code := E_OK;
  }

  /** The tests at the head of do_mem_abort: the fault status and the area of the page. */
  method Classify(current: TaskStruct, addr: Word, esr: Word) returns (faultAddr: Word, ok: bool)
    requires current.Valid()
    ensures faultAddr == addr - addr % PAGE_SIZE
    ensures ok <==> esr % 64 / 4 == 1 && Find(current.View().vmas, faultAddr).Some?
  {
    var dfs := And(esr, 0x3F);
    FaultBits(esr);
    MaskBits(addr);
    faultAddr := And(addr, PAGE_MASK);
    if And(dfs, 0x3C) != 0x04 {
      return faultAddr, false;
    }
    var idx := current.VmaFind(faultAddr);
    ok := idx != -1;
  }

  /** The test on the fault status asks for bits 5..2 to be 0001: a translation fault at any level. */
  lemma FaultBits(esr: Word)
    ensures And(And(esr, 0x3F), 0x3C) == 0x04 <==> esr % 64 / 4 == 1
  {
    Powers();
    AndLowMask(esr, 6);
    var d := esr % 64;
    assert Pow2(2) == 4;
    AndHighMask(d, 2, 6);
  }

  // ---- copy_virt_memory

  /** How far the copy loop got: what is left to do makes the same final state, or the copy failed. */
  ghost predicate CopyProgress(s: System, vas: seq<Word>, s': System, rest: seq<Word>, i: nat, j: nat, ok: bool)
  {
    && Sized(s.mem) && Sized(s'.mem) && i < |s.mms| == |s'.mms| && j < |s.mms| && s'.mms[i] == s.mms[i]
    && IsForest(s')
    && (if ok then CopyPages(s, i, j, vas) == CopyPages(s', i, j, rest) && CopyRoom(s', i, j, rest)
        else CopyPages(s, i, j, vas) == (s', false))
  }

  ghost predicate CopyReady(s: System, vas: seq<Word>, i: nat, j: nat) {
    CopyProgress(s, vas, s, vas, i, j, true)
  }

  lemma CopyPageIs(s: System, src: nat, dst: nat, va: Word, rest: seq<Word>)
    requires CopyReady(s, [va] + rest, src, dst) && src != dst
    ensures Sized(s.mem) && IsForest(s)
    ensures !IsMapped(s, src, va) ==> CopyProgress(s, [va] + rest, s, rest, src, dst, true)
    ensures IsMapped(s, src, va) ==> MapRoom(s, dst, va)
    ensures IsMapped(s, src, va) && FirstFree(s.mem.descs) == |s.mem.descs| ==>
      AllocUser(s, dst, va).0 == s && CopyProgress(s, [va] + rest, s, rest, src, dst, false)
    ensures IsMapped(s, src, va) && FirstFree(s.mem.descs) < |s.mem.descs| ==>
      CopyProgress(s, [va] + rest, CopyOne(s, src, dst, va), rest, src, dst, true)
  {
    assert ([va] + rest)[1..] == rest;
    if IsMapped(s, src, va) && FirstFree(s.mem.descs) < |s.mem.descs| {
      CopyOneFrame(s, src, dst, va);
    }
  }

  lemma CopyOneFrame(s: System, src: nat, dst: nat, va: Word)
    requires Sized(s.mem) && dst < |s.mms| && src < |s.mms| && src != dst && IsForest(s)
    requires IsMapped(s, src, va) && MapRoom(s, dst, va) && FirstFree(s.mem.descs) < |s.mem.descs|
    ensures var s1 := AllocUser(s, dst, va).0; var g := FirstFree(s.mem.descs);
      && Sized(s1.mem) && IsForest(s1) && |s1.mem.frames| == |s.mem.frames|
      && |s1.mms| == |s.mms| && s1.mms[src] == s.mms[src]
      && IsMapped(s1, src, va)
      && CopyOne(s, src, dst, va) ==
           s1.(mem := s1.mem.(frames := s1.mem.frames[g := s1.mem.frames[Node(s1, PathTo(src, va, LEVELS)).value]]))
      && IsForest(CopyOne(s, src, dst, va))
  {
    hide IsForest, LeafMoved, TablesAdded, HoldsTable, AllocUser, PathTo, Missing, CountFlag;
    AllocUserCorrect(s, dst, va);
    ParentLeaf(s, AllocUser(s, dst, va).0, src, dst, va, FirstFree(s.mem.descs));
    CopyOneCorrect(s, src, dst, va);
  }

  /** Two different tasks, parent `i` and child `j`, of a system whose other records are `mms`. */
  ghost predicate Pair(pm: PhysicalMemory, src: TaskStruct, dst: TaskStruct, mms: seq<Mm>, i: nat, j: nat)
    reads pm, src, src.vmas, src.kernelPages, dst
  {
    && pm.Valid() && src.Valid() && dst.Valid() && Apart(pm, src) && Apart(pm, dst)
    && src != dst && src.vmas != dst.vmas && src.kernelPages != dst.kernelPages
    && src.vmas as object != dst.kernelPages as object && src.kernelPages as object != dst.vmas as object
    && i < |mms| && j < |mms| && i != j && mms[i] == src.View()
  }

  /** One page of the child: false when no frame is left for it. */
  method CopyPage(pm: PhysicalMemory, src: TaskStruct, dst: TaskStruct, va: Word,
      ghost mms: seq<Mm>, ghost i: nat, ghost j: nat, ghost rest: seq<Word>) returns (ok: bool)
    requires Pair(pm, src, dst, mms, i, j) && CopyReady(Sys(pm, mms, j, dst), [va] + rest, i, j)
    modifies pm.memMap, pm.frames, dst`pgd, dst`kernelPagesCount, dst.kernelPages
    ensures Pair(pm, src, dst, mms, i, j)
    ensures CopyProgress(old(Sys(pm, mms, j, dst)), [va] + rest, Sys(pm, mms, j, dst), rest, i, j, ok)
  {
    hide CopyReady, CopyProgress, IsForest, CopyOne, AllocUser, Leads, IsMapped, PathTo, MapRoom, FirstFree, Node;
    ghost var s := Sys(pm, mms, j, dst);
    CopyPageIs(s, i, j, va, rest);
    LeadsIs(s, i, va);
    var pa := PtWalk(pm, src, va, s, i);
    if pa == 0 {
      return true;
    }
    ghost var g := FirstFree(pm.memMap[..]);
    var kva := AllocateUserPage(pm, dst, va, mms, j);
    if kva == 0 {
      return false;
    }
    CopyOneFrame(s, i, j, va);
    CopyFrame(pm, src, kva, va, Sys(pm, mms, j, dst), i, g);
    ok := true;
  }

  lemma LeadsIs(s: System, t: nat, va: Word)
    ensures forall pa: Word | Leads(s, PathTo(t, va, LEVELS), pa) ::
      (pa != 0 <==> IsMapped(s, t, va))
      && (pa != 0 ==> LOW_MEMORY <= pa && Node(s, PathTo(t, va, LEVELS)) == Some(FrameIdx(pa)))
  {
    hide Node, PathTo;
  }

  /** memcpy of a whole page: the source address is translated by the tables of the current task. */
  method CopyFrame(pm: PhysicalMemory, current: TaskStruct, kva: Word, va: Word, ghost s: System, ghost t: nat,
      ghost g: nat)
    requires pm.Valid() && current.Valid() && pm.View() == s.mem && t < |s.mms| && s.mms[t] == current.View()
    requires IsForest(s)
    requires g < pm.frames.Length && kva == Pa(g) + VA_START && IsMapped(s, t, va)
    modifies pm.frames
    ensures pm.View() == s.mem.(frames := s.mem.frames[g := s.mem.frames[Node(s, PathTo(t, va, LEVELS)).value]])
  {
    hide Leads, IsForest, PathTo, Node;
    LeadsIs(s, t, va);
    var pa := PtWalk(pm, current, va, s, t);
    pm.frames[FrameIdx(kva - VA_START)] := pm.frames[FrameIdx(pa)];
  }

  lemma ProgressTrans(s: System, vas: seq<Word>, s1: System, vas1: seq<Word>, s2: System, vas2: seq<Word>, i: nat,
      j: nat, ok: bool)
    requires CopyProgress(s, vas, s1, vas1, i, j, true)
    ensures CopyReady(s1, vas1, i, j)
    ensures CopyProgress(s1, vas1, s2, vas2, i, j, ok) ==> CopyProgress(s, vas, s2, vas2, i, j, ok)
  {}

  lemma AreaSplit(va: Word, end: Word, rest: seq<Word>)
    requires end <= VA_LIMIT
    ensures va < end ==> AreaPages(va, end) + rest == [va] + (AreaPages(va + PAGE_SIZE, end) + rest)
    ensures va >= end ==> AreaPages(va, end) + rest == rest
  {}

  /** CopyPage as a step of a longer copy that began in `s0`. */
  method CopyNext(pm: PhysicalMemory, src: TaskStruct, dst: TaskStruct, va: Word,
      ghost mms: seq<Mm>, ghost i: nat, ghost j: nat, ghost rest: seq<Word>, ghost s0: System, ghost vas: seq<Word>)
      returns (ok: bool)
    requires Pair(pm, src, dst, mms, i, j) && CopyProgress(s0, vas, Sys(pm, mms, j, dst), [va] + rest, i, j, true)
    modifies pm.memMap, pm.frames, dst`pgd, dst`kernelPagesCount, dst.kernelPages
    ensures Pair(pm, src, dst, mms, i, j) && CopyProgress(s0, vas, Sys(pm, mms, j, dst), rest, i, j, ok)
  {
    hide CopyReady, CopyProgress;
    ghost var s := Sys(pm, mms, j, dst);
    ProgressTrans(s0, vas, s, [va] + rest, s, [va] + rest, i, j, true);
    ok := CopyPage(pm, src, dst, va, mms, i, j, rest);
    ProgressTrans(s0, vas, s, [va] + rest, Sys(pm, mms, j, dst), rest, i, j, ok);
  }

  /** The inner loop, over the pages of one area. */
  method CopyArea(pm: PhysicalMemory, src: TaskStruct, dst: TaskStruct, start: Word, end: Word,
      ghost mms: seq<Mm>, ghost i: nat, ghost j: nat, ghost rest: seq<Word>, ghost s0: System, ghost vas: seq<Word>)
      returns (ok: bool)
    requires Pair(pm, src, dst, mms, i, j) && end <= VA_LIMIT
    requires CopyProgress(s0, vas, Sys(pm, mms, j, dst), AreaPages(start, end) + rest, i, j, true)
    modifies pm.memMap, pm.frames, dst`pgd, dst`kernelPagesCount, dst.kernelPages
    ensures Pair(pm, src, dst, mms, i, j) && CopyProgress(s0, vas, Sys(pm, mms, j, dst), rest, i, j, ok)
  {
    hide CopyProgress, AreaPages;
    var va: Word := start;
    while va < end
      invariant Pair(pm, src, dst, mms, i, j)
      invariant CopyProgress(s0, vas, Sys(pm, mms, j, dst), AreaPages(va, end) + rest, i, j, true)
      decreases if va < end then end - va else 0
    {
      AreaSplit(va, end, rest);
      ok := CopyNext(pm, src, dst, va, mms, i, j, AreaPages(va + PAGE_SIZE, end) + rest, s0, vas);
      if !ok {
        ProgressFailed(s0, vas, Sys(pm, mms, j, dst), AreaPages(va + PAGE_SIZE, end) + rest, rest, i, j);
        return false;
      }
      va := va + PAGE_SIZE;
    }
    AreaSplit(va, end, rest);
    ok := true;
  }

  lemma ProgressFailed(s: System, vas: seq<Word>, s': System, vas1: seq<Word>, vas2: seq<Word>, i: nat, j: nat)
    ensures CopyProgress(s, vas, s', vas1, i, j, false) ==> CopyProgress(s, vas, s', vas2, i, j, false)
  {}

  lemma AreasSplit(v: seq<VmArea>, k: nat)
    requires Low(v) && k <= |v|
    ensures AllPages(v[k..]) == if k == |v| then [] else AreaPages(v[k].start, v[k].end) + AllPages(v[k + 1..])
  {
    if k < |v| {
      assert v[k..][1..] == v[k + 1..];
    }
  }

  /** dst->mm.vmas = src->mm.vmas */
  method CopyAreas(src: TaskStruct, dst: TaskStruct)
    requires src.Valid() && dst.Valid() && src != dst && src.vmas != dst.vmas
    requires src.vmas as object != dst.kernelPages as object && src.kernelPages as object != dst.vmas as object
    requires dst.vmas as object != dst.kernelPages as object
    modifies dst`vmaCount, dst.vmas
    ensures dst.Valid() && dst.View() == old(dst.View()).(vmas := src.View().vmas)
  {
    dst.vmaCount := src.vmaCount;
    var i := 0;
    while i < src.vmaCount
      invariant 0 <= i <= src.vmaCount && dst.vmas[..i] == src.vmas[..i]
      modifies dst.vmas
    {
      dst.vmas[i] := src.vmas[i];
      i := i + 1;
    }
  }

  /** The child's areas and pages; E_NOMEM when a page found no frame. */
  method CopyVirt(pm: PhysicalMemory, src: TaskStruct, dst: TaskStruct, ghost mms: seq<Mm>, ghost i: nat, ghost j: nat)
      returns (code: int)
    requires Pair(pm, src, dst, mms, i, j) && IsForest(Sys(pm, mms, j, dst)) && Low(src.View().vmas)
    requires CopyRoom(WithAreas(Sys(pm, mms, j, dst), i, j), i, j, AllPages(src.View().vmas))
    modifies pm.memMap, pm.frames, dst, dst.vmas, dst.kernelPages
    ensures Pair(pm, src, dst, mms, i, j)
    ensures CopyVirtMemory(old(Sys(pm, mms, j, dst)), i, j) == (Sys(pm, mms, j, dst), code == E_OK)
    ensures code == E_OK || code == E_NOMEM
  {
    hide CopyProgress, CopyRoom, IsForest, AllPages, CopyVirtMemory, WithAreas;
    ghost var s, v, mm := Sys(pm, mms, j, dst), src.View().vmas, dst.View();
    CopyBegins(s, i, j, v);
    WithAreasIs(s, i, j, mms, mm);
    CopyAreas(src, dst);
    ghost var s0, vas := Sys(pm, mms, j, dst), AllPages(v);
    assert v[0..] == v;
    var k := 0;
    while k < src.vmaCount
      invariant Pair(pm, src, dst, mms, i, j) && 0 <= k <= src.vmaCount
      invariant CopyProgress(s0, vas, Sys(pm, mms, j, dst), AllPages(v[k..]), i, j, true)
    {
      AreasSplit(v, k);
      var ok := CopyArea(pm, src, dst, src.vmas[k].start, src.vmas[k].end, mms, i, j, AllPages(v[k + 1..]), s0, vas);
      if !ok {
        CopyEnds(s, i, j, v, AllPages(v[k + 1..]), Sys(pm, mms, j, dst), false);
        return E_NOMEM;
      }
      k := k + 1;
    }
    AreasSplit(v, k);
    CopyEnds(s, i, j, v, AllPages(v[k..]), Sys(pm, mms, j, dst), true);
    code := E_OK;
  }

  lemma WithAreasIs(s: System, i: nat, j: nat, mms: seq<Mm>, mm: Mm)
    requires i < |mms| && j < |mms| && i != j && s.mms == mms[j := mm]
    ensures WithAreas(s, i, j) == System(s.mem, mms[j := mm.(vmas := mms[i].vmas)])
  {}

  lemma CopyBegins(s: System, i: nat, j: nat, v: seq<VmArea>)
    requires Sized(s.mem) && IsForest(s) && i < |s.mms| && j < |s.mms| && i != j && s.mms[i].vmas == v && Low(v)
    requires CopyRoom(WithAreas(s, i, j), i, j, AllPages(v))
    ensures CopyProgress(WithAreas(s, i, j), AllPages(v), WithAreas(s, i, j), AllPages(v), i, j, true)
  {
    WithAreasSame(s, i, j);
  }

  lemma CopyEnds(s: System, i: nat, j: nat, v: seq<VmArea>, rest: seq<Word>, s': System, ok: bool)
    requires Sized(s.mem) && i < |s.mms| && j < |s.mms| && s.mms[i].vmas == v && Low(v)
    requires CopyProgress(WithAreas(s, i, j), AllPages(v), s', rest, i, j, ok) && (ok ==> rest == [])
    ensures CopyVirtMemory(s, i, j) == (s', ok)
  {}
}
