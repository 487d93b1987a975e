/** Every run of the memory manager keeps the forest, the census and the isolation of tasks. */
module MemoryRuns {
  import opened Basics
  import opened FirstFit
  import opened Frames
  import opened PageTables
  import opened Mapping
  import opened Areas
  import opened Fork
  import opened ForkTheorems

  // ---- runs of free frames

  /** Which frames are in use. */
  function Used(d: seq<Desc>): (v: seq<bool>)
    ensures |v| == |d| && forall i | 0 <= i < |d| :: v[i] == (d[i].flag != Free)
  {
    seq(|d|, i requires 0 <= i < |d| => d[i].flag != Free)
  }

  predicate FreeRun(d: seq<Desc>, i: nat, n: nat) { ClearRun(Used(d), i, n) }

  /** The leftmost run of `n` free frames. */
  function FirstRun(d: seq<Desc>, n: nat): Option<nat> { FirstClear(Used(d), n) }

  /** Frames i..i+n become kernel frames and are zeroed. */
  function ClaimRun(m: Memory, i: nat, n: nat): (r: Memory)
    requires Sized(m) && i + n <= |m.descs|
    ensures Sized(r) && |r.descs| == |m.descs|
    decreases n
  {
    if n == 0 then m else Claimed(ClaimRun(m, i, n - 1), i + n - 1, Kernel)
  }

  lemma {:induction false} ClaimRunAt(m: Memory, i: nat, n: nat, k: nat)
    requires Sized(m) && i + n <= |m.descs| && k < |m.descs|
    ensures ClaimRun(m, i, n).descs[k] == if i <= k < i + n then Desc(Kernel, 1, -1) else m.descs[k]
    ensures ClaimRun(m, i, n).frames[k] == if i <= k < i + n then ZeroPage() else m.frames[k]
    decreases n
  {
    if n > 0 {
      ClaimRunAt(m, i, n - 1, k);
    }
  }

  lemma ClaimRunIs(m: Memory, i: nat, n: nat, m': Memory)
    requires Sized(m) && Sized(m') && |m'.descs| == |m.descs| && i + n <= |m.descs|
    requires forall k | 0 <= k < |m.descs| :: m'.descs[k] == if i <= k < i + n then Desc(Kernel, 1, -1) else m.descs[k]
    requires forall k | 0 <= k < |m.descs| :: m'.frames[k] == if i <= k < i + n then ZeroPage() else m.frames[k]
    ensures m' == ClaimRun(m, i, n)
  {
    var r := ClaimRun(m, i, n);
    forall k | 0 <= k < |m.descs| ensures r.descs[k] == m'.descs[k] && r.frames[k] == m'.frames[k] {
      ClaimRunAt(m, i, n, k);
    }
    assert r.descs == m'.descs && r.frames == m'.frames;
  }

  // ---- operations

  datatype Op =
    | GetPage
    | GetPages(n: int)
    | FreePage(f: nat)
    | NewTask
    | AllocUserPage(t: nat, va: Word)
    | Fault(t: nat, addr: Word, esr: Word)
    | Copy(src: nat, dst: nat)
    | AddArea(t: nat, a: VmArea)
    | RemoveArea(t: nat, start: Word)
    | UserStore(t: nat, va: Word, i: nat, w: Word)
    | KernelStore(f: nat, i: nat, w: Word)

  predicate IsRoot(s: System, f: nat) {
    exists t :: 0 <= t < |s.mms| && s.mms[t].pgd == Pa(f)
  }

  predicate IsHome(s: System, f: nat) {
    exists t :: 0 <= t < |s.mms| && s.mms[t].home == f
  }

  /** A kernel page that somebody has got and that is neither a pgd nor holds a task. */
  predicate KernelOwned(s: System, f: nat) {
    f < |s.mem.descs| && s.mem.descs[f].flag == Kernel && !IsRoot(s, f) && !IsHome(s, f)
  }

  /** Mapping one page either finds memory exhausted at once or has all the frames and slots it needs. */
  predicate MapRoom(s: System, t: nat, va: Word)
    requires Sized(s.mem)
  {
    && t < |s.mms|
    && (FirstFree(s.mem.descs) == |s.mem.descs| ||
        (FreeCount(s) > Missing(s, PathTo(t, va, 3))
         && |s.mms[t].kernelPages| + Missing(s, PathTo(t, va, 3)) <= MAX_PROCESS_PAGES))
  }

  /** A translation fault (DFSC 0b0001xx) on an address inside an area of the task. */
  predicate Serviceable(s: System, t: nat, addr: Word, esr: Word)
    requires t < |s.mms|
  {
    esr % 64 / 4 == 1 && Find(s.mms[t].vmas, addr - addr % PAGE_SIZE).Some?
  }

  predicate Allowed(s: System, op: Op)
    requires Sized(s.mem)
  {
    match op
    case GetPage | NewTask | GetPages(_) => true
    case FreePage(f) => KernelOwned(s, f)
    case AllocUserPage(t, va) => MapRoom(s, t, va)
    case Fault(t, addr, esr) => t < |s.mms| && (Serviceable(s, t, addr, esr) ==> MapRoom(s, t, addr - addr % PAGE_SIZE))
    case Copy(src, dst) =>
      && src < |s.mms| && dst < |s.mms| && src != dst
      && s.mms[dst] == Mm(0, [], [], s.mms[dst].home) && Low(s.mms[src].vmas)
      && CopyRoom(WithAreas(s, src, dst), src, dst, AllPages(s.mms[src].vmas))
    case AddArea(t, a) => t < |s.mms| && WellFormed(a)
    case RemoveArea(t, _) => t < |s.mms|
    case UserStore(t, _, i, _) => t < |s.mms| && i < PTRS_PER_TABLE
    case KernelStore(f, i, _) => KernelOwned(s, f) && i < PTRS_PER_TABLE
  }

  function ClaimFirst(s: System): System
    requires Sized(s.mem)
  {
    var g := FirstFree(s.mem.descs);
    if g == |s.mem.descs| then s else s.(mem := Claimed(s.mem, g, Kernel))
  }

  /** A task gets a kernel page and an empty address space; nothing happens without a free frame. */
  function WithTask(s: System): System
    requires Sized(s.mem)
  {
    if FirstFree(s.mem.descs) == |s.mem.descs| then s
    else ClaimFirst(s).(mms := s.mms + [Mm(0, [], [], FirstFree(s.mem.descs))])
  }

  function AddTo(mm: Mm, a: VmArea): Mm {
    if |mm.vmas| >= MAX_VMA_COUNT || exists i :: 0 <= i < |mm.vmas| && Overlap(a, mm.vmas[i]) then mm
    else mm.(vmas := mm.vmas + [a])
  }

  /** An area is added iff there is room and it shares no address with another one. */
  lemma AddToMeans(mm: Mm, a: VmArea)
    requires Good(mm.vmas) && WellFormed(a)
    ensures AddTo(mm, a) ==
      if |mm.vmas| >= MAX_VMA_COUNT || Clashes(mm.vmas, a) then mm else mm.(vmas := mm.vmas + [a])
  {
    forall i | 0 <= i < |mm.vmas| ensures Overlap(a, mm.vmas[i]) <==> !Disjoint(a, mm.vmas[i]) {
      OverlapMeans(a, mm.vmas[i]);
    }
  }

  function Apply(s: System, op: Op): System
    requires Sized(s.mem) && Allowed(s, op)
  {
    match op
    case GetPage => ClaimFirst(s)
    case GetPages(n) =>
      if n <= 0 then s else
      (match FirstRun(s.mem.descs, n) case None => s case Some(i) => s.(mem := ClaimRun(s.mem, i, n)))
    case FreePage(f) => s.(mem := s.mem.(descs := s.mem.descs[f := Desc(Free, 0, -1)]))
    case NewTask => WithTask(s)
    case AllocUserPage(t, va) => AllocUser(s, t, va).0
    case Fault(t, addr, esr) => if Serviceable(s, t, addr, esr) then AllocUser(s, t, addr - addr % PAGE_SIZE).0 else s
    case Copy(src, dst) => CopyVirtMemory(s, src, dst).0
    case AddArea(t, a) => s.(mms := s.mms[t := AddTo(s.mms[t], a)])
    case RemoveArea(t, start) => s.(mms := s.mms[t := s.mms[t].(vmas := Removed(s.mms[t].vmas, start))])
    case UserStore(t, va, i, w) => Store(s, t, va, i, w)
    case KernelStore(f, i, w) => s.(mem := s.mem.(frames := s.mem.frames[f := s.mem.frames[f][i := w]]))
  }

  // ---- the invariant

  ghost predicate GoodAreas(s: System) {
    forall t | 0 <= t < |s.mms| :: Good(s.mms[t].vmas)
  }

  ghost predicate Inv(s: System) {
    Sized(s.mem) && IsForest(s) && GoodAreas(s)
  }

  /** The task whose readable memory an operation may change. */
  function Subject(op: Op): Option<nat> {
    match op
    case AllocUserPage(t, _) => Some(t)
    case Fault(t, _, _) => Some(t)
    case Copy(_, dst) => Some(dst)
    case UserStore(t, _, _, _) => Some(t)
    case _ => None
  }

  /** What every step keeps: the invariant, and every word a task other than its subject can read; without a
      subject, every position leads where it led. */
  ghost predicate StepOk(s: System, s': System, subject: Option<nat>) {
    && Inv(s') && |s'.mms| >= |s.mms| && (subject.None? ==> SameNodes(s, s'))
    && (forall u: nat, va: Word, i: nat | Some(u) != subject && i < PTRS_PER_TABLE ::
          Load(s', u, va, i) == Load(s, u, va, i))
  }

  lemma QuietStep(s: System, s': System, subject: Option<nat>)
    requires Inv(s) && Sized(s'.mem) && IsForest(s') && GoodAreas(s') && |s'.mms| >= |s.mms|
    requires SameNodes(s, s')
    requires forall q | Level(q) == LEVELS && Node(s, q).Some? ::
      s'.mem.frames[Node(s, q).value] == s.mem.frames[Node(s, q).value]
    ensures StepOk(s, s', subject)
  {}

  lemma ClaimFirstStep(s: System)
    requires Inv(s)
    ensures StepOk(s, ClaimFirst(s), None)
  {
    var g := FirstFree(s.mem.descs);
    if g < |s.mem.descs| {
      ClaimOneStep(s, g);
    } else {
      QuietStep(s, s, None);
    }
  }

  /** The record of one frame that no table refers to may change in any way, but for the page-table flag. */
  lemma LooseChange(s: System, s': System, g: nat)
    requires Inv(s) && g < |s.mem.descs| && !Referenced(s, g) && s'.mms == s.mms
    requires |s'.mem.descs| == |s.mem.descs| && |s'.mem.frames| == |s.mem.frames| && s'.mem.descs[g].flag != PageTable
    requires forall f | 0 <= f < |s.mem.descs| && f != g ::
      s'.mem.descs[f] == s.mem.descs[f] && s'.mem.frames[f] == s.mem.frames[f]
    ensures Inv(s') && SameNodes(s, s')
  {
    var own :| Forest(s, own);
    TableLabels(s, own, g, 0);
    var s1 := s.(mem := s.mem.(frames := s'.mem.frames));
    ForestFrame(s, own, s1);
    ForestFlag(s1, own, g, s'.mem.descs[g]);
    assert s1.mem.descs[g := s'.mem.descs[g]] == s'.mem.descs;
    SameTablesSameNodes(s, own, s');
  }

  lemma LooseStep(s: System, s': System, g: nat)
    requires Inv(s) && g < |s.mem.descs| && !Referenced(s, g) && s'.mms == s.mms
    requires |s'.mem.descs| == |s.mem.descs| && |s'.mem.frames| == |s.mem.frames| && s'.mem.descs[g].flag != PageTable
    requires forall f | 0 <= f < |s.mem.descs| && f != g ::
      s'.mem.descs[f] == s.mem.descs[f] && s'.mem.frames[f] == s.mem.frames[f]
    ensures StepOk(s, s', None)
  {
    hide StepOk, IsForest;
    LooseChange(s, s', g);
    forall q | Level(q) == LEVELS && Node(s, q).Some?
      ensures s'.mem.frames[Node(s, q).value] == s.mem.frames[Node(s, q).value]
    {
      assert Referenced(s, Node(s, q).value);
    }
    QuietStep(s, s', None);
  }

  lemma ClaimOneStep(s: System, g: nat)
    requires Inv(s) && g < |s.mem.descs| && s.mem.descs[g].flag == Free
    ensures StepOk(s, s.(mem := Claimed(s.mem, g, Kernel)), None)
  {
    hide StepOk, IsForest, Referenced;
    FreeUnreferenced(s, g);
    LooseStep(s, s.(mem := Claimed(s.mem, g, Kernel)), g);
  }

  lemma StepsCompose(s: System, s1: System, s2: System, subject: Option<nat>)
    requires StepOk(s, s1, subject) && StepOk(s1, s2, subject)
    ensures StepOk(s, s2, subject)
  {}

  lemma {:induction false} ClaimRunStep(s: System, i: nat, n: nat)
    requires Inv(s) && FreeRun(s.mem.descs, i, n)
    ensures StepOk(s, s.(mem := ClaimRun(s.mem, i, n)), None)
    ensures forall j: nat | j < |s.mem.descs| && !(i <= j < i + n) :: ClaimRun(s.mem, i, n).descs[j] == s.mem.descs[j]
    decreases n
  {
    if n == 0 {
      QuietStep(s, s, None);
    } else {
      var s1 := s.(mem := ClaimRun(s.mem, i, n - 1));
      ClaimRunStep(s, i, n - 1);
      ClaimOneStep(s1, i + n - 1);
      StepsCompose(s, s1, s.(mem := ClaimRun(s.mem, i, n)), None);
    }
  }

  lemma RootLabels(s: System, own: map<nat, Path>, f: nat)
    requires Forest(s, own) && f in own && Level(own[f]) == 0
    ensures IsRoot(s, f)
  {
    var t := Task(own[f]);
    assert Node(s, own[f]) == Some(f) && own[f] == Root(t);
    assert ListedFor(s.mms[t], t, own, |s.mem.frames|);
    assert TableOf(s.mms[t].kernelPages[0], t, own, |s.mem.frames|);
  }

  /** A kernel frame that is no task's pgd is outside the forest. */
  lemma KernelOwnedOutside(s: System, own: map<nat, Path>, f: nat)
    requires Forest(s, own) && KernelOwned(s, f)
    ensures f !in own
  {
    forall h | h in own && s.mem.descs[h].flag == Kernel ensures IsRoot(s, h) {
      RootLabels(s, own, h);
    }
  }

  lemma OwnedUnreferenced(s: System, f: nat)
    requires Inv(s) && KernelOwned(s, f)
    ensures !Referenced(s, f)
  {
    var own :| Forest(s, own);
    KernelOwnedOutside(s, own, f);
    TableLabels(s, own, f, 0);
  }

  lemma FreePageStep(s: System, f: nat)
    requires Inv(s) && KernelOwned(s, f)
    ensures StepOk(s, s.(mem := s.mem.(descs := s.mem.descs[f := Desc(Free, 0, -1)])), None)
  {
    hide StepOk, IsForest, Referenced;
    OwnedUnreferenced(s, f);
    LooseStep(s, s.(mem := s.mem.(descs := s.mem.descs[f := Desc(Free, 0, -1)])), f);
  }

  lemma KernelStoreStep(s: System, f: nat, i: nat, w: Word)
    requires Inv(s) && KernelOwned(s, f) && i < PTRS_PER_TABLE
    ensures StepOk(s, s.(mem := s.mem.(frames := s.mem.frames[f := s.mem.frames[f][i := w]])), None)
  {
    hide StepOk, IsForest, Referenced;
    OwnedUnreferenced(s, f);
    LooseStep(s, s.(mem := s.mem.(frames := s.mem.frames[f := s.mem.frames[f][i := w]])), f);
  }

  lemma {:induction false} NodeMoreTasks(s: System, s': System, q: Path)
    requires s'.mem == s.mem && |s'.mms| == |s.mms| + 1 && s'.mms[..|s.mms|] == s.mms && s'.mms[|s.mms|].pgd == 0
    ensures Node(s', q) == Node(s, q)
  {
    match q {
      case Root(t) => assert t < |s.mms| ==> s'.mms[t] == s'.mms[..|s.mms|][t];
      case Step(up, _) => NodeMoreTasks(s, s', up);
    }
  }

  lemma AddTaskStep(s: System, g: nat)
    requires Inv(s)
    ensures StepOk(s, s.(mms := s.mms + [Mm(0, [], [], g)]), None)
  {
    var own :| Forest(s, own);
    var s' := s.(mms := s.mms + [Mm(0, [], [], g)]);
    MoreTasksNodes(s, s', g);
    MoreTasksForest(s, own, s', g);
    QuietStep(s, s', None);
  }

  lemma MoreTasksNodes(s: System, s': System, g: nat)
    requires s' == s.(mms := s.mms + [Mm(0, [], [], g)])
    ensures SameNodes(s, s')
  {
    forall q | Level(q) <= LEVELS ensures Node(s', q) == Node(s, q) {
      NodeMoreTasks(s, s', q);
    }
  }

  lemma MoreTasksForest(s: System, own: map<nat, Path>, s': System, g: nat)
    requires Forest(s, own) && s' == s.(mms := s.mms + [Mm(0, [], [], g)]) && SameNodes(s, s')
    ensures Forest(s', own)
  {
    forall f | f in own ensures Task(own[f]) < |s.mms| {
      assert Node(s, own[f]) == Some(f);
      RootExists(s, own[f]);
    }
    MoreTasksListed(s, own, s', g);
  }

  lemma MoreTasksListed(s: System, own: map<nat, Path>, s': System, g: nat)
    requires Listed(s, own) && s' == s.(mms := s.mms + [Mm(0, [], [], g)])
    requires forall f | f in own :: Task(own[f]) < |s.mms|
    ensures Listed(s', own)
  {
    forall t | 0 <= t < |s'.mms| ensures ListedFor(s'.mms[t], t, own, |s.mem.frames|) {
      if t < |s.mms| {
        assert ListedFor(s.mms[t], t, own, |s.mem.frames|);
      }
    }
  }

  lemma AreasStep(s: System, t: nat, v: seq<VmArea>)
    requires Inv(s) && t < |s.mms| && Good(v)
    ensures StepOk(s, s.(mms := s.mms[t := s.mms[t].(vmas := v)]), None)
  {
    hide Labelled, Flagged, Encoded, Listed, Node, Good;
    var own :| Forest(s, own);
    var s' := s.(mms := s.mms[t := s.mms[t].(vmas := v)]);
    ForestFrame(s, own, s');
    SameTablesSameNodes(s, own, s');
    hide Forest, StepOk;
    QuietStep(s, s', None);
  }

  lemma AllocUserStep(s: System, t: nat, va: Word)
    requires Inv(s) && MapRoom(s, t, va)
    ensures StepOk(s, AllocUser(s, t, va).0, Some(t))
  {
    if FirstFree(s.mem.descs) == |s.mem.descs| {
      QuietStep(s, s, Some(t));
    } else {
      AllocUserCorrect(s, t, va);
      MappedStep(s, AllocUser(s, t, va).0, t, va, FirstFree(s.mem.descs));
    }
  }

  lemma MappedStep(s: System, s': System, t: nat, va: Word, g: nat)
    requires Inv(s) && t < |s.mms| && Mapped(s, s', t, va, g) && s'.mms[t].vmas == s.mms[t].vmas
    ensures StepOk(s, s', Some(t))
  {
    MappedOthers(s, s', t, va, g);
    KeepsStep(s, s', t);
  }

  lemma KeepsStep(s: System, s': System, t: nat)
    requires Inv(s) && t < |s.mms| && Sized(s'.mem) && IsForest(s') && Keeps(s, s', t) && OthersSame(s, s', t)
    requires Good(s'.mms[t].vmas)
    ensures StepOk(s, s', Some(t))
  {
    forall u: nat, va: Word, i: nat | u != t && i < PTRS_PER_TABLE ensures Load(s', u, va, i) == Load(s, u, va, i) {
      OthersRead(s, s', t, u, va, i);
    }
  }

  lemma CopyStep(s: System, src: nat, dst: nat)
    requires Inv(s) && Allowed(s, Copy(src, dst))
    ensures StepOk(s, CopyVirtMemory(s, src, dst).0, Some(dst))
  {
    var s0 := WithAreas(s, src, dst);
    AreasStep(s, dst, s.mms[src].vmas);
    CopyPagesSafe(s0, src, dst, AllPages(s.mms[src].vmas));
    KeepsStep(s0, CopyVirtMemory(s, src, dst).0, dst);
  }

  lemma UserStoreStep(s: System, t: nat, va: Word, i: nat, w: Word)
    requires Inv(s) && t < |s.mms| && i < PTRS_PER_TABLE
    ensures StepOk(s, Store(s, t, va, i, w), Some(t))
  {
    forall u: nat, vb: Word, j: nat | u != t && j < PTRS_PER_TABLE
      ensures Load(Store(s, t, va, i, w), u, vb, j) == Load(s, u, vb, j)
    {
      StoreIsLocal(s, t, va, i, w, u, vb, j);
    }
    StoreIsLocal(s, t, va, i, w, t, va, i);
  }

  lemma NewTaskStep(s: System)
    requires Inv(s)
    ensures StepOk(s, WithTask(s), None)
  {
    ClaimFirstStep(s);
    if FirstFree(s.mem.descs) < |s.mem.descs| {
      var s1 := ClaimFirst(s);
      assert s1.mms == s.mms && Inv(s1);
      hide StepOk, ClaimFirst;
      AddTaskStep(s1, FirstFree(s.mem.descs));
      StepsCompose(s, s1, s1.(mms := s1.mms + [Mm(0, [], [], FirstFree(s.mem.descs))]), None);
    }
  }

  /** Every allowed operation keeps the invariant and the memory of all other tasks. */
  lemma StepKeeps(s: System, op: Op)
    requires Inv(s) && Allowed(s, op)
    ensures StepOk(s, Apply(s, op), Subject(op))
  {
    hide StepOk, CopyVirtMemory, AllocUser, Store, ClaimRun, Claimed, IsForest, MapRoom, CopyRoom, Missing, CountFlag;
    match op {
      case GetPage => ClaimFirstStep(s);
      case GetPages(n) =>
        if n > 0 && FirstRun(s.mem.descs, n).Some? {
          ClaimRunStep(s, FirstRun(s.mem.descs, n).value, n);
        } else {
          QuietStep(s, s, None);
        }
      case FreePage(f) => FreePageStep(s, f);
      case NewTask => NewTaskStep(s);
      case AllocUserPage(t, va) => AllocUserStep(s, t, va);
      case Fault(t, addr, esr) =>
        if Serviceable(s, t, addr, esr) {
          AllocUserStep(s, t, addr - addr % PAGE_SIZE);
        } else {
          QuietStep(s, s, Some(t));
        }
      case Copy(src, dst) => CopyStep(s, src, dst);
      case AddArea(t, a) =>
        if AddTo(s.mms[t], a) != s.mms[t] {
          AddKeepsGood(s.mms[t].vmas, a);
        }
        AreasStep(s, t, AddTo(s.mms[t], a).vmas);
      case RemoveArea(t, start) =>
        RemovedIs(s.mms[t].vmas, start);
        AreasStep(s, t, Removed(s.mms[t].vmas, start));
      case UserStore(t, va, i, w) => UserStoreStep(s, t, va, i, w);
      case KernelStore(f, i, w) => KernelStoreStep(s, f, i, w);
    }
  }

  // ---- runs

  ghost predicate Run(s: System, ops: seq<Op>, s': System)
    decreases |ops|
  {
    if ops == [] then s' == s
    else Sized(s.mem) && Allowed(s, ops[0]) && Run(Apply(s, ops[0]), ops[1..], s')
  }

  /** The state at boot: every frame free, no task. */
  predicate Boot(s: System) {
    Sized(s.mem) && s.mms == [] && forall f | 0 <= f < |s.mem.descs| :: s.mem.descs[f].flag == Free
  }

  lemma BootInv(s: System)
    requires Boot(s)
    ensures Inv(s)
  {
    forall q ensures Node(s, q).None? {
      EmptyNode(s, q);
    }
    assert Forest(s, map[]);
  }

  lemma {:induction false} EmptyNode(s: System, q: Path)
    requires s.mms == []
    ensures Node(s, q).None?
  {
    if q.Step? {
      EmptyNode(s, q.up);
    }
  }

  /** Whatever a run does that is not aimed at task `u`, `u` reads the same words afterwards. */
  lemma {:induction false} RunIsolates(s: System, ops: seq<Op>, s': System, u: nat, va: Word, i: nat)
    requires Inv(s) && Run(s, ops, s') && i < PTRS_PER_TABLE
    requires forall k | 0 <= k < |ops| :: Subject(ops[k]) != Some(u)
    ensures Inv(s') && Load(s', u, va, i) == Load(s, u, va, i)
    decreases |ops|
  {
    if ops != [] {
      StepKeeps(s, ops[0]);
      RunIsolates(Apply(s, ops[0]), ops[1..], s', u, va, i);
    }
  }

  lemma {:induction false} RunKeepsInv(s: System, ops: seq<Op>, s': System)
    requires Inv(s) && Run(s, ops, s')
    ensures Inv(s')
    decreases |ops|
  {
    if ops != [] {
      StepKeeps(s, ops[0]);
      RunKeepsInv(Apply(s, ops[0]), ops[1..], s');
    }
  }
}
