/** The descriptor of every frame: free, or in use once and owned by no process. */
module FrameRecords {
  import opened Basics
  import opened Frames
  import opened PageTables
  import opened Mapping
  import opened Areas
  import opened Fork
  import opened ForkTheorems
  import opened MemoryRuns

  predicate Recorded(d: Desc) { if d.flag == Free then d.refcount == 0 else d.refcount == 1 && d.owner == -1 }

  predicate AllRecorded(d: seq<Desc>) { forall f | 0 <= f < |d| :: Recorded(d[f]) }

  lemma ClaimRecorded(m: Memory, g: nat, fl: Flag)
    requires Sized(m) && g < |m.frames| && AllRecorded(m.descs) && fl != Free
    ensures AllRecorded(Claimed(m, g, fl).descs)
  {}

  lemma {:induction false} ClaimRunRecorded(m: Memory, i: nat, n: nat)
    requires Sized(m) && i + n <= |m.descs| && AllRecorded(m.descs)
    ensures AllRecorded(ClaimRun(m, i, n).descs)
    decreases n
  {
    if n > 0 {
      ClaimRunRecorded(m, i, n - 1);
    }
  }

  lemma {:induction false} PathRecorded(s: System, p: Path)
    requires Sized(s.mem) && Task(p) < |s.mms| && Level(p) <= 3 && AllRecorded(s.mem.descs)
    ensures AllRecorded(EnsurePath(s, p).mem.descs)
  {
    hide Node, Linked;
    if p.Step? && p.idx < PTRS_PER_TABLE {
      PathRecorded(s, p.up);
      TableRecorded(EnsurePath(s, p.up), p.up, p.idx);
    }
  }

  lemma TableRecorded(s: System, p: Path, i: nat)
    requires Sized(s.mem) && Task(p) < |s.mms| && Level(p) < 3 && i < PTRS_PER_TABLE && AllRecorded(s.mem.descs)
    ensures AllRecorded(EnsureTable(s, p, i).mem.descs)
  {
    hide Node, Linked;
  }

  lemma AllocRecorded(s: System, t: nat, va: Word)
    requires Sized(s.mem) && t < |s.mms| && AllRecorded(s.mem.descs)
    ensures AllRecorded(AllocUser(s, t, va).0.mem.descs)
  {
    hide Node, Linked, EnsurePath;
    var g := FirstFree(s.mem.descs);
    if g < |s.mem.descs| {
      PathRecorded(s.(mem := Claimed(s.mem, g, User)), PathTo(t, va, 3));
    }
  }

  lemma {:induction false} CopyRecorded(s: System, src: nat, dst: nat, vas: seq<Word>)
    requires Sized(s.mem) && dst < |s.mms| && AllRecorded(s.mem.descs)
    ensures AllRecorded(CopyPages(s, src, dst, vas).0.mem.descs)
    decreases |vas|
  {
    hide AllocUser, Node, PathTo;
    if vas != [] {
      if !IsMapped(s, src, vas[0]) {
        CopyRecorded(s, src, dst, vas[1..]);
      } else if FirstFree(s.mem.descs) < |s.mem.descs| {
        AllocRecorded(s, dst, vas[0]);
        var s1 := CopyOne(s, src, dst, vas[0]);
        assert s1.mem.descs == AllocUser(s, dst, vas[0]).0.mem.descs;
        if Sized(s1.mem) && |s1.mms| == |s.mms| {
          CopyRecorded(s1, src, dst, vas[1..]);
        }
      }
    }
  }

  lemma StepRecorded(s: System, op: Op)
    requires Inv(s) && Allowed(s, op) && AllRecorded(s.mem.descs)
    ensures AllRecorded(Apply(s, op).mem.descs)
  {
    hide AllocUser, Node, CopyPages, ClaimRun, Removed, AddTo, IsForest;
    match op {
      case GetPages(n) =>
        if n > 0 && FirstRun(s.mem.descs, n).Some? {
          ClaimRunRecorded(s.mem, FirstRun(s.mem.descs, n).value, n);
        }
      case AllocUserPage(t, va) => AllocRecorded(s, t, va);
      case Fault(t, addr, esr) => AllocRecorded(s, t, addr - addr % PAGE_SIZE);
      case Copy(src, dst) => CopyRecorded(WithAreas(s, src, dst), src, dst, AllPages(s.mms[src].vmas));
      case _ =>
    }
  }

  /** After every run of the memory manager a frame is free and referred to by nobody, or in use with a reference
      count of 1 and no owning process. */
  lemma {:induction false} RunRecorded(s: System, ops: seq<Op>, s': System, f: nat)
    requires Inv(s) && Run(s, ops, s') && AllRecorded(s.mem.descs) && f < |s'.mem.descs|
    ensures s'.mem.descs[f].flag == Free ==> s'.mem.descs[f].refcount == 0
    ensures s'.mem.descs[f].flag != Free ==> s'.mem.descs[f].refcount == 1 && s'.mem.descs[f].owner == -1
    decreases |ops|
  {
    hide Inv, Apply, Allowed;
    if ops != [] {
      StepRecorded(s, ops[0]);
      StepKeeps(s, ops[0]);
      RunRecorded(Apply(s, ops[0]), ops[1..], s', f);
    }
  }
}
