/** What the forest invariant says about single frames, and the page-table count. */
module Census {
  import opened Basics
  import opened Frames
  import opened PageTables
  import opened Mapping
  import opened Fork
  import opened MemoryRuns

  /** The four counts of get_mem_stats make up all frames. */
  lemma {:induction false} CountsAddUp(d: seq<Desc>)
    ensures CountFlag(d, Free) + CountFlag(d, Kernel) + CountFlag(d, User) + CountFlag(d, PageTable) == |d|
  {
    if d != [] {
      CountsAddUp(d[..|d| - 1]);
    }
  }

  /** A frame below a table entry is referred to by no other entry of any table. */
  lemma ReferencedOnce(s: System, p: Path, i: nat, q: Path, j: nat)
    requires IsForest(s) && Level(p) < LEVELS && Level(q) < LEVELS && Node(s, p).Some? && Node(s, q).Some?
    requires Child(s.mem.frames, Node(s, p).value, i).Some?
    requires Child(s.mem.frames, Node(s, q).value, j) == Child(s.mem.frames, Node(s, p).value, i)
    ensures p == q && i == j
  {
    assert Node(s, Step(p, i)) == Child(s.mem.frames, Node(s, p).value, i);
    assert Node(s, Step(q, j)) == Child(s.mem.frames, Node(s, q).value, j);
    NodesDistinct(s, Step(p, i), Step(q, j));
  }

  /** No table entry leads to a task's root. */
  lemma RootUnreferenced(s: System, t: nat, q: Path, j: nat)
    requires IsForest(s) && Level(q) < LEVELS && Node(s, Root(t)).Some? && Node(s, q).Some?
    ensures Child(s.mem.frames, Node(s, q).value, j) != Node(s, Root(t))
  {
    assert Node(s, Step(q, j)) == Child(s.mem.frames, Node(s, q).value, j);
    if Node(s, Step(q, j)) == Node(s, Root(t)) {
      NodesDistinct(s, Step(q, j), Root(t));
    }
  }

  /** Position decides the flag: roots are kernel frames, inner tables page-table frames, leaves user frames. */
  lemma FlagOfNode(s: System, p: Path)
    requires IsForest(s) && Sized(s.mem) && Level(p) <= LEVELS && Node(s, p).Some?
    ensures s.mem.descs[Node(s, p).value].flag ==
      if p.Root? then Kernel else if Level(p) == LEVELS then User else PageTable
  {
    var own :| Forest(s, own);
    assert own[Node(s, p).value] == p;
  }

  /** kernel_pages of a task lists its table frames: each of them, nothing else, none twice, the root first. */
  lemma KernelPagesExact(s: System, t: nat, w: Word)
    requires IsForest(s) && Sized(s.mem) && t < |s.mms|
    ensures w in s.mms[t].kernelPages <==>
      exists p :: Level(p) < LEVELS && Task(p) == t && Node(s, p).Some? && w == Pa(Node(s, p).value)
    ensures forall i, j | 0 <= i < j < |s.mms[t].kernelPages| :: s.mms[t].kernelPages[i] != s.mms[t].kernelPages[j]
    ensures s.mms[t].pgd != 0 ==> s.mms[t].kernelPages != [] && s.mms[t].kernelPages[0] == s.mms[t].pgd
  {
    var own :| Forest(s, own);
    assert ListedFor(s.mms[t], t, own, |s.mem.frames|);
    if w in s.mms[t].kernelPages {
      var i :| 0 <= i < |s.mms[t].kernelPages| && s.mms[t].kernelPages[i] == w;
      assert TableOf(w, t, own, |s.mem.frames|);
      var p := own[Decode(w, |s.mem.frames|).value];
      assert Level(p) < LEVELS && Task(p) == t && Node(s, p) == Decode(w, |s.mem.frames|);
    }
    forall p | Level(p) < LEVELS && Task(p) == t && Node(s, p).Some?
      ensures Pa(Node(s, p).value) in s.mms[t].kernelPages
    {
      assert own[Node(s, p).value] == p;
    }
  }

  // ---- the page-table count

  /** Inner table frames recorded by the first `k` tasks: every recorded page but the root. */
  function RecordedTables(mms: seq<Mm>): nat {
    if mms == [] then 0
    else
      var kp := mms[|mms| - 1].kernelPages;
      RecordedTables(mms[..|mms| - 1]) + (if kp == [] then 0 else |kp| - 1)
  }

  function FramesFlagged(d: seq<Desc>, fl: Flag): set<nat> {
    set f: nat | f < |d| && d[f].flag == fl
  }

  lemma {:induction false} CountIsSize(d: seq<Desc>, fl: Flag)
    ensures CountFlag(d, fl) == |FramesFlagged(d, fl)|
  {
    if d != [] {
      var e := d[..|d| - 1];
      CountIsSize(e, fl);
      assert FramesFlagged(d, fl) == FramesFlagged(e, fl) + if d[|d| - 1].flag == fl then {|d| - 1} else {};
    }
  }

  ghost function InnerTables(own: map<nat, Path>, k: nat): set<nat> {
    set f | f in own && 0 < Level(own[f]) < LEVELS && Task(own[f]) < k
  }

  ghost function InnerOf(own: map<nat, Path>, t: nat): set<nat> {
    set f | f in own && 0 < Level(own[f]) < LEVELS && Task(own[f]) == t
  }

  /** Frames named by the words of a list from index `from` on. */
  function Named(kp: seq<Word>, from: nat, n: nat): set<nat> {
    set i | from <= i < |kp| && Decode(kp[i], n).Some? :: Decode(kp[i], n).value
  }

  lemma {:induction false} NamedSize(kp: seq<Word>, from: nat, n: nat)
    requires from <= |kp|
    requires forall i | 0 <= i < |kp| :: Decode(kp[i], n).Some? && kp[i] == Pa(Decode(kp[i], n).value)
    requires forall i, j | 0 <= i < j < |kp| :: kp[i] != kp[j]
    ensures |Named(kp, from, n)| == |kp| - from
    decreases |kp| - from
  {
    if from < |kp| {
      NamedSize(kp, from + 1, n);
      assert Named(kp, from, n) == Named(kp, from + 1, n) + {Decode(kp[from], n).value};
      assert Decode(kp[from], n).value !in Named(kp, from + 1, n);
    }
  }

  lemma InnerOfSize(s: System, own: map<nat, Path>, t: nat)
    requires Forest(s, own) && t < |s.mms|
    ensures |InnerOf(own, t)| == if s.mms[t].kernelPages == [] then 0 else |s.mms[t].kernelPages| - 1
  {
    var kp, n := s.mms[t].kernelPages, |s.mem.frames|;
    assert ListedFor(s.mms[t], t, own, n);
    assert forall i | 0 <= i < |kp| :: TableOf(kp[i], t, own, n);
    if kp == [] {
      assert InnerOf(own, t) == {};
    } else {
      NamedSize(kp, 1, n);
      RootFirst(s, own, t);
      InnerNamed(s, own, t);
    }
  }

  lemma RootFirst(s: System, own: map<nat, Path>, t: nat)
    requires Forest(s, own) && t < |s.mms| && s.mms[t].kernelPages != []
    ensures Decode(s.mms[t].kernelPages[0], |s.mem.frames|).Some?
    ensures var f := Decode(s.mms[t].kernelPages[0], |s.mem.frames|).value; f in own && own[f] == Root(t)
  {
    assert ListedFor(s.mms[t], t, own, |s.mem.frames|);
    assert TableOf(s.mms[t].kernelPages[0], t, own, |s.mem.frames|);
    assert Node(s, Root(t)).Some?;
  }

  lemma {:induction false} OnlyRootAtTop(p: Path)
    ensures Level(p) == 0 <==> p == Root(Task(p))
  {}

  lemma InnerNamed(s: System, own: map<nat, Path>, t: nat)
    requires Forest(s, own) && t < |s.mms| && s.mms[t].kernelPages != []
    ensures InnerOf(own, t) == Named(s.mms[t].kernelPages, 1, |s.mem.frames|)
  {
    var kp, n := s.mms[t].kernelPages, |s.mem.frames|;
    assert ListedFor(s.mms[t], t, own, n);
    RootFirst(s, own, t);
    forall f | f in InnerOf(own, t) ensures f in Named(kp, 1, n) {
      assert Pa(f) in kp;
      var i :| 0 <= i < |kp| && kp[i] == Pa(f);
      assert TableOf(kp[i], t, own, n);
      assert Node(s, own[f]) == Some(f);
      DecodeEntry(f, 0, n);
    }
    forall f | f in Named(kp, 1, n) ensures f in InnerOf(own, t) {
      var i :| 1 <= i < |kp| && Decode(kp[i], n) == Some(f);
      assert TableOf(kp[i], t, own, n);
      OnlyRootAtTop(own[f]);
      assert kp[0] != kp[i];
    }
  }

  lemma InnerSplit(own: map<nat, Path>, k: nat)
    ensures |InnerTables(own, k + 1)| == |InnerTables(own, k)| + |InnerOf(own, k)|
  {
    assert InnerTables(own, k + 1) == InnerTables(own, k) + InnerOf(own, k);
  }

  lemma {:induction false} InnerTablesSize(s: System, own: map<nat, Path>, k: nat)
    requires Forest(s, own) && k <= |s.mms|
    ensures |InnerTables(own, k)| == RecordedTables(s.mms[..k])
  {
    hide Forest;
    if k > 0 {
      InnerTablesSize(s, own, k - 1);
      InnerOfSize(s, own, k - 1);
      InnerSplit(own, k - 1);
      assert s.mms[..k][..k - 1] == s.mms[..k - 1];
    } else {
      assert InnerTables(own, 0) == {};
    }
  }

  /** Frames flagged page-table are as many as the tasks have recorded, their roots not counted. */
  lemma PageTableCount(s: System)
    requires IsForest(s) && Sized(s.mem)
    ensures CountFlag(s.mem.descs, PageTable) == RecordedTables(s.mms)
  {
    var own :| Forest(s, own);
    CountIsSize(s.mem.descs, PageTable);
    InnerTablesSize(s, own, |s.mms|);
    assert s.mms[..|s.mms|] == s.mms;
    forall f | f in own ensures Task(own[f]) < |s.mms| {
      assert Node(s, own[f]) == Some(f);
      RootExists(s, own[f]);
    }
    assert FramesFlagged(s.mem.descs, PageTable) == InnerTables(own, |s.mms|);
  }

  /** In every state a run from boot can reach, the counts of get_mem_stats make up all frames, and the
      page-table frames are those the tasks have on record. */
  lemma RunCensus(s0: System, ops: seq<Op>, s: System)
    requires Boot(s0) && Run(s0, ops, s)
    ensures Sized(s.mem) && CountFlag(s.mem.descs, PageTable) == RecordedTables(s.mms)
    ensures FreeCount(s) + CountFlag(s.mem.descs, Kernel) + CountFlag(s.mem.descs, User) + RecordedTables(s.mms) ==
      |s.mem.descs|
  {
    BootInv(s0);
    RunKeepsInv(s0, ops, s);
    PageTableCount(s);
    CountsAddUp(s.mem.descs);
  }
}
