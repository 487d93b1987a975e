/** User pages, loads and stores through the tables, and the copy loop of a fork. */
module Fork {
  import opened Basics
  import opened Frames
  import opened PageTables
  import opened Mapping
  import opened Areas

  // ---- one user page

  /** allocate_user_page: the first free frame, mapped at `va`; false when memory is exhausted. */
  function AllocUser(s: System, t: nat, va: Word): (System, bool)
    requires Sized(s.mem) && t < |s.mms|
  {
    var g := FirstFree(s.mem.descs);
    if g == |s.mem.descs| then (s, false)
    else (MapPage(s.(mem := Claimed(s.mem, g, User)), t, va, g), true)
  }

  lemma {:induction false} MissingSame(s: System, s': System, p: Path)
    requires Level(p) <= LEVELS && SameNodes(s, s')
    ensures Missing(s', p) == Missing(s, p)
  {
    if p.Step? {
      MissingSame(s, s', p.up);
    }
  }

  ghost predicate SameNodes(s: System, s': System) {
    forall q | Level(q) <= LEVELS :: Node(s', q) == Node(s, q)
  }

  lemma FreeUnreferenced(s: System, f: nat)
    requires IsForest(s) && Sized(s.mem) && f < |s.mem.descs| && s.mem.descs[f].flag == Free
    ensures !Referenced(s, f)
  {
    var own :| Forest(s, own);
    TableLabels(s, own, f, 0);
  }

  lemma ClaimStep(s: System, g: nat, fl: Flag, t: nat)
    requires IsForest(s) && Sized(s.mem)
    requires g < |s.mem.descs| && s.mem.descs[g].flag == Free && (fl == Kernel || fl == User)
    ensures var s' := s.(mem := Claimed(s.mem, g, fl));
      && Sized(s'.mem) && IsForest(s') && Keeps(s, s', t) && SameNodes(s, s')
      && FreeCount(s) == FreeCount(s') + 1
  {
    var own :| Forest(s, own);
    var s' := s.(mem := Claimed(s.mem, g, fl));
    ForestClaim(s, own, g, fl);
    CountUpdate(s.mem.descs, g, Desc(fl, 1, -1), Free);
    SameTablesSameNodes(s, own, s');
    ClaimKeeps(s, s', g, fl, t);
  }

  lemma SameTablesSameNodes(s: System, own: map<nat, Path>, s': System)
    requires Labelled(s, own) && SamePgds(s, s') && SameTables(s, own, s')
    ensures SameNodes(s, s')
  {
    forall q | Level(q) <= LEVELS ensures Node(s', q) == Node(s, q) {
      NodeFrame(s, own, s', q);
    }
  }

  lemma ClaimKeeps(s: System, s': System, g: nat, fl: Flag, t: nat)
    requires Sized(s.mem) && g < |s.mem.descs| && s.mem.descs[g].flag == Free && SameNodes(s, s')
    requires s' == s.(mem := Claimed(s.mem, g, fl))
    ensures Keeps(s, s', t)
  {
    SameHolds(s, s', t);
  }

  lemma AllocUserCorrect(s: System, t: nat, va: Word)
    requires IsForest(s) && Sized(s.mem) && t < |s.mms| && FreeCount(s) > Missing(s, PathTo(t, va, 3))
    ensures var g := FirstFree(s.mem.descs); var (s', ok) := AllocUser(s, t, va);
      && ok && g < |s.mem.descs| && Mapped(s, s', t, va, g) && Takes(s, s', t, Missing(s, PathTo(t, va, 3)), 1)
      && s'.mem.descs[g].flag == User && s'.mem.frames[g] == ZeroPage()
  {
    FreeExists(s.mem.descs);
    var g := FirstFree(s.mem.descs);
    var s1 := s.(mem := Claimed(s.mem, g, User));
    ClaimStep(s, g, User, t);
    FreeUnreferenced(s, g);
    MissingSame(s, s1, PathTo(t, va, 3));
    SameReferenced(s, s1, g);
    var s' := MapPage(s1, t, va, g);
    assert AllocUser(s, t, va) == (s', true);
    assert FreeCount(s1) >= Missing(s1, PathTo(t, va, 3)) && s1.mms == s.mms && s1.mem.descs[g].flag == User;
    assert s1.mem.frames[g] == ZeroPage();
    AllocTakes(s, s1, s', t, Missing(s, PathTo(t, va, 3)));
    hide *;
    MapPageCorrect(s1, t, va, g);
    MappedAfterSame(s, s1, MapPage(s1, t, va, g), t, va, g);
  }

  lemma AllocTakes(s: System, s1: System, s': System, t: nat, k: nat)
    requires s1.mms == s.mms && FreeCount(s) == FreeCount(s1) + 1
    ensures Takes(s1, s', t, k, 0) ==> Takes(s, s', t, k, 1)
  {}

  lemma SameReferenced(s: System, s1: System, g: nat)
    requires SameNodes(s, s1) && !Referenced(s, g)
    ensures !Referenced(s1, g)
  {
    forall p | Level(p) <= LEVELS ensures Node(s1, p) != Some(g) {
      assert Node(s1, p) == Node(s, p);
    }
  }

  lemma MappedAfterSame(s: System, s1: System, s': System, t: nat, va: Word, g: nat)
    requires Sized(s.mem) && Sized(s1.mem) && SameNodes(s, s1) && Keeps(s, s1, t) && Mapped(s1, s', t, va, g)
    ensures Mapped(s, s', t, va, g)
  {
    KeepsBoth(s, s1, s', t);
  }

  // ---- loads and stores through the tables

  function Load(s: System, t: nat, va: Word, i: nat): Option<Word>
    requires i < PTRS_PER_TABLE
  {
    match Node(s, PathTo(t, va, LEVELS))
    case None => None
    case Some(f) => Some(s.mem.frames[f][i])
  }

  function Store(s: System, t: nat, va: Word, i: nat, w: Word): System
    requires i < PTRS_PER_TABLE
  {
    match Node(s, PathTo(t, va, LEVELS))
    case None => s
    case Some(f) => s.(mem := s.mem.(frames := s.mem.frames[f := s.mem.frames[f][i := w]]))
  }

  /** Writing a leaf frame moves no node. */
  lemma FillLeaf(s: System, p: Path, s': System)
    requires IsForest(s) && Level(p) == LEVELS && Node(s, p).Some?
    requires |s'.mem.frames| == |s.mem.frames| && s'.mms == s.mms && s'.mem.descs == s.mem.descs
    requires forall h: nat | h < |s.mem.frames| && Some(h) != Node(s, p) :: s'.mem.frames[h] == s.mem.frames[h]
    ensures IsForest(s') && SameNodes(s, s')
  {
    var own :| Forest(s, own);
    assert own[Node(s, p).value] == p;
    ForestFrame(s, own, s');
    forall q | Level(q) <= LEVELS ensures Node(s', q) == Node(s, q) {
      NodeFrame(s, own, s', q);
    }
  }

  /** No two positions lead to the same frame. */
  lemma NodesDistinct(s: System, p: Path, q: Path)
    requires IsForest(s) && Level(p) <= LEVELS && Level(q) <= LEVELS
    requires Node(s, p).Some? && Node(s, p) == Node(s, q)
    ensures p == q
  {
    var own :| Forest(s, own);
    assert own[Node(s, p).value] == p;
  }

  lemma StoreNodes(s: System, t: nat, va: Word, i: nat, w: Word)
    requires IsForest(s) && i < PTRS_PER_TABLE
    ensures IsForest(Store(s, t, va, i, w)) && SameNodes(s, Store(s, t, va, i, w))
  {
    if Node(s, PathTo(t, va, LEVELS)).Some? {
      FillLeaf(s, PathTo(t, va, LEVELS), Store(s, t, va, i, w));
    }
  }

  /** A store through one task's tables is seen at exactly one word of one page of that task. */
  lemma StoreIsLocal(s: System, t: nat, va: Word, i: nat, w: Word, u: nat, vb: Word, j: nat)
    requires IsForest(s) && i < PTRS_PER_TABLE && j < PTRS_PER_TABLE
    ensures IsForest(Store(s, t, va, i, w))
    ensures Load(Store(s, t, va, i, w), u, vb, j) ==
      if Load(s, t, va, i).Some? && u == t && Vpn(vb) == Vpn(va) && i == j then Some(w) else Load(s, u, vb, j)
  {
    hide IsForest, PathTo, Node, Vpn;
    var p, q := PathTo(t, va, LEVELS), PathTo(u, vb, LEVELS);
    SamePage(t, va, u, vb);
    StoreNodes(s, t, va, i, w);
    assert Node(Store(s, t, va, i, w), q) == Node(s, q);
    if Node(s, p).Some? && Node(s, q) == Node(s, p) {
      NodesDistinct(s, p, q);
    }
  }

  // ---- copy_virt_memory

  predicate IsMapped(s: System, t: nat, va: Word) { Node(s, PathTo(t, va, LEVELS)).Some? }

  function CopyOne(s: System, src: nat, dst: nat, va: Word): System
    requires Sized(s.mem) && dst < |s.mms|
  {
    var g := FirstFree(s.mem.descs);
    var s1 := AllocUser(s, dst, va).0;
    match Node(s1, PathTo(src, va, LEVELS))
    case None => s1
    case Some(f) =>
      if g < |s1.mem.frames| then s1.(mem := s1.mem.(frames := s1.mem.frames[g := s1.mem.frames[f]])) else s1
  }

  /** `va` of the child now leads to frame `g`, a free one before, holding the parent's page. */
  ghost predicate OneCopied(s: System, s': System, src: nat, dst: nat, va: Word, g: nat) {
    && Mapped(s, s', dst, va, g)
    && g < |s.mem.descs| && s.mem.descs[g].flag == Free && s'.mem.descs[g].flag == User
    && IsMapped(s, src, va)
    && s'.mem.frames[g] == s.mem.frames[Node(s, PathTo(src, va, LEVELS)).value]
  }

  lemma CopyOneCorrect(s: System, src: nat, dst: nat, va: Word)
    requires IsForest(s) && Sized(s.mem) && dst < |s.mms| && src != dst && FreeCount(s) > Missing(s, PathTo(dst, va, 3))
    requires IsMapped(s, src, va)
    ensures OneCopied(s, CopyOne(s, src, dst, va), src, dst, va, FirstFree(s.mem.descs))
    ensures Takes(s, CopyOne(s, src, dst, va), dst, Missing(s, PathTo(dst, va, 3)), 1)
  {
    var g := FirstFree(s.mem.descs);
    AllocUserCorrect(s, dst, va);
    var s1 := AllocUser(s, dst, va).0;
    ParentLeaf(s, s1, src, dst, va, g);
    var f := Node(s, PathTo(src, va, LEVELS)).value;
    CopyOneIs(s, src, dst, va, s1, f);
    hide *;
    CopyFilled(s, s1, src, dst, va, g, f, CopyOne(s, src, dst, va));
  }

  lemma CopyOneIs(s: System, src: nat, dst: nat, va: Word, s1: System, f: nat)
    requires Sized(s.mem) && dst < |s.mms| && s1 == AllocUser(s, dst, va).0
    requires Node(s1, PathTo(src, va, LEVELS)) == Some(f) && FirstFree(s.mem.descs) < |s1.mem.frames|
    ensures CopyOne(s, src, dst, va) ==
      s1.(mem := s1.mem.(frames := s1.mem.frames[FirstFree(s.mem.descs) := s1.mem.frames[f]]))
  {}

  lemma CopyFilled(s: System, s1: System, src: nat, dst: nat, va: Word, g: nat, f: nat, s': System)
    requires Mapped(s, s1, dst, va, g) && g < |s.mem.descs| && s.mem.descs[g].flag == Free
    requires s1.mem.descs[g].flag == User
    requires Node(s, PathTo(src, va, LEVELS)) == Some(f) && s1.mem.frames[f] == s.mem.frames[f]
    requires s' == s1.(mem := s1.mem.(frames := s1.mem.frames[g := s1.mem.frames[f]]))
    ensures OneCopied(s, s', src, dst, va, g)
    ensures forall k, u | Takes(s, s1, dst, k, u) :: Takes(s, s', dst, k, u)
  {
    hide IsForest, LeafMoved, TablesAdded, Node, PathTo, HoldsTable;
    FilledMapped(s, s1, dst, va, g, s');
  }

  lemma LeafIsUser(s: System, p: Path)
    requires IsForest(s) && Sized(s.mem) && Level(p) == LEVELS && Node(s, p).Some?
    ensures s.mem.descs[Node(s, p).value].flag == User
    ensures forall t :: !HoldsTable(s, Node(s, p).value, t)
  {
    var own :| Forest(s, own);
    var f := Node(s, p).value;
    assert own[f] == p;
    forall t ensures !HoldsTable(s, f, t) {
      TableLabels(s, own, f, t);
    }
  }

  /** Mapping a page of the child leaves the parent's page where it was. */
  lemma ParentLeaf(s: System, s1: System, src: nat, dst: nat, va: Word, g: nat)
    requires Sized(s.mem) && IsForest(s) && src != dst && IsMapped(s, src, va)
    requires Mapped(s, s1, dst, va, g) && g < |s.mem.descs| && s.mem.descs[g].flag == Free
    ensures var f := Node(s, PathTo(src, va, LEVELS)).value;
      Node(s1, PathTo(src, va, LEVELS)) == Some(f) && f != g && s1.mem.frames[f] == s.mem.frames[f]
  {
    LeafIsUser(s, PathTo(src, va, LEVELS));
  }

  lemma FilledMapped(s: System, s1: System, t: nat, va: Word, g: nat, s': System)
    requires Mapped(s, s1, t, va, g)
    requires g < |s.mem.descs| && s.mem.descs[g].flag == Free
    requires |s'.mem.frames| == |s1.mem.frames| && s'.mms == s1.mms && s'.mem.descs == s1.mem.descs
    requires forall h: nat | h < |s1.mem.frames| && h != g :: s'.mem.frames[h] == s1.mem.frames[h]
    ensures Mapped(s, s', t, va, g)
  {
    hide IsForest, HoldsTable, PathTo, Node;
    FillLeaf(s1, PathTo(t, va, LEVELS), s');
    SameHolds(s1, s', t);
  }

  lemma SameHolds(s: System, s': System, t: nat)
    requires SameNodes(s, s')
    ensures forall f :: HoldsTable(s', f, t) <==> HoldsTable(s, f, t)
  {
    forall f ensures HoldsTable(s', f, t) <==> HoldsTable(s, f, t) {
      assert forall p | Level(p) < LEVELS :: Node(s', p) == Node(s, p);
    }
  }

  /** The copy loop over the pages of the areas; false when a user page could not be had. */
  function CopyPages(s: System, src: nat, dst: nat, vas: seq<Word>): (System, bool)
    requires Sized(s.mem) && dst < |s.mms|
    decreases |vas|
  {
    if vas == [] then (s, true)
    else if !IsMapped(s, src, vas[0]) then CopyPages(s, src, dst, vas[1..])
    else if FirstFree(s.mem.descs) == |s.mem.descs| then (s, false)
    else
      var s1 := CopyOne(s, src, dst, vas[0]);
      if Sized(s1.mem) && |s1.mms| == |s.mms| then CopyPages(s1, src, dst, vas[1..]) else (s, false)
  }

  /** No allocation inside map_table ever runs dry, and no record is written past kernel_pages. */
  predicate CopyRoom(s: System, src: nat, dst: nat, vas: seq<Word>)
    requires Sized(s.mem) && dst < |s.mms|
    decreases |vas|
  {
    if vas == [] then true
    else if !IsMapped(s, src, vas[0]) then CopyRoom(s, src, dst, vas[1..])
    else if FirstFree(s.mem.descs) == |s.mem.descs| then true
    else
      && FreeCount(s) > Missing(s, PathTo(dst, vas[0], 3))
      && |s.mms[dst].kernelPages| + Missing(s, PathTo(dst, vas[0], 3)) <= MAX_PROCESS_PAGES
      && var s1 := CopyOne(s, src, dst, vas[0]);
         Sized(s1.mem) && |s1.mms| == |s.mms| && CopyRoom(s1, src, dst, vas[1..])
  }

  /** Page `va` of the child holds the parent's words, in a frame that was free before. */
  ghost predicate Copied(s: System, s': System, src: nat, dst: nat, va: Word)
    requires Sized(s.mem) && Sized(s'.mem) && |s'.mem.frames| == |s.mem.frames|
  {
    && IsMapped(s, src, va) && IsMapped(s', dst, va)
    && var f := Node(s, PathTo(src, va, LEVELS)).value; var g := Node(s', PathTo(dst, va, LEVELS)).value;
       s.mem.descs[g].flag == Free && s'.mem.descs[g].flag == User && s'.mem.frames[g] == s.mem.frames[f]
  }

  predicate Requested(s: System, src: nat, vas: seq<Word>, va: Word) {
    exists i :: 0 <= i < |vas| && Vpn(vas[i]) == Vpn(va) && IsMapped(s, src, vas[i])
  }

  ghost predicate OthersSame(s: System, s': System, dst: nat) {
    forall q | Level(q) <= LEVELS && Task(q) != dst :: Node(s', q) == Node(s, q)
  }

  ghost predicate OutsideSame(s: System, s': System, src: nat, dst: nat, vas: seq<Word>) {
    forall va: Word | !Requested(s, src, vas, va) ::
      Node(s', PathTo(dst, va, LEVELS)) == Node(s, PathTo(dst, va, LEVELS))
  }

  ghost predicate AllCopied(s: System, s': System, src: nat, dst: nat, vas: seq<Word>)
    requires Sized(s.mem) && Sized(s'.mem) && |s'.mem.frames| == |s.mem.frames|
  {
    forall i | 0 <= i < |vas| && IsMapped(s, src, vas[i]) :: Copied(s, s', src, dst, vas[i])
  }

  /** What copying leaves behind in the page tables and the frames. */
  ghost predicate CopyEffect(s: System, s': System, src: nat, dst: nat, vas: seq<Word>) {
    && Sized(s.mem) && Sized(s'.mem) && IsForest(s') && Keeps(s, s', dst)
    && OthersSame(s, s', dst) && OutsideSame(s, s', src, dst, vas) && AllCopied(s, s', src, dst, vas)
  }

  lemma {:induction false} CopyPagesCorrect(s: System, src: nat, dst: nat, vas: seq<Word>)
    requires IsForest(s) && Sized(s.mem) && dst < |s.mms| && src != dst
    requires DistinctPages(vas) && CopyRoom(s, src, dst, vas) && CopyPages(s, src, dst, vas).1
    ensures CopyEffect(s, CopyPages(s, src, dst, vas).0, src, dst, vas)
    decreases |vas|
  {
    if vas == [] {
    } else if !IsMapped(s, src, vas[0]) {
      CopyPagesCorrect(s, src, dst, vas[1..]);
      OutsideSkip(s, CopyPages(s, src, dst, vas[1..]).0, src, dst, vas);
      CopiedSkip(s, CopyPages(s, src, dst, vas[1..]).0, src, dst, vas);
    } else {
      CopyUnfold(s, src, dst, vas);
      hide *;
      var s1 := CopyOne(s, src, dst, vas[0]);
      CopyOneCorrect(s, src, dst, vas[0]);
      CopyPagesCorrect(s1, src, dst, vas[1..]);
      CopyCons(s, s1, CopyPages(s1, src, dst, vas[1..]).0, src, dst, vas, FirstFree(s.mem.descs));
    }
  }

  lemma CopyUnfold(s: System, src: nat, dst: nat, vas: seq<Word>)
    requires Sized(s.mem) && dst < |s.mms| && vas != [] && IsMapped(s, src, vas[0])
    requires CopyRoom(s, src, dst, vas) && CopyPages(s, src, dst, vas).1
    ensures FreeCount(s) > Missing(s, PathTo(dst, vas[0], 3))
    ensures var s1 := CopyOne(s, src, dst, vas[0]);
      Sized(s1.mem) && |s1.mms| == |s.mms| && CopyRoom(s1, src, dst, vas[1..])
      && CopyPages(s1, src, dst, vas[1..]) == CopyPages(s, src, dst, vas)
  {}

  lemma OutsideSkip(s: System, s': System, src: nat, dst: nat, vas: seq<Word>)
    requires vas != [] && !IsMapped(s, src, vas[0]) && OutsideSame(s, s', src, dst, vas[1..])
    ensures OutsideSame(s, s', src, dst, vas)
  {
    forall va: Word | !Requested(s, src, vas, va)
      ensures Node(s', PathTo(dst, va, LEVELS)) == Node(s, PathTo(dst, va, LEVELS))
    {
      forall i | 0 <= i < |vas[1..]| && Vpn(vas[1..][i]) == Vpn(va) ensures !IsMapped(s, src, vas[1..][i]) {
        assert vas[1..][i] == vas[i + 1];
      }
    }
  }

  lemma CopiedSkip(s: System, s': System, src: nat, dst: nat, vas: seq<Word>)
    requires Sized(s.mem) && Sized(s'.mem) && |s'.mem.frames| == |s.mem.frames|
    requires vas != [] && !IsMapped(s, src, vas[0]) && AllCopied(s, s', src, dst, vas[1..])
    ensures AllCopied(s, s', src, dst, vas)
  {
    forall i | 0 <= i < |vas| && IsMapped(s, src, vas[i]) ensures Copied(s, s', src, dst, vas[i]) {
      assert vas[1..][i - 1] == vas[i];
    }
  }

  lemma CopyCons(s: System, s1: System, s': System, src: nat, dst: nat, vas: seq<Word>, g: nat)
    requires IsForest(s) && src != dst && vas != [] && DistinctPages(vas)
    requires OneCopied(s, s1, src, dst, vas[0], g) && CopyEffect(s1, s', src, dst, vas[1..])
    ensures CopyEffect(s, s', src, dst, vas)
  {
    KeepsBoth(s, s1, s', dst);
    MappedOthers(s, s1, dst, vas[0], g);
    OutsideCons(s, s1, s', src, dst, vas);
    ConsFirst(s, s1, s', src, dst, vas, g);
    CopiedCons(s, s1, s', src, dst, vas);
  }

  lemma MappedOthers(s: System, s1: System, t: nat, va: Word, g: nat)
    requires Mapped(s, s1, t, va, g)
    ensures OthersSame(s, s1, t)
    ensures forall vb: Word | Vpn(vb) != Vpn(va) :: Node(s1, PathTo(t, vb, LEVELS)) == Node(s, PathTo(t, vb, LEVELS))
  {
    forall q | Level(q) <= LEVELS && Task(q) != t ensures Node(s1, q) == Node(s, q) {
      if Prefix(q, PathTo(t, va, 3)) {
        PrefixLevel(q, PathTo(t, va, 3));
      }
    }
    forall vb: Word | Vpn(vb) != Vpn(va) ensures Node(s1, PathTo(t, vb, LEVELS)) == Node(s, PathTo(t, vb, LEVELS)) {
      SamePage(t, vb, t, va);
    }
  }

  lemma OutsideCons(s: System, s1: System, s': System, src: nat, dst: nat, vas: seq<Word>)
    requires src != dst && vas != [] && OthersSame(s, s1, dst) && IsMapped(s, src, vas[0])
    requires forall vb: Word | Vpn(vb) != Vpn(vas[0]) ::
      Node(s1, PathTo(dst, vb, LEVELS)) == Node(s, PathTo(dst, vb, LEVELS))
    requires OutsideSame(s1, s', src, dst, vas[1..])
    ensures OutsideSame(s, s', src, dst, vas)
  {
    forall va: Word | !Requested(s, src, vas, va)
      ensures Node(s', PathTo(dst, va, LEVELS)) == Node(s, PathTo(dst, va, LEVELS))
    {
      forall i | 0 <= i < |vas[1..]| && Vpn(vas[1..][i]) == Vpn(va) ensures !IsMapped(s1, src, vas[1..][i]) {
        assert vas[1..][i] == vas[i + 1];
      }
    }
  }

  /** The page just copied survives the copying of the rest. */
  lemma ConsFirst(s: System, s1: System, s': System, src: nat, dst: nat, vas: seq<Word>, g: nat)
    requires src != dst && vas != [] && DistinctPages(vas)
    requires OneCopied(s, s1, src, dst, vas[0], g) && CopyEffect(s1, s', src, dst, vas[1..])
    ensures |s'.mem.frames| == |s.mem.frames| && Copied(s, s', src, dst, vas[0])
  {
    var p := PathTo(dst, vas[0], LEVELS);
    forall i | 0 <= i < |vas[1..]| ensures Vpn(vas[1..][i]) != Vpn(vas[0]) {
      assert vas[1..][i] == vas[i + 1];
    }
    assert !Requested(s1, src, vas[1..], vas[0]);
    assert Node(s', p) == Node(s1, p) == Some(g);
    LeafIsUser(s1, p);
  }

  lemma CopiedCons(s: System, s1: System, s': System, src: nat, dst: nat, vas: seq<Word>)
    requires Sized(s.mem) && IsForest(s) && Sized(s1.mem) && Sized(s'.mem) && src != dst
    requires Keeps(s, s1, dst) && OthersSame(s, s1, dst) && |s'.mem.frames| == |s1.mem.frames|
    requires vas != [] && Copied(s, s', src, dst, vas[0]) && AllCopied(s1, s', src, dst, vas[1..])
    ensures AllCopied(s, s', src, dst, vas)
  {
    assert |s1.mem.frames| == |s.mem.frames|;
    hide IsForest, Keeps, Copied, PathTo, Node;
    forall i | 0 <= i < |vas| && IsMapped(s, src, vas[i]) ensures Copied(s, s', src, dst, vas[i]) {
      if i > 0 {
        assert vas[1..][i - 1] == vas[i];
        SameLeaf(s, s1, src, dst, vas[i]);
        CopiedLater(s, s1, s', src, dst, vas[i]);
      }
    }
  }

  lemma SameLeaf(s: System, s1: System, src: nat, dst: nat, va: Word)
    requires OthersSame(s, s1, dst) && src != dst
    ensures Node(s1, PathTo(src, va, LEVELS)) == Node(s, PathTo(src, va, LEVELS))
  {}

  lemma CopiedLater(s: System, s1: System, s': System, src: nat, dst: nat, va: Word)
    requires Sized(s.mem) && IsForest(s) && Sized(s1.mem) && Sized(s'.mem) && |s'.mem.frames| == |s1.mem.frames|
    requires Keeps(s, s1, dst) && Node(s1, PathTo(src, va, LEVELS)) == Node(s, PathTo(src, va, LEVELS))
    requires Copied(s1, s', src, dst, va)
    ensures Copied(s, s', src, dst, va)
  {
    LeafIsUser(s, PathTo(src, va, LEVELS));
  }
}
