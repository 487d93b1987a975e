/** What copy_virt_memory means for the child, the parent and everybody else. */
module ForkTheorems {
  import opened Basics
  import opened Frames
  import opened PageTables
  import opened Mapping
  import opened Areas
  import opened Fork

  function WithAreas(s: System, src: nat, dst: nat): System
    requires src < |s.mms| && dst < |s.mms|
  {
    s.(mms := s.mms[dst := s.mms[dst].(vmas := s.mms[src].vmas)])
  }

  /** copy_virt_memory: the areas first, then page by page; false stands for E_NOMEM. */
  function CopyVirtMemory(s: System, src: nat, dst: nat): (System, bool)
    requires Sized(s.mem) && src < |s.mms| && dst < |s.mms| && Low(s.mms[src].vmas)
  {
    CopyPages(WithAreas(s, src, dst), src, dst, AllPages(s.mms[src].vmas))
  }

  lemma WithAreasSame(s: System, src: nat, dst: nat)
    requires IsForest(s) && Sized(s.mem) && src < |s.mms| && dst < |s.mms|
    ensures IsForest(WithAreas(s, src, dst)) && SameNodes(s, WithAreas(s, src, dst))
  {
    hide Labelled, Flagged, Encoded, Listed, Node, Sized;
    var own :| Forest(s, own);
    ForestFrame(s, own, WithAreas(s, src, dst));
    SameTablesSameNodes(s, own, WithAreas(s, src, dst));
  }

  /** The address of the page an address lies in, with the bits above 47 dropped. */
  function Canon(va: Word): (r: Word)
    ensures r % PAGE_SIZE == 0 && r < VA_LIMIT && Vpn(r) == Vpn(va)
  {
    Vpn(va) * PAGE_SIZE
  }

  /** The child maps exactly the parent's mapped pages that lie in its areas. */
  lemma ForkMapsTheSame(s: System, src: nat, dst: nat, va: Word)
    requires IsForest(s) && Sized(s.mem) && src < |s.mms| && dst < |s.mms| && src != dst
    requires s.mms[dst].pgd == 0 && Good(s.mms[src].vmas) && Low(s.mms[src].vmas)
    requires CopyRoom(WithAreas(s, src, dst), src, dst, AllPages(s.mms[src].vmas)) && CopyVirtMemory(s, src, dst).1
    ensures var s' := CopyVirtMemory(s, src, dst).0;
      && Sized(s'.mem) && |s'.mem.frames| == |s.mem.frames|
      && (IsMapped(s', dst, va) <==> IsMapped(s, src, va) && Find(s.mms[src].vmas, Canon(va)).Some?)
      && (IsMapped(s', dst, va) ==> Copied(s, s', src, dst, va))
  {
    var v := s.mms[src].vmas;
    var s0, vas, x := WithAreas(s, src, dst), AllPages(v), Canon(va);
    var s' := CopyVirtMemory(s, src, dst).0;
    AllPagesAre(v);
    WithAreasSame(s, src, dst);
    CopyPagesCorrect(s0, src, dst, vas);
    SamePage(src, va, src, x);
    SamePage(dst, va, dst, x);
    NoPgd(s, PathTo(dst, va, LEVELS));
    if IsMapped(s, src, va) && Find(v, x).Some? {
      assert x in vas;
      var i :| 0 <= i < |vas| && vas[i] == x;
      assert Copied(s0, s', src, dst, vas[i]);
    } else {
      forall i | 0 <= i < |vas| && Vpn(vas[i]) == Vpn(va) ensures !IsMapped(s0, src, vas[i]) {
        assert vas[i] in vas;
        FindLow(v, vas[i]);
        PageVpn(vas[i], x);
      }
      assert !Requested(s0, src, vas, va);
    }
  }

  lemma FindLow(v: seq<VmArea>, x: Word)
    requires Low(v) && Find(v, x).Some?
    ensures x < VA_LIMIT
  {}

  lemma {:induction false} NoPgd(s: System, p: Path)
    requires Task(p) < |s.mms| && s.mms[Task(p)].pgd == 0
    ensures Node(s, p).None?
  {
    if p.Step? {
      NoPgd(s, p.up);
    }
  }

  /** Every word the parent can read in its areas reads the same in the child. */
  lemma ForkCopiesMeaning(s: System, src: nat, dst: nat, va: Word, i: nat)
    requires IsForest(s) && Sized(s.mem) && src < |s.mms| && dst < |s.mms| && src != dst
    requires s.mms[dst].pgd == 0 && Good(s.mms[src].vmas) && Low(s.mms[src].vmas)
    requires CopyRoom(WithAreas(s, src, dst), src, dst, AllPages(s.mms[src].vmas)) && CopyVirtMemory(s, src, dst).1
    requires i < PTRS_PER_TABLE
    ensures Load(CopyVirtMemory(s, src, dst).0, dst, va, i) ==
      if Find(s.mms[src].vmas, Canon(va)).Some? then Load(s, src, va, i) else None
  {
    ForkMapsTheSame(s, src, dst, va);
  }

  /** Copying, complete or not, keeps the forest and changes no word any other task can read. */
  lemma {:induction false} CopyPagesSafe(s: System, src: nat, dst: nat, vas: seq<Word>)
    requires IsForest(s) && Sized(s.mem) && dst < |s.mms| && src != dst && CopyRoom(s, src, dst, vas)
    ensures var s' := CopyPages(s, src, dst, vas).0;
      && Sized(s'.mem) && IsForest(s') && Keeps(s, s', dst) && OthersSame(s, s', dst)
      && s'.mms[dst].vmas == s.mms[dst].vmas
    decreases |vas|
  {
    if vas != [] && !IsMapped(s, src, vas[0]) {
      CopyPagesSafe(s, src, dst, vas[1..]);
    } else if vas != [] && FirstFree(s.mem.descs) < |s.mem.descs| {
      var s1 := CopyOne(s, src, dst, vas[0]);
      CopyOneCorrect(s, src, dst, vas[0]);
      CopyPagesSafe(s1, src, dst, vas[1..]);
      SafeCons(s, s1, CopyPages(s1, src, dst, vas[1..]).0, src, dst, vas[0], FirstFree(s.mem.descs));
    }
  }

  lemma SafeCons(s: System, s1: System, s': System, src: nat, dst: nat, va: Word, g: nat)
    requires OneCopied(s, s1, src, dst, va, g) && Sized(s'.mem) && Keeps(s1, s', dst) && OthersSame(s1, s', dst)
    ensures Keeps(s, s', dst) && OthersSame(s, s', dst)
  {
    KeepsBoth(s, s1, s', dst);
    MappedOthers(s, s1, dst, va, g);
  }

  /** Copying, complete or cut short, leaves every other task's words alone and gives the child the parent's areas. */
  lemma ForkIsolates(s: System, src: nat, dst: nat, u: nat, va: Word, i: nat)
    requires IsForest(s) && Sized(s.mem) && src < |s.mms| && dst < |s.mms| && src != dst && Low(s.mms[src].vmas)
    requires CopyRoom(WithAreas(s, src, dst), src, dst, AllPages(s.mms[src].vmas))
    requires u != dst && i < PTRS_PER_TABLE
    ensures IsForest(CopyVirtMemory(s, src, dst).0)
    ensures Load(CopyVirtMemory(s, src, dst).0, u, va, i) == Load(s, u, va, i)
    ensures var mms := CopyVirtMemory(s, src, dst).0.mms; dst < |mms| && mms[dst].vmas == s.mms[src].vmas
  {
    WithAreasSame(s, src, dst);
    var s0 := WithAreas(s, src, dst);
    CopyPagesSafe(s0, src, dst, AllPages(s.mms[src].vmas));
    OthersRead(s0, CopyVirtMemory(s, src, dst).0, dst, u, va, i);
  }

  lemma OthersRead(s: System, s': System, dst: nat, u: nat, va: Word, i: nat)
    requires IsForest(s) && Sized(s.mem) && Sized(s'.mem) && Keeps(s, s', dst) && OthersSame(s, s', dst)
    requires u != dst && i < PTRS_PER_TABLE
    ensures Load(s', u, va, i) == Load(s, u, va, i)
  {
    if IsMapped(s, u, va) {
      LeafIsUser(s, PathTo(u, va, LEVELS));
    }
  }

  // ---- how much room copying needs

  /** The table positions on the way to `p` that do not exist yet. */
  function MissingSet(s: System, p: Path): set<Path> {
    (if Node(s, p).None? then {p} else {}) + match p case Root(_) => {} case Step(up, _) => MissingSet(s, up)
  }

  /** All table positions copying will have to create. */
  function NewTables(s: System, src: nat, dst: nat, vas: seq<Word>): set<Path> {
    if vas == [] then {}
    else
      (if IsMapped(s, src, vas[0]) then MissingSet(s, PathTo(dst, vas[0], 3)) else {})
      + NewTables(s, src, dst, vas[1..])
  }

  function MappedCount(s: System, src: nat, vas: seq<Word>): nat {
    if vas == [] then 0 else (if IsMapped(s, src, vas[0]) then 1 else 0) + MappedCount(s, src, vas[1..])
  }

  lemma {:induction false} MissingSetIs(s: System, p: Path)
    ensures forall q :: q in MissingSet(s, p) <==> Prefix(q, p) && Node(s, q).None?
    ensures |MissingSet(s, p)| == Missing(s, p)
  {
    if p.Step? {
      MissingSetIs(s, p.up);
      NotPrefix(p, p.up);
    }
  }

  /** Position `q` is missing and lies on the way to a mapped page of the list. */
  predicate Needed(s: System, src: nat, dst: nat, vas: seq<Word>, q: Path) {
    Node(s, q).None? && exists i :: 0 <= i < |vas| && IsMapped(s, src, vas[i]) && Prefix(q, PathTo(dst, vas[i], 3))
  }

  lemma {:induction false} NewTablesAre(s: System, src: nat, dst: nat, vas: seq<Word>)
    ensures forall q :: q in NewTables(s, src, dst, vas) <==> Needed(s, src, dst, vas, q)
  {
    if vas != [] {
      NewTablesAre(s, src, dst, vas[1..]);
      MissingSetIs(s, PathTo(dst, vas[0], 3));
      forall q ensures q in NewTables(s, src, dst, vas) <==> Needed(s, src, dst, vas, q) {
        NeededCons(s, src, dst, vas, q);
      }
    }
  }

  lemma NeededCons(s: System, src: nat, dst: nat, vas: seq<Word>, q: Path)
    requires vas != []
    ensures Needed(s, src, dst, vas, q) <==>
      || Needed(s, src, dst, vas[1..], q)
      || (Node(s, q).None? && IsMapped(s, src, vas[0]) && Prefix(q, PathTo(dst, vas[0], 3)))
  {
    hide Node, PathTo, Prefix, IsMapped;
    forall i | 0 < i < |vas| ensures vas[1..][i - 1] == vas[i] {}
    if Needed(s, src, dst, vas[1..], q) {
      var i :| 0 <= i < |vas[1..]| && IsMapped(s, src, vas[1..][i]) && Prefix(q, PathTo(dst, vas[1..][i], 3));
      assert vas[i + 1] == vas[1..][i];
    }
  }

  /** With enough free frames and enough record slots, copying runs to completion. */
  lemma {:induction false} RoomSuffices(s: System, src: nat, dst: nat, vas: seq<Word>)
    requires IsForest(s) && Sized(s.mem) && dst < |s.mms| && src != dst
    requires FreeCount(s) >= |NewTables(s, src, dst, vas)| + MappedCount(s, src, vas)
    requires |s.mms[dst].kernelPages| + |NewTables(s, src, dst, vas)| <= MAX_PROCESS_PAGES
    ensures CopyRoom(s, src, dst, vas) && CopyPages(s, src, dst, vas).1
    decreases |vas|
  {
    if vas == [] {
    } else if !IsMapped(s, src, vas[0]) {
      RoomSuffices(s, src, dst, vas[1..]);
    } else {
      var p := PathTo(dst, vas[0], 3);
      var s1 := CopyOne(s, src, dst, vas[0]);
      RoomStep(s, src, dst, vas);
      MissingSetIs(s, p);
      FreeExists(s.mem.descs);
      CopyOneCorrect(s, src, dst, vas[0]);
      RoomAfter(s, s1, src, dst, vas, FirstFree(s.mem.descs));
      RoomSuffices(s1, src, dst, vas[1..]);
    }
  }

  lemma RoomStep(s: System, src: nat, dst: nat, vas: seq<Word>)
    requires vas != [] && IsMapped(s, src, vas[0])
    ensures var m, r := MissingSet(s, PathTo(dst, vas[0], 3)), NewTables(s, src, dst, vas[1..]);
      NewTables(s, src, dst, vas) == m + (r - m) && |NewTables(s, src, dst, vas)| == |m| + |r - m|
    ensures MappedCount(s, src, vas) == 1 + MappedCount(s, src, vas[1..])
  {}

  lemma RoomAfter(s: System, s1: System, src: nat, dst: nat, vas: seq<Word>, g: nat)
    requires vas != [] && src != dst && OneCopied(s, s1, src, dst, vas[0], g)
    ensures NewTables(s1, src, dst, vas[1..]) ==
      NewTables(s, src, dst, vas[1..]) - MissingSet(s, PathTo(dst, vas[0], 3))
    ensures MappedCount(s1, src, vas[1..]) == MappedCount(s, src, vas[1..])
  {
    var p, rest := PathTo(dst, vas[0], 3), vas[1..];
    MappedOthers(s, s1, dst, vas[0], g);
    SameCount(s, s1, src, dst, rest);
    NewTablesAre(s, src, dst, rest);
    NewTablesAre(s1, src, dst, rest);
    MissingSetIs(s, p);
    forall q | Level(q) <= 3 ensures Node(s1, q).None? <==> Node(s, q).None? && !Prefix(q, p) {
      if Prefix(q, p) {
        PrefixExists(s1, q, p);
      }
    }
    forall q ensures q in NewTables(s1, src, dst, rest) <==> q in NewTables(s, src, dst, rest) - MissingSet(s, p) {
      TableAfter(s, s1, src, dst, rest, p, q);
    }
  }

  lemma TableAfter(s: System, s1: System, src: nat, dst: nat, vas: seq<Word>, p: Path, q: Path)
    requires forall va: Word :: IsMapped(s1, src, va) == IsMapped(s, src, va)
    requires Level(q) <= 3 ==> (Node(s1, q).None? <==> Node(s, q).None? && !Prefix(q, p))
    ensures q in NewTables(s1, src, dst, vas) <==> q in NewTables(s, src, dst, vas) - MissingSet(s, p)
  {
    NewTablesAre(s, src, dst, vas);
    NewTablesAre(s1, src, dst, vas);
    MissingSetIs(s, p);
    forall i | 0 <= i < |vas| && Prefix(q, PathTo(dst, vas[i], 3)) ensures Level(q) <= 3 {
      PrefixLevel(q, PathTo(dst, vas[i], 3));
    }
  }

  lemma {:induction false} SameCount(s: System, s1: System, src: nat, dst: nat, vas: seq<Word>)
    requires OthersSame(s, s1, dst) && src != dst
    ensures MappedCount(s1, src, vas) == MappedCount(s, src, vas)
    ensures forall va: Word :: IsMapped(s1, src, va) == IsMapped(s, src, va)
  {
    if vas != [] {
      SameCount(s, s1, src, dst, vas[1..]);
    }
  }

  lemma {:induction false} PrefixExists(s: System, q: Path, p: Path)
    requires Prefix(q, p) && Node(s, p).Some?
    ensures Node(s, q).Some?
  {
    if q != p {
      PrefixExists(s, q, p.up);
    }
  }
}
