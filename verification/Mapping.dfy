/** map_page as a function on the whole system, and its theorem. */
module Mapping {
  import opened Basics
  import opened Frames
  import opened PageTables

  /** The table index a virtual address selects at a level. */
  function Index(va: Word, level: nat): (i: nat)
    ensures i < PTRS_PER_TABLE
  {
    var shifted := if level == 0 then va / 0x80_0000_0000 else if level == 1 then va / 0x4000_0000
                   else if level == 2 then va / 0x20_0000 else va / 0x1000;
    shifted % PTRS_PER_TABLE
  }

  /** Bits 12..47: the page number the tables can tell apart. */
  function Vpn(va: Word): nat { va / PAGE_SIZE % 0x10_0000_0000 }

  predicate InTables(p: Path) {
    p.Step? ==> p.idx < PTRS_PER_TABLE && InTables(p.up)
  }

  function PathTo(t: nat, va: Word, level: nat): (p: Path)
    ensures Level(p) == level && Task(p) == t && InTables(p)
  {
    if level == 0 then Root(t) else Step(PathTo(t, va, level - 1), Index(va, level - 1))
  }

  lemma SamePage(t: nat, va: Word, u: nat, vb: Word)
    ensures PathTo(t, va, LEVELS) == PathTo(u, vb, LEVELS) <==> t == u && Vpn(va) == Vpn(vb)
  {
    PathDigits(t, va);
    PathDigits(u, vb);
    SameDigits(va, vb);
  }

  lemma SameDigits(va: Word, vb: Word)
    ensures Vpn(va) == Vpn(vb) <==> forall l | 0 <= l < LEVELS :: Index(va, l) == Index(vb, l)
  {
    VpnDigits(va);
    VpnDigits(vb);
    if Vpn(va) == Vpn(vb) {
      Digits(Index(va, 0), Index(va, 1), Index(va, 2), Index(va, 3),
             Index(vb, 0), Index(vb, 1), Index(vb, 2), Index(vb, 3));
    }
  }

  lemma Digits(a: nat, b: nat, c: nat, d: nat, a': nat, b': nat, c': nat, d': nat)
    requires b < 512 && c < 512 && d < 512 && b' < 512 && c' < 512 && d' < 512
    requires ((a * 512 + b) * 512 + c) * 512 + d == ((a' * 512 + b') * 512 + c') * 512 + d'
    ensures a == a' && b == b' && c == c' && d == d'
  {}

  lemma PathDigits(t: nat, va: Word)
    ensures PathTo(t, va, LEVELS) ==
      Step(Step(Step(Step(Root(t), Index(va, 0)), Index(va, 1)), Index(va, 2)), Index(va, 3))
  {
    assert PathTo(t, va, 2) == Step(Step(Root(t), Index(va, 0)), Index(va, 1));
  }

  lemma VpnDigits(va: Word)
    ensures Vpn(va) == ((Index(va, 0) * 512 + Index(va, 1)) * 512 + Index(va, 2)) * 512 + Index(va, 3)
  {
    var q := va / 0x1000;
    assert va / 0x20_0000 == q / 512 && va / 0x4000_0000 == q / 512 / 512 && va / 0x80_0000_0000 == q / 512 / 512 / 512;
  }

  function FirstFree(d: seq<Desc>, k: nat := 0): (r: nat)
    requires k <= |d|
    ensures k <= r <= |d|
    ensures forall j | k <= j < r :: d[j].flag != Free
    ensures r < |d| ==> d[r].flag == Free
    decreases |d| - k
  {
    if k == |d| || d[k].flag == Free then k else FirstFree(d, k + 1)
  }

  lemma FirstFreeIs(d: seq<Desc>, i: nat)
    requires i <= |d| && (forall j | 0 <= j < i :: d[j].flag != Free) && (i < |d| ==> d[i].flag == Free)
    ensures FirstFree(d) == i
  {}

  function CountFlag(d: seq<Desc>, fl: Flag): nat {
    if d == [] then 0 else CountFlag(d[..|d| - 1], fl) + if d[|d| - 1].flag == fl then 1 else 0
  }

  lemma {:induction false} CountUpdate(d: seq<Desc>, g: nat, x: Desc, fl: Flag)
    requires g < |d|
    ensures CountFlag(d[g := x], fl) + (if d[g].flag == fl then 1 else 0) ==
      CountFlag(d, fl) + if x.flag == fl then 1 else 0
  {
    var e := d[g := x];
    if g < |d| - 1 {
      assert e[..|d| - 1] == d[..|d| - 1][g := x];
      CountUpdate(d[..|d| - 1], g, x, fl);
    } else {
      assert e[..|d| - 1] == d[..|d| - 1];
    }
  }

  lemma {:induction false} CountPositive(d: seq<Desc>, fl: Flag)
    ensures CountFlag(d, fl) > 0 <==> exists j :: 0 <= j < |d| && d[j].flag == fl
  {
    if d != [] {
      CountPositive(d[..|d| - 1], fl);
      if exists j :: 0 <= j < |d| && d[j].flag == fl {
        var j :| 0 <= j < |d| && d[j].flag == fl;
        if j < |d| - 1 {
          assert d[..|d| - 1][j].flag == fl;
        }
      }
    }
  }

  function FreeCount(s: System): nat { CountFlag(s.mem.descs, Free) }

  // ---- map_page as a function on the whole system

  function EnsureRoot(s: System, t: nat): System
    requires Sized(s.mem) && t < |s.mms|
  {
    var g := FirstFree(s.mem.descs);
    if s.mms[t].pgd != 0 || g == |s.mem.descs| then s else LinkRoot(s, t, g)
  }

  function EnsureTable(s: System, p: Path, i: nat): (s': System)
    requires Sized(s.mem) && Task(p) < |s.mms| && Level(p) < 3 && i < PTRS_PER_TABLE
    ensures Sized(s'.mem) && |s'.mms| == |s.mms|
  {
    match Node(s, p)
    case None => s
    case Some(f) =>
      var g := FirstFree(s.mem.descs);
      if s.mem.frames[f][i] != 0 || g == |s.mem.descs| then s else LinkTable(s, p, f, i, g)
  }

  function SetLeaf(s: System, p: Path, i: nat, g: nat): System
    requires Sized(s.mem) && Level(p) == 3 && i < PTRS_PER_TABLE && g < |s.mem.frames|
  {
    match Node(s, p)
    case None => s
    case Some(f) => LinkLeaf(s, p, f, i, g)
  }

  /** All tables on the way down to position `p` exist afterwards. */
  function EnsurePath(s: System, p: Path): (s': System)
    requires Sized(s.mem) && Task(p) < |s.mms| && Level(p) <= 3
    ensures Sized(s'.mem) && |s'.mms| == |s.mms|
  {
    match p
    case Root(t) => EnsureRoot(s, t)
    case Step(up, i) => if i < PTRS_PER_TABLE then EnsureTable(EnsurePath(s, up), up, i) else s
  }

  function MapPage(s: System, t: nat, va: Word, g: nat): System
    requires Sized(s.mem) && t < |s.mms| && g < |s.mem.frames|
  {
    var s3 := EnsurePath(s, PathTo(t, va, 3));
    if g < |s3.mem.frames| then SetLeaf(s3, PathTo(t, va, 3), Index(va, 3), g) else s
  }

  /** Table frames that must still be allocated to reach position `p`. */
  function Missing(s: System, p: Path): nat {
    (if Node(s, p).None? then 1 else 0) + match p case Root(_) => 0 case Step(up, _) => Missing(s, up)
  }

  predicate Prefix(q: Path, p: Path) {
    q == p || (p.Step? && Prefix(q, p.up))
  }

  lemma {:induction false} PrefixLevel(q: Path, p: Path)
    requires Prefix(q, p)
    ensures Level(q) <= Level(p) && Task(q) == Task(p)
  {
    if q != p {
      PrefixLevel(q, p.up);
    }
  }

  // ---- what the steps of map_page do

  ghost predicate IsTable(own: map<nat, Path>, f: nat, t: nat) {
    f in own && Task(own[f]) == t && Level(own[f]) < LEVELS
  }

  /** Used frames that are not tables of `t`, and all other tasks, stay as they are. */
  ghost predicate KeepsOwn(s: System, own: map<nat, Path>, s': System, own': map<nat, Path>, t: nat)
    requires Sized(s.mem) && Sized(s'.mem)
  {
    && |s'.mem.descs| == |s.mem.descs| && |s'.mms| == |s.mms|
    && (forall u | 0 <= u < |s.mms| && u != t :: s'.mms[u] == s.mms[u])
    && (forall f: nat | f < |s.mem.descs| && s.mem.descs[f].flag != Free :: s'.mem.descs[f] == s.mem.descs[f])
    && (forall f: nat | f < |s.mem.descs| && s.mem.descs[f].flag != Free && !IsTable(own, f, t) ::
          s'.mem.frames[f] == s.mem.frames[f] && !IsTable(own', f, t))
  }

  /** The only new nodes are on the way down to `p`. */
  ghost predicate Extends(s: System, s': System, p: Path) {
    forall q | Level(q) <= LEVELS && !(Node(s, q).None? && Prefix(q, p)) :: Node(s', q) == Node(s, q)
  }

  /** `k` table frames were allocated for `t` and recorded, and `u` frames besides. */
  ghost predicate Takes(s: System, s': System, t: nat, k: nat, u: nat) {
    && |s'.mms| == |s.mms| && t < |s.mms|
    && FreeCount(s) == FreeCount(s') + k + u
    && |s'.mms[t].kernelPages| == |s.mms[t].kernelPages| + k
    && s'.mms[t].vmas == s.mms[t].vmas
  }

  lemma FreeExists(d: seq<Desc>)
    requires CountFlag(d, Free) > 0
    ensures FirstFree(d) < |d|
  {
    CountPositive(d, Free);
  }

  lemma RootStep(s: System, own: map<nat, Path>, t: nat) returns (own': map<nat, Path>)
    requires Forest(s, own) && t < |s.mms| && FreeCount(s) >= Missing(s, Root(t))
    ensures Reached(s, own, EnsureRoot(s, t), own', Root(t), Missing(s, Root(t)))
  {
    if s.mms[t].pgd != 0 {
      own' := own;
      RootNode(s, own, t);
    } else {
      FreeExists(s.mem.descs);
      var g := FirstFree(s.mem.descs);
      own' := own[g := Root(t)];
      assert g !in own;
      RootMoves(s, own, t, g);
      RootKeeps(s, own, t, g);
      var s' := LinkRoot(s, t, g);
      assert Missing(s, Root(t)) == 1 && EnsureRoot(s, t) == s';
      assert Sized(s.mem) && Sized(s'.mem) && Extends(s, s', Root(t)) && Node(s', Root(t)).Some?;
      hide *;
      ForestRoot(s, own, t, g);
    }
  }

  /** What is known once the tables down to position `p` exist. */
  ghost predicate Reached(s: System, own: map<nat, Path>, s': System, own': map<nat, Path>, p: Path, k: nat) {
    && Sized(s.mem) && Sized(s'.mem)
    && Forest(s', own') && KeepsOwn(s, own, s', own', Task(p)) && Extends(s, s', p)
    && Takes(s, s', Task(p), k, 0) && Node(s', p).Some?
  }

  lemma RootKeeps(s: System, own: map<nat, Path>, t: nat, g: nat)
    requires Sized(s.mem) && t < |s.mms| && g < |s.mem.descs| && s.mem.descs[g].flag == Free && g !in own
    ensures KeepsOwn(s, own, LinkRoot(s, t, g), own[g := Root(t)], t) && Takes(s, LinkRoot(s, t, g), t, 1, 0)
  {
    DecodeEntry(g, 0, |s.mem.frames|);
    CountUpdate(s.mem.descs, g, Desc(Kernel, 1, -1), Free);
  }

  lemma RootNode(s: System, own: map<nat, Path>, t: nat)
    requires Listed(s, own) && Sized(s.mem) && t < |s.mms| && s.mms[t].pgd != 0
    ensures Node(s, Root(t)).Some?
  {
    assert ListedFor(s.mms[t], t, own, |s.mem.frames|);
    assert TableOf(s.mms[t].kernelPages[0], t, own, |s.mem.frames|);
  }

  lemma TableStep(s: System, own: map<nat, Path>, p: Path, i: nat) returns (own': map<nat, Path>)
    requires Forest(s, own) && Task(p) < |s.mms| && Level(p) < 3 && i < PTRS_PER_TABLE && Node(s, p).Some?
    requires FreeCount(s) >= if Node(s, Step(p, i)).None? then 1 else 0
    ensures var s' := EnsureTable(s, p, i);
      && Forest(s', own') && KeepsOwn(s, own, s', own', Task(p))
      && Takes(s, s', Task(p), if Node(s, Step(p, i)).None? then 1 else 0, 0)
      && Node(s', Step(p, i)).Some?
      && (forall q | Level(q) <= LEVELS && q != Step(p, i) :: Node(s', q) == Node(s, q))
      && (Node(s, Step(p, i)).Some? ==> s' == s)
  {
    var f := Node(s, p).value;
    assert own[f] == p;
    if s.mem.frames[f][i] != 0 {
      own' := own;
      assert IsEntry(s.mem.frames[f][i], Level(p), |s.mem.frames|);
    } else {
      own' := NewTableStep(s, own, p, f, i);
    }
  }

  lemma NewTableStep(s: System, own: map<nat, Path>, p: Path, f: nat, i: nat) returns (own': map<nat, Path>)
    requires Forest(s, own) && Task(p) < |s.mms| && Level(p) < 3 && i < PTRS_PER_TABLE && Node(s, p) == Some(f)
    requires s.mem.frames[f][i] == 0 && FreeCount(s) >= 1
    ensures var s' := EnsureTable(s, p, i);
      && Forest(s', own') && KeepsOwn(s, own, s', own', Task(p)) && Takes(s, s', Task(p), 1, 0)
      && Node(s', Step(p, i)).Some?
      && (forall q | Level(q) <= LEVELS && q != Step(p, i) :: Node(s', q) == Node(s, q))
  {
    hide Forest, EnsureTable, Node, KeepsOwn, Takes, CanLink, LinkTable;
    var g := NewTableIs(s, own, p, f, i);
    own' := own[g := Step(p, i)];
    ForestTable(s, own, p, f, i, g);
    TableKeeps(s, own, p, f, i, g);
    NewTableMoves(s, own, p, f, i, g);
  }

  lemma NewTableIs(s: System, own: map<nat, Path>, p: Path, f: nat, i: nat) returns (g: nat)
    requires Forest(s, own) && Task(p) < |s.mms| && Level(p) < 3 && i < PTRS_PER_TABLE && Node(s, p) == Some(f)
    requires s.mem.frames[f][i] == 0 && FreeCount(s) >= 1
    ensures Sized(s.mem) && g < |s.mem.frames| && s.mem.descs[g].flag == Free && g !in own && f in own && own[f] == p
    ensures CanLink(s, own, p, f, i, g) && EnsureTable(s, p, i) == LinkTable(s, p, f, i, g)
  {
    FreeExists(s.mem.descs);
    g := FirstFree(s.mem.descs);
    DecodeEntry(g, Level(p), |s.mem.frames|);
  }

  lemma NewTableMoves(s: System, own: map<nat, Path>, p: Path, f: nat, i: nat, g: nat)
    requires CanLink(s, own, p, f, i, g) && Task(p) < |s.mms| && Level(p) < 3
    ensures var s' := LinkTable(s, p, f, i, g);
      Moves(s, s', Step(p, i), g)
  {
    LinkedMoves(s, own, p, f, i, g, LinkTable(s, p, f, i, g));
  }

  lemma TableKeeps(s: System, own: map<nat, Path>, p: Path, f: nat, i: nat, g: nat)
    requires Sized(s.mem) && Level(p) < 3 && Task(p) < |s.mms| && i < PTRS_PER_TABLE
    requires g < |s.mem.descs| && s.mem.descs[g].flag == Free && g !in own
    requires f in own && own[f] == p && f < |s.mem.frames|
    ensures KeepsOwn(s, own, LinkTable(s, p, f, i, g), own[g := Step(p, i)], Task(p))
    ensures Takes(s, LinkTable(s, p, f, i, g), Task(p), 1, 0)
  {
    DecodeEntry(g, Level(p), |s.mem.frames|);
    CountUpdate(s.mem.descs, g, Desc(PageTable, 1, -1), Free);
  }

  lemma {:induction false} PathStep(s: System, own: map<nat, Path>, p: Path) returns (own': map<nat, Path>)
    requires Forest(s, own) && Level(p) <= 3 && InTables(p) && Task(p) < |s.mms| && FreeCount(s) >= Missing(s, p)
    ensures Reached(s, own, EnsurePath(s, p), own', p, Missing(s, p))
  {
    hide Forest, Reached, FreeCount, Node, EnsureTable, EnsureRoot;
    assert Sized(s.mem) by {
      ForestSized(s, own);
    }
    match p {
      case Root(t) =>
        own' := RootStep(s, own, t);
      case Step(up, i) =>
        var own1 := PathStep(s, own, up);
        own' := PathMore(s, own, EnsurePath(s, up), own1, up, i, Missing(s, up));
    }
  }

  lemma ForestSized(s: System, own: map<nat, Path>)
    requires Forest(s, own)
    ensures Sized(s.mem)
  {}

  lemma PathMore(s: System, own: map<nat, Path>, s1: System, own1: map<nat, Path>, up: Path, i: nat, j: nat)
      returns (own': map<nat, Path>)
    requires Level(up) < 3 && i < PTRS_PER_TABLE && Reached(s, own, s1, own1, up, j)
    requires FreeCount(s) >= j + if Node(s, Step(up, i)).None? then 1 else 0
    ensures Reached(s, own, EnsureTable(s1, up, i), own', Step(up, i), j + if Node(s, Step(up, i)).None? then 1 else 0)
  {
    var p := Step(up, i);
    var k := if Node(s, p).None? then 1 else 0;
    NotPrefix(p, up);
    assert Node(s1, p) == Node(s, p);
    var s' := EnsureTable(s1, up, i);
    own' := TableStep(s1, own1, up, i);
    KeepsTrans(s, own, s1, own1, s', own', Task(p));
    TakesBoth(s, s1, s', Task(p), j, k);
    ExtendsMore(s, s1, s', up, i);
  }

  lemma NotPrefix(q: Path, p: Path)
    requires Level(q) > Level(p)
    ensures !Prefix(q, p)
  {
    if Prefix(q, p) {
      PrefixLevel(q, p);
    }
  }

  lemma TakesBoth(s: System, s1: System, s': System, t: nat, j: nat, k: nat)
    requires Takes(s, s1, t, j, 0) && Takes(s1, s', t, k, 0)
    ensures Takes(s, s', t, j + k, 0)
  {}

  lemma ExtendsMore(s: System, s1: System, s': System, up: Path, i: nat)
    requires Level(up) < 3 && Extends(s, s1, up)
    requires forall q | Level(q) <= LEVELS && q != Step(up, i) :: Node(s', q) == Node(s1, q)
    requires Node(s1, Step(up, i)).Some? ==> s' == s1
    ensures Extends(s, s', Step(up, i))
  {
    NotPrefix(Step(up, i), up);
  }

  lemma KeepsTrans(s: System, own: map<nat, Path>, s1: System, own1: map<nat, Path>, s2: System, own2: map<nat, Path>,
      t: nat)
    requires Sized(s.mem) && Sized(s1.mem) && Sized(s2.mem)
    requires KeepsOwn(s, own, s1, own1, t) && KeepsOwn(s1, own1, s2, own2, t)
    ensures KeepsOwn(s, own, s2, own2, t)
  {}

  /** A user frame no table refers to stays that way while tables are added. */
  lemma StaysUnlinked(s: System, own: map<nat, Path>, s': System, own': map<nat, Path>, p: Path, g: nat)
    requires Sized(s.mem) && Labelled(s, own) && Sized(s'.mem) && Labelled(s', own') && Flagged(s', own')
    requires KeepsOwn(s, own, s', own', Task(p)) && Extends(s, s', p) && Level(p) == 3
    requires g < |s.mem.descs| && s.mem.descs[g].flag == User && g !in own
    ensures g !in own' && s'.mem.descs[g] == s.mem.descs[g] && s'.mem.frames[g] == s.mem.frames[g]
  {
    forall h | h in own' ensures h in own || s'.mem.descs[h].flag != User {
      assert Node(s', own'[h]) == Some(h);
      assert s'.mem.descs[h].flag == FlagAt(Level(own'[h]));
      if Level(own'[h]) == LEVELS {
        NotPrefix(own'[h], p);
      }
    }
  }

  lemma LeafKeeps(s: System, own: map<nat, Path>, p: Path, f: nat, i: nat, g: nat)
    requires Sized(s.mem) && Level(p) == 3 && i < PTRS_PER_TABLE && g < |s.mem.descs| && g !in own
    requires f in own && own[f] == p && f < |s.mem.frames|
    ensures KeepsOwn(s, own, LinkLeaf(s, p, f, i, g), Relabel(own, Step(p, i), g), Task(p))
    ensures LinkLeaf(s, p, f, i, g).mem.frames[g] == s.mem.frames[g]
  {
    DecodeEntry(g, 3, |s.mem.frames|);
  }

  lemma LeafStep(s: System, own: map<nat, Path>, p: Path, i: nat, g: nat)
    requires Forest(s, own) && Level(p) == 3 && i < PTRS_PER_TABLE && Node(s, p).Some?
    requires g < |s.mem.descs| && s.mem.descs[g].flag == User && g !in own
    ensures var s' := SetLeaf(s, p, i, g); var own' := Relabel(own, Step(p, i), g);
      Sized(s'.mem) && Forest(s', own') && KeepsOwn(s, own, s', own', Task(p)) && Moves(s, s', Step(p, i), g)
      && s'.mms == s.mms && s'.mem.descs == s.mem.descs && s'.mem.frames[g] == s.mem.frames[g]
  {
    var f := Node(s, p).value;
    assert f in own && own[f] == p;
    RootExists(s, p);
    DecodeEntry(g, 3, |s.mem.frames|);
    ForestLeaf(s, own, p, f, i, g);
    LinkedMoves(s, own, p, f, i, g, LinkLeaf(s, p, f, i, g));
    LeafKeeps(s, own, p, f, i, g);
  }

  /** At the leaves, `va` of task `t` now leads to `g` and every other page is where it was. */
  ghost predicate LeafMoved(s: System, s': System, t: nat, va: Word, g: nat) {
    forall q | Level(q) == LEVELS :: Node(s', q) == if q == PathTo(t, va, LEVELS) then Some(g) else Node(s, q)
  }

  /** Above the leaves, tables were only added, and only on the way to `va`. */
  ghost predicate TablesAdded(s: System, s': System, t: nat, va: Word) {
    forall q | Level(q) < LEVELS && !(Node(s, q).None? && Prefix(q, PathTo(t, va, 3))) :: Node(s', q) == Node(s, q)
  }

  lemma MapPageOwn(s: System, own: map<nat, Path>, t: nat, va: Word, g: nat) returns (own': map<nat, Path>)
    requires Forest(s, own) && t < |s.mms| && FreeCount(s) >= Missing(s, PathTo(t, va, 3))
    requires g < |s.mem.descs| && s.mem.descs[g].flag == User && g !in own
    ensures var s' := MapPage(s, t, va, g);
      && Sized(s'.mem) && Forest(s', own') && KeepsOwn(s, own, s', own', t)
      && LeafMoved(s, s', t, va, g) && TablesAdded(s, s', t, va)
      && Takes(s, s', t, Missing(s, PathTo(t, va, 3)), 0)
      && s'.mem.descs[g] == s.mem.descs[g] && s'.mem.frames[g] == s.mem.frames[g]
  {
    var p, i := PathTo(t, va, 3), Index(va, 3);
    var own3 := PathStep(s, own, p);
    var s3 := EnsurePath(s, p);
    StaysUnlinked(s, own, s3, own3, p, g);
    LeafStep(s3, own3, p, i, g);
    own' := Relabel(own3, Step(p, i), g);
    var s' := SetLeaf(s3, p, i, g);
    KeepsTrans(s, own, s3, own3, s', own', t);
    MovesAfter(s, s3, s', t, va, g);
  }

  lemma MovesAfter(s: System, s3: System, s': System, t: nat, va: Word, g: nat)
    requires Extends(s, s3, PathTo(t, va, 3)) && Moves(s3, s', PathTo(t, va, LEVELS), g)
    ensures LeafMoved(s, s', t, va, g) && TablesAdded(s, s', t, va)
  {
    forall q | Level(q) == LEVELS ensures !Prefix(q, PathTo(t, va, 3)) {
      NotPrefix(q, PathTo(t, va, 3));
    }
  }

  // ---- the same facts without the labelling

  /** The page tables of all tasks form a forest in physical memory. */
  ghost predicate IsForest(s: System) {
    exists own :: Forest(s, own)
  }

  ghost predicate HoldsTable(s: System, f: nat, t: nat) {
    exists p :: Level(p) < LEVELS && Task(p) == t && Node(s, p) == Some(f)
  }

  ghost predicate Referenced(s: System, f: nat) {
    exists p :: Level(p) <= LEVELS && Node(s, p) == Some(f)
  }

  /** Used frames that are not tables of `t`, and all other tasks, stay as they are. */
  ghost predicate Keeps(s: System, s': System, t: nat)
    requires Sized(s.mem) && Sized(s'.mem)
  {
    && |s'.mem.descs| == |s.mem.descs| && |s'.mms| == |s.mms|
    && (forall u | 0 <= u < |s.mms| && u != t :: s'.mms[u] == s.mms[u])
    && (forall f: nat | f < |s.mem.descs| && s.mem.descs[f].flag != Free :: s'.mem.descs[f] == s.mem.descs[f])
    && (forall f: nat | f < |s.mem.descs| && s.mem.descs[f].flag != Free && !HoldsTable(s, f, t) ::
          s'.mem.frames[f] == s.mem.frames[f] && !HoldsTable(s', f, t))
  }

  lemma KeepsMeans(s: System, own: map<nat, Path>, s': System, own': map<nat, Path>, t: nat)
    requires Sized(s.mem) && Sized(s'.mem) && Labelled(s, own) && Labelled(s', own') && KeepsOwn(s, own, s', own', t)
    ensures Keeps(s, s', t)
  {
    forall f: nat ensures HoldsTable(s, f, t) <==> IsTable(own, f, t) {
      TableLabels(s, own, f, t);
    }
    forall f: nat ensures HoldsTable(s', f, t) <==> IsTable(own', f, t) {
      TableLabels(s', own', f, t);
    }
  }

  lemma TableLabels(s: System, own: map<nat, Path>, f: nat, t: nat)
    requires Labelled(s, own)
    ensures HoldsTable(s, f, t) <==> IsTable(own, f, t)
    ensures Referenced(s, f) <==> f in own
  {
    if f in own {
      assert Node(s, own[f]) == Some(f);
    }
  }

  lemma KeepsBoth(s: System, s1: System, s2: System, t: nat)
    requires Sized(s.mem) && Sized(s1.mem) && Sized(s2.mem) && Keeps(s, s1, t) && Keeps(s1, s2, t)
    ensures Keeps(s, s2, t)
  {}

  /** What map_page leaves behind. */
  ghost predicate Mapped(s: System, s': System, t: nat, va: Word, g: nat) {
    && Sized(s.mem) && IsForest(s') && Sized(s'.mem)
    && Keeps(s, s', t) && LeafMoved(s, s', t, va, g) && TablesAdded(s, s', t, va)
  }

  /** map_page makes `va` of task `t` lead to `g` and changes no other page of any task. */
  lemma MapPageCorrect(s: System, t: nat, va: Word, g: nat)
    requires IsForest(s) && t < |s.mms| && Sized(s.mem) && FreeCount(s) >= Missing(s, PathTo(t, va, 3))
    requires g < |s.mem.descs| && s.mem.descs[g].flag == User && !Referenced(s, g)
    ensures var s' := MapPage(s, t, va, g);
      && Mapped(s, s', t, va, g) && Takes(s, s', t, Missing(s, PathTo(t, va, 3)), 0)
      && s'.mem.descs[g] == s.mem.descs[g] && s'.mem.frames[g] == s.mem.frames[g]
  {
    var own :| Forest(s, own);
    TableLabels(s, own, g, t);
    var own' := MapPageOwn(s, own, t, va, g);
    KeepsMeans(s, own, MapPage(s, t, va, g), own', t);
  }

  /** The tables of all tasks together are a map from task and page number to frame; map_page updates it in one
      place. */
  lemma MapPageUpdates(s: System, t: nat, va: Word, g: nat, u: nat, vb: Word)
    requires IsForest(s) && t < |s.mms| && Sized(s.mem) && FreeCount(s) >= Missing(s, PathTo(t, va, 3))
    requires g < |s.mem.descs| && s.mem.descs[g].flag == User && !Referenced(s, g)
    ensures Node(MapPage(s, t, va, g), PathTo(u, vb, LEVELS)) ==
      if u == t && Vpn(vb) == Vpn(va) then Some(g) else Node(s, PathTo(u, vb, LEVELS))
  {
    MapPageCorrect(s, t, va, g);
    SamePage(u, vb, t, va);
  }
}
