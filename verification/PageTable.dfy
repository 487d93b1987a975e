/** Physical memory: frame descriptors and the words of each frame. */
module Frames {
  import opened Basics

  const LOW_MEMORY := 0x400000
  const PTRS_PER_TABLE := 512
  const WORD_LIMIT := 0x1_0000_0000_0000_0000
  const VA_LIMIT := 0x1_0000_0000_0000

  type Word = w: nat | w < WORD_LIMIT
  type Page = p: seq<Word> | |p| == PTRS_PER_TABLE witness seq(PTRS_PER_TABLE, _ => 0)

  function ZeroPage(): Page { seq(PTRS_PER_TABLE, _ => 0) }

  datatype Flag = Free | Kernel | User | PageTable
  datatype Desc = Desc(flag: Flag, refcount: nat, owner: int)
  datatype Memory = Memory(descs: seq<Desc>, frames: seq<Page>)

  /** Descriptors and frames match up, and every frame lies below 2^48. */
  predicate Sized(m: Memory) {
    |m.descs| == |m.frames| && LOW_MEMORY + |m.frames| * PAGE_SIZE <= VA_LIMIT
  }

  function Pa(f: nat): nat { LOW_MEMORY + f * PAGE_SIZE }

  /** The frame a non-zero word points at, its low bits ignored. */
  function Decode(w: Word, n: nat): (r: Option<nat>)
    ensures r.Some? ==> r.value < n
  {
    if w == 0 || w < LOW_MEMORY || (w - LOW_MEMORY) / PAGE_SIZE >= n then None
    else Some((w - LOW_MEMORY) / PAGE_SIZE)
  }
}

/** The page tables of all tasks as one forest of frames, and what linking one frame does to it. */
module PageTables {
  import opened Basics
  import opened Frames

  /** MM_TYPE_PAGE_TABLE, and the disjoint bits of MMU_PTE_FLAGS: page, normal memory, inner shareable, accessed,
      EL0. */
  const TABLE_FLAGS := 0x3
  const PTE_FLAGS := 0x3 + 0x4 + 0x300 + 0x400 + 0x40
  const LEVELS := 4
  const MAX_PROCESS_PAGES := 16

  datatype VmArea = VmArea(start: Word, end: Word, flags: nat)

  /** The address space of a task; `home` is the frame of the task's TASK_STRUCT, which the address space is in. */
  datatype Mm = Mm(pgd: Word, vmas: seq<VmArea>, kernelPages: seq<Word>, home: nat)

  datatype System = System(mem: Memory, mms: seq<Mm>)

  /** A position in the forest: the root of a task's tables, or an entry below a position. */
  datatype Path = Root(task: nat) | Step(up: Path, idx: nat)

  function Level(p: Path): nat {
    match p case Root(_) => 0 case Step(up, _) => Level(up) + 1
  }

  function Task(p: Path): nat {
    match p case Root(t) => t case Step(up, _) => Task(up)
  }

  function Entry(g: nat, level: nat): nat {
    Pa(g) + if level == 3 then PTE_FLAGS else TABLE_FLAGS
  }

  function Child(fr: seq<Page>, f: nat, i: nat): Option<nat>
    requires f < |fr|
  {
    if i < PTRS_PER_TABLE then Decode(fr[f][i], |fr|) else None
  }

  /** The frame found at a position, following table entries from the task's pgd. */
  function Node(s: System, p: Path): (r: Option<nat>)
    ensures r.Some? ==> r.value < |s.mem.frames|
  {
    match p
    case Root(t) => if t < |s.mms| then Decode(s.mms[t].pgd, |s.mem.frames|) else None
    case Step(up, i) =>
      match Node(s, up)
      case None => None
      case Some(f) => Child(s.mem.frames, f, i)
  }

  ghost predicate Labelled(s: System, own: map<nat, Path>) {
    && (forall p | Level(p) <= LEVELS && Node(s, p).Some? :: Node(s, p).value in own && own[Node(s, p).value] == p)
    && (forall f | f in own :: Level(own[f]) <= LEVELS && Node(s, own[f]) == Some(f))
  }

  function FlagAt(level: nat): Flag {
    if level == 0 then Kernel else if level < LEVELS then PageTable else User
  }

  ghost predicate Flagged(s: System, own: map<nat, Path>)
    requires Sized(s.mem)
  {
    && (forall f | f in own :: f < |s.mem.descs| && s.mem.descs[f].flag == FlagAt(Level(own[f])))
    && (forall f: nat | f < |s.mem.descs| && s.mem.descs[f].flag == PageTable :: f in own)
  }

  predicate IsEntry(w: Word, level: nat, n: nat) {
    Decode(w, n).Some? && w == Entry(Decode(w, n).value, level)
  }

  ghost predicate Encoded(s: System, own: map<nat, Path>) {
    forall f, i | f in own && Level(own[f]) < LEVELS && f < |s.mem.frames| && 0 <= i < PTRS_PER_TABLE ::
      s.mem.frames[f][i] == 0 || IsEntry(s.mem.frames[f][i], Level(own[f]), |s.mem.frames|)
  }

  ghost predicate ListedFor(mm: Mm, t: nat, own: map<nat, Path>, n: nat) {
    && (forall i, j | 0 <= i < j < |mm.kernelPages| :: mm.kernelPages[i] != mm.kernelPages[j])
    && (mm.pgd == 0 <==> mm.kernelPages == [])
    && (mm.kernelPages != [] ==> mm.kernelPages[0] == mm.pgd)
    && (forall i | 0 <= i < |mm.kernelPages| :: TableOf(mm.kernelPages[i], t, own, n))
    && (forall f | f in own && Task(own[f]) == t && Level(own[f]) < LEVELS :: Pa(f) in mm.kernelPages)
  }

  ghost predicate TableOf(w: Word, t: nat, own: map<nat, Path>, n: nat) {
    Decode(w, n).Some? && w == Pa(Decode(w, n).value) && Decode(w, n).value in own
    && Task(own[Decode(w, n).value]) == t && Level(own[Decode(w, n).value]) < LEVELS
  }

  ghost predicate Listed(s: System, own: map<nat, Path>) {
    forall t | 0 <= t < |s.mms| :: ListedFor(s.mms[t], t, own, |s.mem.frames|)
  }

  ghost predicate Forest(s: System, own: map<nat, Path>) {
    Sized(s.mem) && Labelled(s, own) && Flagged(s, own) && Encoded(s, own) && Listed(s, own)
  }

  // ---- linking

  lemma DecodeEntry(g: nat, l: nat, n: nat)
    requires g < n && LOW_MEMORY + n * PAGE_SIZE <= VA_LIMIT
    ensures Entry(g, l) < WORD_LIMIT && Entry(g, l) != 0 && Decode(Entry(g, l), n) == Some(g)
    ensures Pa(g) < WORD_LIMIT && Pa(g) != 0 && Decode(Pa(g), n) == Some(g)
  {}

  /** Writing one table entry; a new table frame is zeroed first. */
  function Linked(fr: seq<Page>, f: nat, i: nat, g: nat, level: nat): (r: seq<Page>)
    requires f < |fr| && g < |fr| && i < PTRS_PER_TABLE && Entry(g, level) < WORD_LIMIT
    ensures |r| == |fr|
  {
    var fr1 := if level < 3 then fr[g := ZeroPage()] else fr;
    fr1[f := fr1[f][i := Entry(g, level)]]
  }

  lemma LinkedChild(fr: seq<Page>, f: nat, i: nat, g: nat, level: nat, h: nat, j: nat)
    requires f < |fr| && g < |fr| && i < PTRS_PER_TABLE && LOW_MEMORY + |fr| * PAGE_SIZE <= VA_LIMIT
    requires g != f && h < |fr|
    ensures Entry(g, level) < WORD_LIMIT
    ensures Child(Linked(fr, f, i, g, level), h, j) ==
      if h == f && j == i then Some(g) else if h == g && level < 3 then None else Child(fr, h, j)
  {
    DecodeEntry(g, level, |fr|);
  }

  ghost predicate SamePgds(s: System, s': System) {
    |s'.mms| == |s.mms| && forall t | 0 <= t < |s.mms| :: s'.mms[t].pgd == s.mms[t].pgd
  }

  /** Frame `f` at position `p` gets an entry `i` for a frame `g` that no table refers to yet. */
  ghost predicate CanLink(s: System, own: map<nat, Path>, p: Path, f: nat, i: nat, g: nat) {
    && Sized(s.mem) && Labelled(s, own)
    && Level(p) < LEVELS && Node(s, p) == Some(f)
    && i < PTRS_PER_TABLE && g < |s.mem.frames| && g !in own
    && (Level(p) < 3 ==> s.mem.frames[f][i] == 0)
    && Entry(g, Level(p)) < WORD_LIMIT
  }

  lemma {:induction false} NodeLinked(s: System, own: map<nat, Path>, p: Path, f: nat, i: nat, g: nat, s': System,
      q: Path)
    requires CanLink(s, own, p, f, i, g) && SamePgds(s, s')
    requires s'.mem.frames == Linked(s.mem.frames, f, i, g, Level(p))
    requires Level(q) <= LEVELS
    ensures Node(s', q) == if q == Step(p, i) then Some(g) else Node(s, q)
  {
    match q {
      case Root(t) =>
      case Step(up, j) =>
        NodeLinked(s, own, p, f, i, g, s', up);
        var n := Node(s, up);
        assert own[f] == p;
        if up == Step(p, i) {
          LinkedChild(s.mem.frames, f, i, g, Level(p), g, j);
          assert n == Child(s.mem.frames, f, i);
        } else if n.Some? {
          LinkedChild(s.mem.frames, f, i, g, Level(p), n.value, j);
          assert own[n.value] == up;
        }
    }
  }

  // ---- one link keeps the forest

  /** Exactly the position `p` now leads to `g`. */
  ghost predicate Moves(s: System, s': System, p: Path, g: nat) {
    forall q | Level(q) <= LEVELS :: Node(s', q) == if q == p then Some(g) else Node(s, q)
  }

  lemma LinkedMoves(s: System, own: map<nat, Path>, p: Path, f: nat, i: nat, g: nat, s': System)
    requires CanLink(s, own, p, f, i, g) && SamePgds(s, s')
    requires s'.mem.frames == Linked(s.mem.frames, f, i, g, Level(p))
    ensures Moves(s, s', Step(p, i), g)
  {
    forall q | Level(q) <= LEVELS ensures Node(s', q) == if q == Step(p, i) then Some(g) else Node(s, q) {
      NodeLinked(s, own, p, f, i, g, s', q);
    }
  }

  ghost function Relabel(own: map<nat, Path>, p: Path, g: nat): map<nat, Path> {
    (map f | f in own && own[f] != p :: own[f])[g := p]
  }

  lemma LabelledLink(s: System, own: map<nat, Path>, p: Path, f: nat, i: nat, g: nat, s': System)
    requires CanLink(s, own, p, f, i, g) && SamePgds(s, s')
    requires s'.mem.frames == Linked(s.mem.frames, f, i, g, Level(p))
    ensures Labelled(s', Relabel(own, Step(p, i), g))
  {
    LinkedMoves(s, own, p, f, i, g, s');
  }

  lemma EncodedLink(s: System, own: map<nat, Path>, p: Path, f: nat, i: nat, g: nat, s': System)
    requires CanLink(s, own, p, f, i, g) && Encoded(s, own)
    requires s'.mem.frames == Linked(s.mem.frames, f, i, g, Level(p))
    ensures Encoded(s', Relabel(own, Step(p, i), g))
  {
    var own' := Relabel(own, Step(p, i), g);
    forall h, j | h in own' && Level(own'[h]) < LEVELS && h < |s'.mem.frames| && 0 <= j < PTRS_PER_TABLE
      ensures s'.mem.frames[h][j] == 0 || IsEntry(s'.mem.frames[h][j], Level(own'[h]), |s'.mem.frames|)
    {
      assert own[f] == p;
      if h == f && j == i {
        DecodeEntry(g, Level(p), |s.mem.frames|);
      } else if h == g {
        assert s'.mem.frames[h] == ZeroPage();
      } else {
        assert s'.mem.frames[h][j] == s.mem.frames[h][j];
      }
    }
  }

  /** A zeroed free frame becomes the table below entry `i` of table `f`. */
  function LinkTable(s: System, p: Path, f: nat, i: nat, g: nat): System
    requires Task(p) < |s.mms| && Level(p) < 3 && Sized(s.mem) && f < |s.mem.frames| && i < PTRS_PER_TABLE
    requires g < |s.mem.frames|
  {
    DecodeEntry(g, Level(p), |s.mem.frames|);
    s.(mem := Memory(s.mem.descs[g := Desc(PageTable, 1, -1)], Linked(s.mem.frames, f, i, g, Level(p))),
       mms := s.mms[Task(p) := s.mms[Task(p)].(kernelPages := s.mms[Task(p)].kernelPages + [Pa(g)])])
  }

  lemma ForestTable(s: System, own: map<nat, Path>, p: Path, f: nat, i: nat, g: nat)
    requires Forest(s, own) && CanLink(s, own, p, f, i, g) && Level(p) < 3
    ensures Task(p) < |s.mms|
    ensures Forest(LinkTable(s, p, f, i, g), own[g := Step(p, i)])
  {
    TableLabel(s, own, p, f, i, g);
    LinkTableIs(s, p, f, i, g);
    hide Labelled, Encoded, Listed, Linked, Relabel, Node, LinkTable, SamePgds;
    var s' := LinkTable(s, p, f, i, g);
    var own' := own[g := Step(p, i)];
    LabelledLink(s, own, p, f, i, g, s');
    EncodedLink(s, own, p, f, i, g, s');
    FlaggedTable(s, own, s', own', g);
    ListedPush(s, own, Task(p), g, own', s');
  }

  lemma LinkTableIs(s: System, p: Path, f: nat, i: nat, g: nat)
    requires Task(p) < |s.mms| && Level(p) < 3 && Sized(s.mem) && f < |s.mem.frames| && i < PTRS_PER_TABLE
    requires g < |s.mem.frames|
    ensures var s', t := LinkTable(s, p, f, i, g), Task(p);
      && Sized(s'.mem) && SamePgds(s, s') && Entry(g, Level(p)) < WORD_LIMIT && Pa(g) < WORD_LIMIT
      && s'.mem.frames == Linked(s.mem.frames, f, i, g, Level(p))
      && s'.mem.descs == s.mem.descs[g := Desc(PageTable, 1, -1)]
      && s'.mms == s.mms[t := s.mms[t].(kernelPages := s.mms[t].kernelPages + [Pa(g)])]
  {
    DecodeEntry(g, Level(p), |s.mem.frames|);
  }

  lemma TableLabel(s: System, own: map<nat, Path>, p: Path, f: nat, i: nat, g: nat)
    requires CanLink(s, own, p, f, i, g) && Level(p) < 3
    ensures Relabel(own, Step(p, i), g) == own[g := Step(p, i)]
    ensures Task(p) < |s.mms| && s.mms[Task(p)].pgd != 0
  {
    assert Node(s, Step(p, i)) == None;
    assert forall h | h in own :: own[h] != Step(p, i);
    RootExists(s, p);
  }

  lemma {:induction false} RootExists(s: System, p: Path)
    requires Node(s, p).Some?
    ensures Task(p) < |s.mms| && s.mms[Task(p)].pgd != 0
  {
    if p.Step? {
      RootExists(s, p.up);
    }
  }

  lemma FlaggedTable(s: System, own: map<nat, Path>, s': System, own': map<nat, Path>, g: nat)
    requires Sized(s.mem) && Flagged(s, own) && g < |s.mem.frames| && g !in own && Sized(s'.mem)
    requires own'.Keys == own.Keys + {g} && 0 < Level(own'[g]) < LEVELS
    requires forall h | h in own :: own'[h] == own[h]
    requires s'.mem.descs == s.mem.descs[g := Desc(PageTable, 1, -1)]
    ensures Flagged(s', own')
  {}

  lemma ListedPush(s: System, own: map<nat, Path>, t: nat, g: nat, own': map<nat, Path>, s': System)
    requires Sized(s.mem) && Listed(s, own) && t < |s.mms| && g < |s.mem.frames| == |s'.mem.frames| && g !in own
    requires forall h | h in own :: h < |s.mem.frames| && h in own' && own'[h] == own[h]
    requires g in own' && own'.Keys == own.Keys + {g} && Task(own'[g]) == t && 0 < Level(own'[g]) < LEVELS
    requires s.mms[t].pgd != 0
    requires Pa(g) < WORD_LIMIT
    requires s'.mms == s.mms[t := s.mms[t].(kernelPages := s.mms[t].kernelPages + [Pa(g)])]
    ensures Listed(s', own')
  {
    var n := |s.mem.frames|;
    forall u | 0 <= u < |s'.mms| ensures ListedFor(s'.mms[u], u, own', n) {
      assert ListedFor(s.mms[u], u, own, n);
      hide ListedFor;
      if u == t {
        ListedHere(s.mms[t], t, own, g, own', n);
      } else {
        ListedElsewhere(s.mms[u], u, own, g, own', n);
      }
    }
  }

  lemma ListedHere(mm: Mm, t: nat, own: map<nat, Path>, g: nat, own': map<nat, Path>, n: nat)
    requires ListedFor(mm, t, own, n) && g !in own && g < n && LOW_MEMORY + n * PAGE_SIZE <= VA_LIMIT
    requires forall h | h in own :: h < n && h in own' && own'[h] == own[h]
    requires g in own' && own'.Keys == own.Keys + {g} && Task(own'[g]) == t && Level(own'[g]) < LEVELS && mm.pgd != 0
    ensures Pa(g) < WORD_LIMIT && ListedFor(mm.(kernelPages := mm.kernelPages + [Pa(g)]), t, own', n)
  {
    DecodeEntry(g, 0, n);
  }

  lemma ListedElsewhere(mm: Mm, u: nat, own: map<nat, Path>, g: nat, own': map<nat, Path>, n: nat)
    requires ListedFor(mm, u, own, n) && g !in own
    requires forall h | h in own :: h in own' && own'[h] == own[h]
    requires g in own' && own'.Keys == own.Keys + {g} && Task(own'[g]) != u
    ensures ListedFor(mm, u, own', n)
  {}

  // ---- writes outside the tables

  /** Only frames that are not tables may differ. */
  ghost predicate SameTables(s: System, own: map<nat, Path>, s': System) {
    && |s'.mem.frames| == |s.mem.frames|
    && forall f | f in own && Level(own[f]) < LEVELS && f < |s.mem.frames| :: s'.mem.frames[f] == s.mem.frames[f]
  }

  lemma {:induction false} NodeFrame(s: System, own: map<nat, Path>, s': System, q: Path)
    requires Labelled(s, own) && SamePgds(s, s') && SameTables(s, own, s') && Level(q) <= LEVELS
    ensures Node(s', q) == Node(s, q)
  {
    if q.Step? {
      NodeFrame(s, own, s', q.up);
      if Node(s, q.up).Some? {
        assert own[Node(s, q.up).value] == q.up;
      }
    }
  }

  lemma ForestFrame(s: System, own: map<nat, Path>, s': System)
    requires Forest(s, own) && s'.mem.descs == s.mem.descs && SameTables(s, own, s')
    requires |s'.mms| == |s.mms|
    requires forall t | 0 <= t < |s.mms| ::
      s'.mms[t].pgd == s.mms[t].pgd && s'.mms[t].kernelPages == s.mms[t].kernelPages
    ensures Forest(s', own)
  {
    forall q | Level(q) <= LEVELS ensures Node(s', q) == Node(s, q) {
      NodeFrame(s, own, s', q);
    }
    forall t | 0 <= t < |s'.mms| ensures ListedFor(s'.mms[t], t, own, |s'.mem.frames|) {
      assert ListedFor(s.mms[t], t, own, |s.mem.frames|);
    }
  }

  /** A free frame is claimed and zeroed. */
  function Claimed(m: Memory, g: nat, fl: Flag): Memory
    requires Sized(m) && g < |m.frames|
  {
    Memory(m.descs[g := Desc(fl, 1, -1)], m.frames[g := ZeroPage()])
  }

  lemma ForestClaim(s: System, own: map<nat, Path>, g: nat, fl: Flag)
    requires Forest(s, own) && g < |s.mem.descs| && s.mem.descs[g].flag == Free && (fl == Kernel || fl == User)
    ensures g !in own
    ensures Forest(s.(mem := Claimed(s.mem, g, fl)), own)
  {
    var s1 := s.(mem := s.mem.(frames := s.mem.frames[g := ZeroPage()]));
    ForestFrame(s, own, s1);
    ForestFlag(s1, own, g, Desc(fl, 1, -1));
  }

  /** Descriptors of frames outside the forest may change freely, except to page-table. */
  lemma ForestFlag(s: System, own: map<nat, Path>, g: nat, d: Desc)
    requires Forest(s, own) && g < |s.mem.descs| && g !in own && d.flag != PageTable
    ensures Forest(s.(mem := s.mem.(descs := s.mem.descs[g := d])), own)
  {
    var s' := s.(mem := s.mem.(descs := s.mem.descs[g := d]));
    forall q | Level(q) <= LEVELS ensures Node(s', q) == Node(s, q) {
      NodeFrame(s, own, s', q);
    }
    forall t | 0 <= t < |s'.mms| ensures ListedFor(s'.mms[t], t, own, |s'.mem.frames|) {
      assert ListedFor(s.mms[t], t, own, |s.mem.frames|);
    }
  }

  // ---- the root

  function RootMm(mm: Mm, g: nat): Mm
    requires Pa(g) < WORD_LIMIT
  {
    mm.(pgd := Pa(g), kernelPages := mm.kernelPages + [Pa(g)])
  }

  function LinkRoot(s: System, t: nat, g: nat): System
    requires t < |s.mms| && Sized(s.mem) && g < |s.mem.frames|
  {
    DecodeEntry(g, 0, |s.mem.frames|);
    System(Claimed(s.mem, g, Kernel), s.mms[t := RootMm(s.mms[t], g)])
  }

  lemma {:induction false} NodeRooted(s: System, own: map<nat, Path>, t: nat, g: nat, q: Path)
    requires Sized(s.mem) && Labelled(s, own) && t < |s.mms| && s.mms[t].pgd == 0 && g < |s.mem.frames| && g !in own
    requires Level(q) <= LEVELS
    ensures Node(LinkRoot(s, t, g), q) == if q == Root(t) then Some(g) else Node(s, q)
  {
    DecodeEntry(g, 0, |s.mem.frames|);
    if q.Step? {
      NodeRooted(s, own, t, g, q.up);
      if Node(s, q.up).Some? {
        assert own[Node(s, q.up).value] == q.up;
      }
    }
  }

  lemma ForestRoot(s: System, own: map<nat, Path>, t: nat, g: nat)
    requires Forest(s, own) && t < |s.mms| && s.mms[t].pgd == 0
    requires g < |s.mem.frames| && g !in own && s.mem.descs[g].flag != PageTable
    ensures Forest(LinkRoot(s, t, g), own[g := Root(t)])
  {
    var s' := LinkRoot(s, t, g);
    var own' := own[g := Root(t)];
    RootMoves(s, own, t, g);
    NoRoot(s, own, t);
    ListedRoot(s, own, t, g);
    RootParts(s, own, t, g);
  }

  lemma RootParts(s: System, own: map<nat, Path>, t: nat, g: nat)
    requires Sized(s.mem) && Flagged(s, own) && Encoded(s, own) && t < |s.mms| && g < |s.mem.frames| && g !in own
    requires s.mem.descs[g].flag != PageTable
    ensures var s', own' := LinkRoot(s, t, g), own[g := Root(t)];
      Sized(s'.mem) && Flagged(s', own') && Encoded(s', own')
  {}

  lemma RootMoves(s: System, own: map<nat, Path>, t: nat, g: nat)
    requires Sized(s.mem) && Labelled(s, own) && t < |s.mms| && s.mms[t].pgd == 0 && g < |s.mem.frames| && g !in own
    ensures Moves(s, LinkRoot(s, t, g), Root(t), g)
  {
    forall q | Level(q) <= LEVELS ensures Node(LinkRoot(s, t, g), q) == if q == Root(t) then Some(g) else Node(s, q) {
      NodeRooted(s, own, t, g, q);
    }
  }

  lemma NoRoot(s: System, own: map<nat, Path>, t: nat)
    requires Labelled(s, own) && t < |s.mms| && s.mms[t].pgd == 0
    ensures forall f | f in own :: Task(own[f]) != t
  {
    forall f | f in own ensures Task(own[f]) != t {
      RootExists(s, own[f]);
    }
  }

  lemma ListedRoot(s: System, own: map<nat, Path>, t: nat, g: nat)
    requires Sized(s.mem) && Listed(s, own) && t < |s.mms| && s.mms[t].pgd == 0 && g < |s.mem.frames| && g !in own
    requires forall f | f in own :: Task(own[f]) != t && f < |s.mem.frames|
    ensures Listed(LinkRoot(s, t, g), own[g := Root(t)])
  {
    var s', own' := LinkRoot(s, t, g), own[g := Root(t)];
    DecodeEntry(g, 0, |s.mem.frames|);
    forall u | 0 <= u < |s'.mms| ensures ListedFor(s'.mms[u], u, own', |s.mem.frames|) {
      assert ListedFor(s.mms[u], u, own, |s.mem.frames|);
    }
  }

  // ---- a leaf

  function LinkLeaf(s: System, p: Path, f: nat, i: nat, g: nat): System
    requires Level(p) == 3 && Sized(s.mem) && f < |s.mem.frames| && i < PTRS_PER_TABLE && g < |s.mem.frames|
  {
    DecodeEntry(g, 3, |s.mem.frames|);
    s.(mem := s.mem.(frames := Linked(s.mem.frames, f, i, g, 3)))
  }

  lemma ForestLeaf(s: System, own: map<nat, Path>, p: Path, f: nat, i: nat, g: nat)
    requires Forest(s, own) && CanLink(s, own, p, f, i, g) && Level(p) == 3
    requires s.mem.descs[g].flag == User
    ensures Forest(LinkLeaf(s, p, f, i, g), Relabel(own, Step(p, i), g))
  {
    var s' := LinkLeaf(s, p, f, i, g);
    var own' := Relabel(own, Step(p, i), g);
    LabelledLink(s, own, p, f, i, g, s');
    EncodedLink(s, own, p, f, i, g, s');
    LeafFlagged(s, own, p, i, g);
    LeafListed(s, own, p, i, g, s');
  }

  lemma LeafListed(s: System, own: map<nat, Path>, p: Path, i: nat, g: nat, s': System)
    requires Listed(s, own) && Level(p) == 3 && g !in own && s'.mms == s.mms && |s'.mem.frames| == |s.mem.frames|
    ensures Listed(s', Relabel(own, Step(p, i), g))
  {
    forall t | 0 <= t < |s'.mms| ensures ListedFor(s'.mms[t], t, Relabel(own, Step(p, i), g), |s'.mem.frames|) {
      assert ListedFor(s.mms[t], t, own, |s.mem.frames|);
    }
  }

  lemma LeafFlagged(s: System, own: map<nat, Path>, p: Path, i: nat, g: nat)
    requires Sized(s.mem) && Flagged(s, own) && Level(p) == 3 && g < |s.mem.descs| && s.mem.descs[g].flag == User
    ensures Flagged(s, Relabel(own, Step(p, i), g))
  {}
}
