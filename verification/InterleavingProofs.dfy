/** Every interleaving of mapping cores keeps the forest of page tables and the memory of all other tasks. */
module InterleavingProofs {
  import opened Basics
  import opened Frames
  import opened PageTables
  import opened Mapping
  import opened Fork
  import opened MemoryRuns
  import opened MemoryInterleaving

  // ---- the settled system reads the same memory

  lemma {:induction false} SameReads(s: System, s': System, q: Path)
    requires SamePgds(s, s') && s'.mem.frames == s.mem.frames
    ensures Node(s', q) == Node(s, q)
  {
    if q.Step? {
      SameReads(s, s', q.up);
    }
  }

  lemma SettledNodes(x: Live)
    requires |x.ph| == |x.s.mms|
    ensures SamePgds(x.s, Settled(x)) && forall q :: Node(Settled(x), q) == Node(x.s, q)
  {
    assert SamePgds(x.s, Settled(x));
    forall q ensures Node(Settled(x), q) == Node(x.s, q) {
      SameReads(x.s, Settled(x), q);
    }
  }

  lemma SettledReferences(x: Live)
    requires |x.ph| == |x.s.mms|
    ensures forall f :: Referenced(Settled(x), f) <==> Referenced(x.s, f)
    ensures forall f, t :: HoldsTable(Settled(x), f, t) <==> HoldsTable(x.s, f, t)
  {
    SettledNodes(x);
    forall f ensures Referenced(Settled(x), f) <==> Referenced(x.s, f) {
      forall p ensures Node(Settled(x), p) == Node(x.s, p) {}
    }
    forall f, t ensures HoldsTable(Settled(x), f, t) <==> HoldsTable(x.s, f, t) {
      forall p ensures Node(Settled(x), p) == Node(x.s, p) {}
    }
  }

  /** What the settled system must look like, field by field. */
  lemma SettledIs(x: Live, s: System)
    requires |x.ph| == |x.s.mms| == |s.mms| && s.mem.frames == x.s.mem.frames && |s.mem.descs| == |x.s.mem.descs|
    requires forall f | 0 <= f < |s.mem.descs| ::
      s.mem.descs[f] == if IsPending(x.ph, f) then x.s.mem.descs[f].(flag := Kernel) else x.s.mem.descs[f]
    requires forall t | 0 <= t < |s.mms| :: s.mms[t] == SettledMm(x.s.mms[t], x.ph[t])
    ensures Settled(x) == s
  {
    assert Settled(x).mem.descs == s.mem.descs && Settled(x).mms == s.mms;
  }

  lemma PendingSame(ph: seq<Phase>, t: nat, p: Phase)
    requires t < |ph| && Pending(p) == Pending(ph[t])
    ensures forall f :: IsPending(ph[t := p], f) <==> IsPending(ph, f)
  {
    forall f ensures IsPending(ph[t := p], f) <==> IsPending(ph, f) {
      assert forall u | 0 <= u < |ph| :: Pending(ph[t := p][u]) == Pending(ph[u]);
    }
  }

  lemma PendingMore(ph: seq<Phase>, t: nat, p: Phase, h: nat)
    requires t < |ph| && Pending(ph[t]) == None && Pending(p) == Some(h)
    ensures forall f :: IsPending(ph[t := p], f) <==> IsPending(ph, f) || f == h
  {
    forall f ensures IsPending(ph[t := p], f) <==> IsPending(ph, f) || f == h {
      assert forall u | 0 <= u < |ph| && u != t :: ph[t := p][u] == ph[u];
      assert ph[t := p][t] == p;
    }
  }

  lemma PendingLess(ph: seq<Phase>, t: nat, p: Phase, h: nat)
    requires t < |ph| && Pending(ph[t]) == Some(h) && Pending(p) == None && HoldApart(ph)
    ensures forall f :: IsPending(ph[t := p], f) <==> IsPending(ph, f) && f != h
  {
    forall f ensures IsPending(ph[t := p], f) <==> IsPending(ph, f) && f != h {
      assert forall u | 0 <= u < |ph| && u != t :: ph[t := p][u] == ph[u];
      assert ph[t := p][t] == p;
      assert h in Holds(ph[t]);
      forall u | 0 <= u < |ph| && u != t ensures Pending(ph[u]) != Some(h) {
        assert Pending(ph[u]) == Some(h) ==> h in Holds(ph[u]);
      }
    }
  }

  /** A frame no phase holds is not pending; a free frame is held by none. */
  lemma PendingHeld(x: Live, f: nat)
    requires Sound(x) && IsPending(x.ph, f)
    ensures exists t :: 0 <= t < |x.ph| && f in Holds(x.ph[t])
    ensures f < |x.s.mem.descs| && x.s.mem.descs[f].flag == PageTable
    ensures x.s.mem.descs[f].(flag := Kernel) == Desc(Kernel, 1, -1)
  {
    var t :| 0 <= t < |x.ph| && Pending(x.ph[t]) == Some(f);
    assert PhaseOk(x.s, t, x.ph[t]) && f in Holds(x.ph[t]);
  }

  lemma HeldIsLoose(x: Live, t: nat, f: nat)
    requires Sound(x) && t < |x.ph| && f in Holds(x.ph[t])
    ensures Loose(x.s, f)
  {
    assert PhaseOk(x.s, t, x.ph[t]);
  }

  // ---- what the others notice

  /** Core `t` changes only what it holds, what was free, and its own tables. */
  ghost predicate Beyond(x: Live, x': Live, t: nat) {
    && |x.ph| == |x'.ph| == |x.s.mms| == |x'.s.mms| && t < |x.ph|
    && |x'.s.mem.descs| == |x.s.mem.descs| && |x'.s.mem.frames| == |x.s.mem.frames| == |x.s.mem.descs|
    && (forall u | 0 <= u < |x.ph| && u != t :: x'.ph[u] == x.ph[u] && x'.s.mms[u] == x.s.mms[u])
    && (forall f | 0 <= f < |x.s.mem.descs| && f !in Holds(x.ph[t]) && x.s.mem.descs[f].flag != Free ::
          x'.s.mem.descs[f] == x.s.mem.descs[f] && (!HoldsTable(x.s, f, t) ==> x'.s.mem.frames[f] == x.s.mem.frames[f]))
    && (forall f | f in Holds(x'.ph[t]) ::
          f in Holds(x.ph[t]) || (f < |x.s.mem.descs| && x.s.mem.descs[f].flag == Free))
    && (forall q | Level(q) <= LEVELS && Task(q) != t :: Node(x'.s, q) == Node(x.s, q))
    && (forall f: nat | Referenced(x'.s, f) :: Referenced(x.s, f) || f in Holds(x.ph[t]))
  }

  /** A table of another task is out of reach. */
  lemma OthersTable(x: Live, t: nat, u: nat, va: Word, l: nat, f: nat)
    requires Sound(x) && t < |x.ph| && u != t && Table(x.s, u, va, l, f)
    ensures Referenced(x.s, f) && !HoldsTable(x.s, f, t) && f < |x.s.mem.descs| && x.s.mem.descs[f].flag != Free
    ensures f !in Holds(x.ph[t])
  {
    SettledNodes(x);
    SettledReferences(x);
    assert Node(x.s, PathTo(u, va, l)) == Some(f);
    if HoldsTable(x.s, f, t) {
      var p :| Level(p) < LEVELS && Task(p) == t && Node(x.s, p) == Some(f);
      NodesDistinct(Settled(x), p, PathTo(u, va, l));
    }
    if f in Holds(x.ph[t]) {
      HeldIsLoose(x, t, f);
    }
    NotFree(x, f);
  }

  lemma NotFree(x: Live, f: nat)
    requires Sound(x) && Referenced(x.s, f)
    ensures f < |x.s.mem.descs| && x.s.mem.descs[f].flag != Free
  {
    SettledReferences(x);
    var p :| Level(p) <= LEVELS && Node(x.s, p) == Some(f);
    if x.s.mem.descs[f].flag == Free {
      if IsPending(x.ph, f) {
        PendingHeld(x, f);
      }
      FreeUnreferenced(Settled(x), f);
    }
  }

  lemma TableReferenced(s: System, f: nat, t: nat)
    ensures HoldsTable(s, f, t) ==> Referenced(s, f)
  {}

  lemma OthersPhase(x: Live, x': Live, t: nat, u: nat)
    requires Sound(x) && Beyond(x, x', t) && u < |x.ph| && u != t
    ensures PhaseOk(x'.s, u, x'.ph[u])
  {
    PhaseFacts(x, u);
    hide Loose, Table, PhaseOk;
    var ph := x.ph[u];
    forall f | f in Holds(ph) ensures Untouched(x.s, x'.s, f) && Loose(x'.s, f) {
      OthersHeld(x, x', t, u, f);
    }
    forall va: Word, l: nat, f: nat | Table(x.s, u, va, l, f)
      ensures Table(x'.s, u, va, l, f) && x'.s.mem.frames[f] == x.s.mem.frames[f]
    {
      OthersTable(x, t, u, va, l, f);
      TableStays(x.s, x'.s, u, va, l, f);
    }
    PhaseTransfer(x.s, x'.s, u, ph);
  }

  predicate Untouched(s: System, s': System, f: nat) {
    && f < |s.mem.descs| && f < |s'.mem.descs| && s'.mem.descs[f] == s.mem.descs[f]
    && f < |s.mem.frames| && f < |s'.mem.frames| && s'.mem.frames[f] == s.mem.frames[f]
  }

  lemma OthersHeld(x: Live, x': Live, t: nat, u: nat, f: nat)
    requires Sound(x) && Beyond(x, x', t) && u < |x.ph| && u != t && f in Holds(x.ph[u])
    ensures Untouched(x.s, x'.s, f) && Loose(x'.s, f)
  {
    HeldIsLoose(x, u, f);
    assert f !in Holds(x.ph[t]);
    TableReferenced(x.s, f, t);
  }

  lemma TableStays(s: System, s': System, u: nat, va: Word, l: nat, f: nat)
    requires Table(s, u, va, l, f) && |s'.mem.frames| == |s.mem.frames|
    requires Node(s', PathTo(u, va, l)) == Node(s, PathTo(u, va, l))
    ensures Table(s', u, va, l, f)
  {}

  /** A phase stays right while its frames, its tables and its pgd stay as they are. */
  lemma PhaseTransfer(s: System, s': System, t: nat, ph: Phase)
    requires t < |s.mms| && t < |s'.mms| && PhaseOk(s, t, ph) && s'.mms[t].pgd == s.mms[t].pgd
    requires |s'.mem.frames| == |s.mem.frames|
    requires forall f | f in Holds(ph) :: Untouched(s, s', f) && Loose(s', f)
    requires forall va: Word, l: nat, f: nat | Table(s, t, va, l, f) ::
      Table(s', t, va, l, f) && s'.mem.frames[f] == s.mem.frames[f]
    ensures PhaseOk(s', t, ph)
  {
    hide Loose, Table;
    match ph {
      case Idle =>
      case _ => assert ph.g in Holds(ph);
    }
    if ph.GotRoot? || ph.GotTable? || ph.TableFlagged? {
      assert ph.h in Holds(ph);
    }
  }

  lemma OthersApart(x: Live, x': Live, t: nat)
    requires Sound(x) && Beyond(x, x', t)
    ensures HoldApart(x'.ph)
  {
    forall u, v | 0 <= u < v < |x'.ph| ensures Holds(x'.ph[u]) !! Holds(x'.ph[v]) {
      if u == t {
        ApartFrom(x, x', t, v);
      } else if v == t {
        ApartFrom(x, x', t, u);
      }
    }
  }

  lemma ApartFrom(x: Live, x': Live, t: nat, u: nat)
    requires Sound(x) && Beyond(x, x', t) && u < |x.ph| && u != t
    ensures Holds(x'.ph[t]) !! Holds(x'.ph[u])
  {
    assert Holds(x.ph[t]) !! Holds(x.ph[u]);
    forall f | f in Holds(x'.ph[u]) ensures f !in Holds(x'.ph[t]) {
      HeldIsLoose(x, u, f);
    }
  }

  /** A micro-step keeps the invariant if it does so for its own phase and for the settled forest. */
  lemma StepInv(x: Live, x': Live, t: nat)
    requires Sound(x) && Beyond(x, x', t)
    requires PhaseOk(x'.s, t, x'.ph[t]) && Inv(Settled(x'))
    ensures Sound(x')
  {
    OthersApart(x, x', t);
    forall u | 0 <= u < |x'.ph| ensures PhaseOk(x'.s, u, x'.ph[u]) {
      if u != t {
        OthersPhase(x, x', t, u);
      }
    }
  }

  // ---- the forest under the parts of map_page

  lemma NewRoot(s: System, t: nat, h: nat)
    requires Inv(s) && t < |s.mms| && s.mms[t].pgd == 0
    requires h < |s.mem.descs| && !Referenced(s, h) && s.mem.descs[h].flag != PageTable
    ensures Inv(LinkRoot(s, t, h)) && Moves(s, LinkRoot(s, t, h), Root(t), h)
  {
    var own :| Forest(s, own);
    TableLabels(s, own, h, 0);
    RootMoves(s, own, t, h);
    ForestRoot(s, own, t, h);
  }

  lemma NewTableLinked(s: System, p: Path, f: nat, i: nat, h: nat)
    requires Inv(s) && Level(p) < 3 && Node(s, p) == Some(f) && i < PTRS_PER_TABLE && s.mem.frames[f][i] == 0
    requires h < |s.mem.descs| && !Referenced(s, h)
    ensures Task(p) < |s.mms| && Inv(LinkTable(s, p, f, i, h)) && Moves(s, LinkTable(s, p, f, i, h), Step(p, i), h)
  {
    hide Forest, LinkTable, CanLink, Node;
    var own :| Forest(s, own);
    LinkableLoose(s, own, p, f, i, h);
    NewTableMoves(s, own, p, f, i, h);
    ForestTable(s, own, p, f, i, h);
    TableAreas(s, p, f, i, h);
  }

  lemma TableAreas(s: System, p: Path, f: nat, i: nat, h: nat)
    requires Task(p) < |s.mms| && Level(p) < 3 && Sized(s.mem) && f < |s.mem.frames| && i < PTRS_PER_TABLE
    requires h < |s.mem.frames|
    requires GoodAreas(s)
    ensures Sized(LinkTable(s, p, f, i, h).mem) && GoodAreas(LinkTable(s, p, f, i, h))
  {}

  lemma LinkableLoose(s: System, own: map<nat, Path>, p: Path, f: nat, i: nat, h: nat)
    requires Forest(s, own) && Level(p) <= 3 && Node(s, p) == Some(f) && i < PTRS_PER_TABLE
    requires h < |s.mem.frames| && !Referenced(s, h) && (Level(p) < 3 ==> s.mem.frames[f][i] == 0)
    ensures CanLink(s, own, p, f, i, h) && Task(p) < |s.mms| && h !in own
  {
    TableLabels(s, own, h, 0);
    RootExists(s, p);
    DecodeEntry(h, Level(p), |s.mem.frames|);
  }

  lemma NewLeaf(s: System, p: Path, f: nat, i: nat, g: nat)
    requires Inv(s) && Level(p) == 3 && Node(s, p) == Some(f) && i < PTRS_PER_TABLE
    requires g < |s.mem.descs| && !Referenced(s, g) && s.mem.descs[g].flag == User
    ensures Inv(LinkLeaf(s, p, f, i, g)) && Moves(s, LinkLeaf(s, p, f, i, g), Step(p, i), g)
  {
    var own :| Forest(s, own);
    LinkableLoose(s, own, p, f, i, g);
    hide Forest, Flagged, Encoded, Listed, Labelled;
    LinkedMoves(s, own, p, f, i, g, LinkLeaf(s, p, f, i, g));
    ForestLeaf(s, own, p, f, i, g);
  }

  // ---- one action of one core

  /** The records a core may change: what it holds, what was free, its own tables, its own task. */
  ghost predicate Footprint(x: Live, s': System, t: nat) {
    && |x.ph| == |x.s.mms| == |s'.mms| && t < |x.ph|
    && |s'.mem.descs| == |x.s.mem.descs| && |s'.mem.frames| == |x.s.mem.frames| == |x.s.mem.descs|
    && (forall u | 0 <= u < |x.ph| && u != t :: s'.mms[u] == x.s.mms[u])
    && (forall f | 0 <= f < |x.s.mem.descs| && f !in Holds(x.ph[t]) && x.s.mem.descs[f].flag != Free ::
          s'.mem.descs[f] == x.s.mem.descs[f] && (!HoldsTable(x.s, f, t) ==> s'.mem.frames[f] == x.s.mem.frames[f]))
  }

  ghost predicate HoldsMore(s: System, ph: Phase, p: Phase) {
    forall f | f in Holds(p) :: f in Holds(ph) || (f < |s.mem.descs| && s.mem.descs[f].flag == Free)
  }

  /** Every load of every task gives the same. */
  ghost predicate SameLoads(s: System, s': System) {
    forall u: nat, va: Word, i: nat | i < PTRS_PER_TABLE :: Load(s', u, va, i) == Load(s, u, va, i)
  }

  /** The step keeps the invariant, and nobody can read that it happened. */
  ghost predicate Unseen(x: Live, x': Live) { Sound(x') && SameLoads(x.s, x'.s) }

  /** Pages that are mapped before and after have not been written. */
  lemma BeyondPage(x: Live, x': Live, t: nat, p: Path)
    requires Sound(x) && Beyond(x, x', t) && Level(p) == LEVELS && Node(x.s, p).Some?
    ensures var f := Node(x.s, p).value; f < |x'.s.mem.frames| && x'.s.mem.frames[f] == x.s.mem.frames[f]
  {
    var f := Node(x.s, p).value;
    assert Referenced(x.s, f);
    NotFree(x, f);
    SettledNodes(x);
    assert f !in Holds(x.ph[t]) by {
      assert PhaseOk(x.s, t, x.ph[t]);
    }
    SettledReferences(x);
    LeafNoTable(Settled(x), p, f, t);
  }

  lemma NodesApart(s: System, p: Path, q: Path)
    requires IsForest(s) && Level(p) < Level(q) <= LEVELS && Node(s, p).Some? && Node(s, q).Some?
    ensures Node(s, p) != Node(s, q)
  {
    if Node(s, p) == Node(s, q) {
      NodesDistinct(s, p, q);
    }
  }

  lemma LeafNoTable(s: System, p: Path, f: nat, t: nat)
    requires IsForest(s) && Level(p) == LEVELS && Node(s, p) == Some(f)
    ensures !HoldsTable(s, f, t)
  {
    forall q | Level(q) < LEVELS && Node(s, q).Some? ensures Node(s, q) != Some(f) {
      NodesApart(s, q, p);
    }
  }

  lemma BeyondLoads(x: Live, x': Live, t: nat, va: Option<Word>)
    requires Sound(x) && Beyond(x, x', t)
    requires forall q | Level(q) == LEVELS && (va.Some? ==> q != PathTo(t, va.value, LEVELS)) ::
      Node(x'.s, q) == Node(x.s, q)
    ensures forall u: nat, vb: Word, i: nat | i < PTRS_PER_TABLE && (va.Some? ==> u != t || Vpn(vb) != Vpn(va.value)) ::
      Load(x'.s, u, vb, i) == Load(x.s, u, vb, i)
  {
    forall u: nat, vb: Word, i: nat | i < PTRS_PER_TABLE && (va.Some? ==> u != t || Vpn(vb) != Vpn(va.value))
      ensures Load(x'.s, u, vb, i) == Load(x.s, u, vb, i)
    {
      var p := PathTo(u, vb, LEVELS);
      if va.Some? {
        SamePage(u, vb, t, va.value);
      }
      assert Node(x'.s, p) == Node(x.s, p);
      if Node(x.s, p).Some? {
        hide Sound, Beyond, PathTo, Node;
        BeyondPage(x, x', t, p);
      }
    }
  }

  lemma SoundQuiet(x: Live, t: nat, s': System, p: Phase)
    requires Sound(x) && Footprint(x, s', t) && HoldsMore(x.s, x.ph[t], p)
    requires var x' := Live(s', x.ph[t := p]); Inv(Settled(x')) && SameNodes(Settled(x), Settled(x'))
    requires SameNodes(x.s, s') ==> PhaseOk(s', t, p)
    ensures Unseen(x, Live(s', x.ph[t := p]))
  {
    hide PhaseOk, Inv, HoldApart, Sound, Settled, Node, Referenced, HoldsTable;
    var x' := Live(s', x.ph[t := p]);
    SettledNodes(x);
    SettledNodes(x');
    assert SameNodes(x.s, s');
    ReferencesKept(x.s, s');
    StepInv(x, x', t);
    BeyondLoads(x, x', t, None);
  }

  lemma ReferencesKept(s: System, s': System)
    requires SameNodes(s, s')
    ensures forall f: nat :: Referenced(s', f) ==> Referenced(s, f)
  {
    forall f: nat | Referenced(s', f) ensures Referenced(s, f) {
      var q :| Level(q) <= LEVELS && Node(s', q) == Some(f);
      assert Node(s, q) == Some(f);
    }
  }

  lemma ReferencesMoved(s: System, s': System, p: Path, h: nat)
    requires Moves(s, s', p, h)
    ensures forall f: nat :: Referenced(s', f) ==> Referenced(s, f) || f == h
  {
    forall f: nat | Referenced(s', f) ensures Referenced(s, f) || f == h {
      var q :| Level(q) <= LEVELS && Node(s', q) == Some(f);
      assert q != p ==> Node(s, q) == Some(f);
    }
  }

  lemma SoundLink(x: Live, t: nat, s': System, p: Phase, q0: Path, h: nat)
    requires Sound(x) && Footprint(x, s', t) && HoldsMore(x.s, x.ph[t], p) && Task(q0) == t && h in Holds(x.ph[t])
    requires var x' := Live(s', x.ph[t := p]); Inv(Settled(x')) && Moves(Settled(x), Settled(x'), q0, h)
    requires Moves(x.s, s', q0, h) ==> PhaseOk(s', t, p)
    ensures Sound(Live(s', x.ph[t := p])) && (Level(q0) < LEVELS ==> Unseen(x, Live(s', x.ph[t := p])))
    ensures forall va: Word | q0 == PathTo(t, va, LEVELS) :: forall u: nat, vb: Word, i: nat
      | i < PTRS_PER_TABLE && (u != t || Vpn(vb) != Vpn(va)) :: Load(s', u, vb, i) == Load(x.s, u, vb, i)
  {
    hide PhaseOk, Inv, HoldApart, Sound, Settled, Node, Referenced, HoldsTable;
    var x' := Live(s', x.ph[t := p]);
    SettledNodes(x);
    SettledNodes(x');
    assert Moves(x.s, s', q0, h);
    ReferencesMoved(x.s, s', q0, h);
    StepInv(x, x', t);
    hide Footprint, HoldsMore, Beyond;
    if Level(q0) < LEVELS {
      BeyondLoads(x, x', t, None);
    }
    forall va: Word | q0 == PathTo(t, va, LEVELS)
      ensures forall u: nat, vb: Word, i: nat
        | i < PTRS_PER_TABLE && (u != t || Vpn(vb) != Vpn(va)) :: Load(s', u, vb, i) == Load(x.s, u, vb, i)
    {
      BeyondLoads(x, x', t, Some(va));
    }
  }

  lemma PhaseFacts(x: Live, t: nat)
    requires Sound(x) && t < |x.ph|
    ensures |x.ph| == |x.s.mms| && PhaseOk(x.s, t, x.ph[t]) && Sized(x.s.mem) && PhaseShape(x.s, x.ph[t])
    ensures Inv(Settled(x)) && forall f | f in Holds(x.ph[t]) :: Loose(x.s, f) && !Referenced(Settled(x), f)
  {
    SettledReferences(x);
    var ph := x.ph[t];
    assert PhaseOk(x.s, t, ph);
    forall f | f in Holds(ph) ensures Loose(x.s, f) && !Referenced(Settled(x), f) {}
    match ph {
      case Idle =>
      case _ => assert ph.g in Holds(ph);
    }
  }

  lemma KeptFacts(s: System, s': System)
    requires SameNodes(s, s') && |s'.mem.frames| == |s.mem.frames| && |s'.mem.descs| == |s.mem.descs|
    ensures forall f: nat | Loose(s, f) && s'.mem.descs[f].flag != Free :: Loose(s', f)
    ensures forall t: nat, va: Word, l: nat, f: nat | Table(s, t, va, l, f) :: Table(s', t, va, l, f)
    ensures forall t: nat, va: Word, l: nat, f: nat, h: nat | Table(s, t, va, l, f) && Loose(s, h) :: f != h
  {
    forall f: nat | Loose(s, f) && s'.mem.descs[f].flag != Free ensures Loose(s', f) {
      forall p | Level(p) <= LEVELS ensures Node(s', p) != Some(f) {
        assert Node(s', p) == Node(s, p);
      }
    }
    forall t: nat, va: Word, l: nat, f: nat | Table(s, t, va, l, f) ensures Table(s', t, va, l, f) && Referenced(s, f) {
      assert Node(s', PathTo(t, va, l)) == Node(s, PathTo(t, va, l));
    }
  }

  /** Outside the forest nothing is flagged as a page table in the settled system. */
  lemma LooseFlag(s: System, f: nat)
    requires Inv(s) && f < |s.mem.descs| && !Referenced(s, f)
    ensures s.mem.descs[f].flag != PageTable
  {
    var own :| Forest(s, own);
    TableLabels(s, own, f, 0);
  }

  /** get_free_page after the unlock: the frame is zeroed. */
  function Zeroed(ph: Phase): Phase {
    match ph
    case GotPage(va, g, _) => GotPage(va, g, true)
    case GotRoot(va, g, h, _) => GotRoot(va, g, h, true)
    case GotTable(va, g, l, f, h, _) => GotTable(va, g, l, f, h, true)
    case _ => ph
  }

  function Newest(ph: Phase): nat {
    match ph case GotPage(_, g, _) => g case GotRoot(_, _, h, _) => h case GotTable(_, _, _, _, h, _) => h case _ => 0
  }

  lemma ZeroKeeps(x: Live, t: nat)
    requires Sound(x) && t < |x.ph| && (x.ph[t].GotPage? || x.ph[t].GotRoot? || x.ph[t].GotTable?)
    ensures Newest(x.ph[t]) < |x.s.mem.frames|
    ensures Unseen(x, Live(Zero(x.s, Newest(x.ph[t])), x.ph[t := Zeroed(x.ph[t])]))
  {
    hide Unseen, Settled, SameNodes, Sound, Inv, PhaseOk, Loose, Referenced;
    var p, h := Zeroed(x.ph[t]), Newest(x.ph[t]);
    PhaseFacts(x, t);
    assert h in Holds(x.ph[t]);
    ZeroSettled(x, t, h);
    if SameNodes(x.s, Zero(x.s, h)) {
      ZeroPhase(x.s, t, x.ph[t]);
    }
    SoundQuiet(x, t, Zero(x.s, h), p);
  }

  lemma ZeroSettled(x: Live, t: nat, h: nat)
    requires |x.ph| == |x.s.mms| && t < |x.ph| && Inv(Settled(x)) && !Referenced(Settled(x), h) && h < |x.s.mem.frames|
    ensures var x' := Live(Zero(x.s, h), x.ph[t := Zeroed(x.ph[t])]);
      Settled(x') == Zero(Settled(x), h) && Inv(Settled(x')) && SameNodes(Settled(x), Settled(x'))
  {
    var S, p := Settled(x), Zeroed(x.ph[t]);
    PendingSame(x.ph, t, p);
    SettledIs(Live(Zero(x.s, h), x.ph[t := p]), Zero(S, h));
    hide Settled;
    LooseFlag(S, h);
    LooseChange(S, Zero(S, h), h);
  }

  lemma ZeroPhase(s: System, t: nat, ph: Phase)
    requires t < |s.mms| && PhaseOk(s, t, ph) && (ph.GotPage? || ph.GotRoot? || ph.GotTable?)
    requires Newest(ph) < |s.mem.frames| && SameNodes(s, Zero(s, Newest(ph))) && Loose(s, Newest(ph))
    ensures PhaseOk(Zero(s, Newest(ph)), t, Zeroed(ph))
  {
    KeptFacts(s, Zero(s, Newest(ph)));
    hide Loose, Table, SameNodes;
  }

  // ---- get_free_page, up to the unlock

  lemma FreeOutside(x: Live, f: nat)
    requires Sound(x) && f < |x.s.mem.descs| && x.s.mem.descs[f].flag == Free
    ensures !IsPending(x.ph, f) && !Referenced(Settled(x), f) && !Referenced(x.s, f)
  {
    if IsPending(x.ph, f) {
      PendingHeld(x, f);
    }
    FreeUnreferenced(Settled(x), f);
    SettledReferences(x);
  }

  /** The phase after a frame was taken. */
  function Taken(ph: Phase, va: Word, n: nat): Phase {
    match ph
    case GotUser(va, g) => GotRoot(va, g, n, false)
    case At(va, g, l, f) => GotTable(va, g, l, f, n, false)
    case _ => GotPage(va, n, false)
  }

  lemma TakeKeeps(x: Live, t: nat, va: Word)
    requires Sound(x) && t < |x.ph| == |x.s.mms| && FirstFree(x.s.mem.descs) < |x.s.mem.descs|
    requires x.ph[t] == Idle || ((x.ph[t].GotUser? || x.ph[t].At?) && NeedsFrame(x.s, t, x.ph[t]))
    ensures var n := FirstFree(x.s.mem.descs); Unseen(x, Live(Take(x.s, n), x.ph[t := Taken(x.ph[t], va, n)]))
  {
    hide Unseen, Settled, SameNodes, Sound, Inv, PhaseOk, Loose, Referenced;
    var n := FirstFree(x.s.mem.descs);
    PhaseFacts(x, t);
    FreeOutside(x, n);
    TakeSettled(x, t, n, Taken(x.ph[t], va, n));
    if SameNodes(x.s, Take(x.s, n)) {
      TakePhase(x.s, t, x.ph[t], va, n);
    }
    SoundQuiet(x, t, Take(x.s, n), Taken(x.ph[t], va, n));
  }

  lemma TakeSettled(x: Live, t: nat, n: nat, p: Phase)
    requires |x.ph| == |x.s.mms| && t < |x.ph| && Inv(Settled(x)) && !Referenced(Settled(x), n) && n < |x.s.mem.descs|
    requires !IsPending(x.ph, n) && (p.GotRoot? || p.GotTable? || p.GotPage?)
    requires (x.ph[t].Idle? || x.ph[t].GotUser? || x.ph[t].At?)
    ensures var x' := Live(Take(x.s, n), x.ph[t := p]);
      Inv(Settled(x')) && SameNodes(Settled(x), Settled(x'))
  {
    hide Inv;
    var S := Settled(x);
    PendingSame(x.ph, t, p);
    SettledIs(Live(Take(x.s, n), x.ph[t := p]), Take(S, n));
    hide Settled;
    LooseChange(S, Take(S, n), n);
  }

  lemma TakePhase(s: System, t: nat, ph: Phase, va: Word, n: nat)
    requires t < |s.mms| && PhaseOk(s, t, ph) && n < |s.mem.descs| && s.mem.descs[n].flag == Free && !Referenced(s, n)
    requires ph == Idle || ((ph.GotUser? || ph.At?) && NeedsFrame(s, t, ph))
    requires |s.mem.frames| == |s.mem.descs| && SameNodes(s, Take(s, n))
    ensures PhaseOk(Take(s, n), t, Taken(ph, va, n))
  {
    var s' := Take(s, n);
    KeptFacts(s, s');
    ReferencesKept(s, s');
    forall f | f in Holds(ph) ensures Loose(s', f) && f != n {
      assert Loose(s, f);
    }
    assert Loose(s', n);
    hide Loose, Table, SameNodes, Referenced;
  }

  // ---- flags

  lemma UserKeeps(x: Live, t: nat)
    requires Sound(x) && t < |x.ph| && x.ph[t].GotPage? && x.ph[t].zeroed
    ensures var g := x.ph[t].g;
      && g < |x.s.mem.descs|
      && Unseen(x, Live(WithFlag(x.s, g, User), x.ph[t := GotUser(x.ph[t].va, g)]))
  {
    hide Unseen, Settled, SameNodes, Sound, Inv, PhaseOk, Referenced;
    var g := x.ph[t].g;
    var p := GotUser(x.ph[t].va, g);
    PhaseFacts(x, t);
    assert g in Holds(x.ph[t]);
    OwnNotPending(x, t, g);
    UserSettled(x, t, g, p);
    if SameNodes(x.s, WithFlag(x.s, g, User)) {
      UserPhase(x.s, t, x.ph[t]);
    }
    SoundQuiet(x, t, WithFlag(x.s, g, User), p);
  }

  lemma PendingIsHeld(ph: Phase, f: nat)
    ensures Pending(ph) == Some(f) ==> f in Holds(ph)
  {}

  /** What one phase holds no other phase has pending. */
  lemma OwnNotPending(x: Live, t: nat, f: nat)
    requires Sound(x) && t < |x.ph| && f in Holds(x.ph[t]) && Pending(x.ph[t]) != Some(f)
    ensures !IsPending(x.ph, f)
  {
    forall u | 0 <= u < |x.ph| ensures Pending(x.ph[u]) != Some(f) {
      PendingIsHeld(x.ph[u], f);
      if u != t {
        assert f !in Holds(x.ph[u]);
      }
    }
  }

  lemma UserSettled(x: Live, t: nat, g: nat, p: Phase)
    requires |x.ph| == |x.s.mms| && t < |x.ph| && Inv(Settled(x)) && !Referenced(Settled(x), g) && g < |x.s.mem.descs|
    requires !IsPending(x.ph, g) && p.GotUser? && x.ph[t].GotPage?
    ensures var x' := Live(WithFlag(x.s, g, User), x.ph[t := p]);
      Inv(Settled(x')) && SameNodes(Settled(x), Settled(x'))
  {
    var S := Settled(x);
    PendingSame(x.ph, t, p);
    SettledIs(Live(WithFlag(x.s, g, User), x.ph[t := p]), WithFlag(S, g, User));
    hide Settled;
    LooseChange(S, WithFlag(S, g, User), g);
  }

  lemma UserPhase(s: System, t: nat, ph: Phase)
    requires t < |s.mms| && PhaseOk(s, t, ph) && ph.GotPage? && ph.zeroed && |s.mem.frames| == |s.mem.descs|
    requires ph.g < |s.mem.descs| && SameNodes(s, WithFlag(s, ph.g, User)) && Loose(s, ph.g)
    ensures PhaseOk(WithFlag(s, ph.g, User), t, GotUser(ph.va, ph.g))
  {
    KeptFacts(s, WithFlag(s, ph.g, User));
    hide Loose, Table, SameNodes;
  }

  /** mem_map[..].flags = FRAME_PAGETABLE: the settled system does not see it yet. */
  lemma FlagKeeps(x: Live, t: nat)
    requires Sound(x) && t < |x.ph| && x.ph[t].GotTable? && x.ph[t].zeroed
    ensures var ph := x.ph[t];
      && ph.h < |x.s.mem.descs|
      && Unseen(x, Live(WithFlag(x.s, ph.h, PageTable), x.ph[t := TableFlagged(ph.va, ph.g, ph.l, ph.f, ph.h)]))
  {
    hide Unseen, Settled, SameNodes, Sound, Inv, PhaseOk, Referenced;
    var ph := x.ph[t];
    var p := TableFlagged(ph.va, ph.g, ph.l, ph.f, ph.h);
    PhaseFacts(x, t);
    assert ph.h in Holds(ph);
    FlagSettled(x, t, p);
    if SameNodes(x.s, WithFlag(x.s, ph.h, PageTable)) {
      FlagPhase(x.s, t, ph);
    }
    SoundQuiet(x, t, WithFlag(x.s, ph.h, PageTable), p);
  }

  lemma FlagSettled(x: Live, t: nat, p: Phase)
    requires |x.ph| == |x.s.mms| && t < |x.ph| && x.ph[t].GotTable? && PhaseOk(x.s, t, x.ph[t]) && Inv(Settled(x))
    requires p.TableFlagged? && p.h == x.ph[t].h
    ensures var x' := Live(WithFlag(x.s, p.h, PageTable), x.ph[t := p]);
      Inv(Settled(x')) && SameNodes(Settled(x), Settled(x'))
  {
    hide Inv;
    PendingMore(x.ph, t, p, p.h);
    SettledIs(Live(WithFlag(x.s, p.h, PageTable), x.ph[t := p]), Settled(x));
  }

  lemma FlagPhase(s: System, t: nat, ph: Phase)
    requires t < |s.mms| && PhaseOk(s, t, ph) && ph.GotTable? && ph.zeroed && |s.mem.frames| == |s.mem.descs|
    requires ph.h < |s.mem.descs| && SameNodes(s, WithFlag(s, ph.h, PageTable)) && Loose(s, ph.h)
    ensures PhaseOk(WithFlag(s, ph.h, PageTable), t, TableFlagged(ph.va, ph.g, ph.l, ph.f, ph.h))
  {
    KeptFacts(s, WithFlag(s, ph.h, PageTable));
    hide Loose, Table, SameNodes;
  }

  // ---- the root

  lemma RootKeeps(x: Live, t: nat)
    requires Sound(x) && t < |x.ph| == |x.s.mms| && x.ph[t].GotRoot? && x.ph[t].zeroed && Pa(x.ph[t].h) < WORD_LIMIT
    ensures var ph := x.ph[t]; Unseen(x, Live(SetPgd(x.s, t, ph.h), x.ph[t := RootSet(ph.va, ph.g, ph.h)]))
  {
    hide Unseen, Settled, Moves, Sound, Inv, PhaseOk, Referenced;
    var ph := x.ph[t];
    var p := RootSet(ph.va, ph.g, ph.h);
    PhaseFacts(x, t);
    assert ph.h in Holds(ph);
    OwnNotPending(x, t, ph.h);
    RootSettled(x, t, p);
    if Moves(x.s, SetPgd(x.s, t, ph.h), Root(t), ph.h) {
      RootPhase(x.s, t, ph);
    }
    SoundLink(x, t, SetPgd(x.s, t, ph.h), p, Root(t), ph.h);
  }

  lemma RootSettled(x: Live, t: nat, p: Phase)
    requires |x.ph| == |x.s.mms| && t < |x.ph| && x.ph[t].GotRoot? && x.ph[t].zeroed && PhaseOk(x.s, t, x.ph[t])
    requires Inv(Settled(x)) && !Referenced(Settled(x), x.ph[t].h) && !IsPending(x.ph, x.ph[t].h)
    requires p == RootSet(x.ph[t].va, x.ph[t].g, x.ph[t].h) && Pa(p.h) < WORD_LIMIT
    ensures var x' := Live(SetPgd(x.s, t, p.h), x.ph[t := p]);
      Inv(Settled(x')) && Moves(Settled(x), Settled(x'), Root(t), p.h)
  {
    var S := Settled(x);
    PendingSame(x.ph, t, p);
    assert S.mem.descs[p.h] == Desc(Kernel, 1, -1) && S.mem.frames[p.h] == ZeroPage();
    assert Claimed(S.mem, p.h, Kernel) == S.mem;
    SettledIs(Live(SetPgd(x.s, t, p.h), x.ph[t := p]), LinkRoot(S, t, p.h));
    hide Settled;
    NewRoot(S, t, p.h);
  }

  /** What stays right while a position that led nowhere now leads to `h`. */
  lemma MovedFacts(s: System, s': System, p: Path, h: nat)
    requires Moves(s, s', p, h) && |s'.mem.frames| == |s.mem.frames| && |s'.mem.descs| == |s.mem.descs|
    ensures forall f: nat | Loose(s, f) && f != h && s'.mem.descs[f].flag != Free :: Loose(s', f)
    ensures forall t: nat, va: Word, l: nat, f: nat | Table(s, t, va, l, f) && PathTo(t, va, l) != p ::
      Table(s', t, va, l, f)
    ensures forall t: nat, va: Word, l: nat, f: nat, g: nat | Table(s, t, va, l, f) && Loose(s, g) :: f != g
  {
    ReferencesMoved(s, s', p, h);
    forall t: nat, va: Word, l: nat, f: nat | Table(s, t, va, l, f) ensures Referenced(s, f) {}
  }

  lemma RootPhase(s: System, t: nat, ph: Phase)
    requires t < |s.mms| && PhaseOk(s, t, ph) && ph.GotRoot? && Pa(ph.h) < WORD_LIMIT
    requires Moves(s, SetPgd(s, t, ph.h), Root(t), ph.h)
    ensures PhaseOk(SetPgd(s, t, ph.h), t, RootSet(ph.va, ph.g, ph.h))
  {
    MovedFacts(s, SetPgd(s, t, ph.h), Root(t), ph.h);
    assert ph.g in Holds(ph);
    assert Loose(s, ph.g);
    hide Loose, Table, Moves;
  }

  // ---- recording

  lemma RecordKeeps(x: Live, t: nat)
    requires Sound(x) && t < |x.ph| == |x.s.mms| && (x.ph[t].RootSet? || x.ph[t].TableLinked?)
    requires Pa(x.ph[t].h) < WORD_LIMIT
    ensures var ph := x.ph[t];
      Unseen(x, Live(Record(x.s, t, ph.h), x.ph[t := At(ph.va, ph.g, if ph.RootSet? then 0 else ph.l + 1, ph.h)]))
  {
    hide Unseen, Settled, SameNodes, Sound, Inv, PhaseOk, Referenced;
    var ph := x.ph[t];
    var p := At(ph.va, ph.g, if ph.RootSet? then 0 else ph.l + 1, ph.h);
    PhaseFacts(x, t);
    RecordSettled(x, t, p);
    if SameNodes(x.s, Record(x.s, t, ph.h)) {
      RecordPhase(x.s, t, ph);
    }
    SoundQuiet(x, t, Record(x.s, t, ph.h), p);
  }

  lemma RecordSettled(x: Live, t: nat, p: Phase)
    requires |x.ph| == |x.s.mms| && t < |x.ph| && (x.ph[t].RootSet? || x.ph[t].TableLinked?) && Inv(Settled(x))
    requires p.At? && p.f == x.ph[t].h && Pa(p.f) < WORD_LIMIT
    ensures var x' := Live(Record(x.s, t, p.f), x.ph[t := p]);
      Inv(Settled(x')) && SameNodes(Settled(x), Settled(x'))
  {
    hide Inv;
    PendingSame(x.ph, t, p);
    SettledIs(Live(Record(x.s, t, p.f), x.ph[t := p]), Settled(x));
  }

  lemma RecordPhase(s: System, t: nat, ph: Phase)
    requires t < |s.mms| && PhaseOk(s, t, ph) && (ph.RootSet? || ph.TableLinked?) && Pa(ph.h) < WORD_LIMIT
    requires Sized(s.mem)
    requires SameNodes(s, Record(s, t, ph.h))
    ensures PhaseOk(Record(s, t, ph.h), t, At(ph.va, ph.g, if ph.RootSet? then 0 else ph.l + 1, ph.h))
  {
    KeptFacts(s, Record(s, t, ph.h));
    assert ph.g in Holds(ph);
    assert Loose(s, ph.g);
    DecodeEntry(ph.h, 0, |s.mem.frames|);
    assert ph.RootSet? ==> Table(s, t, ph.va, 0, ph.h);
    hide Loose, Table, SameNodes;
  }

  // ---- going down a level through a table that is there

  lemma DescendKeeps(x: Live, t: nat)
    requires Sound(x) && t < |x.ph| == |x.s.mms| && (x.ph[t].GotUser? || (x.ph[t].At? && x.ph[t].l < 3))
    requires !NeedsFrame(x.s, t, x.ph[t])
    ensures Sized(x.s.mem) && PhaseShape(x.s, x.ph[t]) && Unseen(x, Live(x.s, x.ph[t := Act(x.s, t, x.ph[t]).1]))
  {
    hide Unseen, Settled, SameNodes, Sound, Inv, PhaseOk, Referenced;
    PhaseFacts(x, t);
    var ph, p := x.ph[t], Act(x.s, t, x.ph[t]).1;
    DescendPhase(x, t);
    DescendSettled(x, t, p);
    SoundQuiet(x, t, x.s, p);
  }

  lemma DescendSettled(x: Live, t: nat, p: Phase)
    requires |x.ph| == |x.s.mms| && t < |x.ph| && (x.ph[t].GotUser? || x.ph[t].At?) && (p.GotUser? || p.At?)
    requires Inv(Settled(x))
    ensures var x' := Live(x.s, x.ph[t := p]); Inv(Settled(x')) && SameNodes(Settled(x), Settled(x'))
  {
    hide Inv;
    PendingSame(x.ph, t, p);
    SettledIs(Live(x.s, x.ph[t := p]), Settled(x));
  }

  lemma DescendPhase(x: Live, t: nat)
    requires Sound(x) && t < |x.ph| == |x.s.mms| && (x.ph[t].GotUser? || (x.ph[t].At? && x.ph[t].l < 3))
    requires !NeedsFrame(x.s, t, x.ph[t]) && Sized(x.s.mem) && PhaseShape(x.s, x.ph[t])
    ensures var p := Act(x.s, t, x.ph[t]).1;
      PhaseOk(x.s, t, p) && p.At? && p.g == x.ph[t].g && Holds(p) == Holds(x.ph[t])
  {
    hide Sound, Settled, Table, PathTo, Index, Inv;
    var ph, s := x.ph[t], x.s;
    PhaseFacts(x, t);
    assert ph.g in Holds(ph);
    if ph.GotUser? {
      RootTable(x, t, ph.va);
    } else {
      TableBelow(x, t, ph.va, ph.l, ph.f);
    }
  }

  lemma RootTable(x: Live, t: nat, va: Word)
    requires Sound(x) && t < |x.ph| == |x.s.mms| && x.s.mms[t].pgd != 0
    ensures Decode(x.s.mms[t].pgd, |x.s.mem.frames|).Some?
    ensures Table(x.s, t, va, 0, Decode(x.s.mms[t].pgd, |x.s.mem.frames|).value)
  {
    SettledNodes(x);
    RootThere(Settled(x), t);
    assert Node(x.s, Root(t)).Some?;
  }

  lemma TableBelow(x: Live, t: nat, va: Word, l: nat, f: nat)
    requires Sound(x) && t < |x.ph| == |x.s.mms| && l < 3 && Table(x.s, t, va, l, f) && !NoEntry(x.s, va, l, f)
    ensures Decode(x.s.mem.frames[f][Index(va, l)], |x.s.mem.frames|).Some?
    ensures Table(x.s, t, va, l + 1, Decode(x.s.mem.frames[f][Index(va, l)], |x.s.mem.frames|).value)
  {
    SettledNodes(x);
    var p, i := PathTo(t, va, l), Index(va, l);
    EntryThere(Settled(x), p, f, i);
    assert PathTo(t, va, l + 1) == Step(p, i);
    assert Node(x.s, Step(p, i)) == Child(x.s.mem.frames, f, i);
  }

  lemma RootThere(s: System, t: nat)
    requires Inv(s) && t < |s.mms| && s.mms[t].pgd != 0
    ensures Node(s, Root(t)).Some?
  {
    var own :| Forest(s, own);
    RootNode(s, own, t);
  }

  lemma EntryThere(s: System, p: Path, f: nat, i: nat)
    requires Inv(s) && Level(p) <= 3 && Node(s, p) == Some(f) && i < PTRS_PER_TABLE && s.mem.frames[f][i] != 0
    ensures Decode(s.mem.frames[f][i], |s.mem.frames|).Some?
  {
    var own :| Forest(s, own);
    assert f in own && own[f] == p;
  }

  // ---- the entries

  lemma EntryKeeps(x: Live, t: nat)
    requires Sound(x) && t < |x.ph| == |x.s.mms| && x.ph[t].TableFlagged?
    ensures var ph := x.ph[t]; Sized(x.s.mem) && PhaseShape(x.s, ph) && Entry(ph.h, ph.l) < WORD_LIMIT
    ensures var ph := x.ph[t];
      Unseen(x, Live(WriteEntry(x.s, ph.f, Index(ph.va, ph.l), ph.h, ph.l),
                     x.ph[t := TableLinked(ph.va, ph.g, ph.l, ph.f, ph.h)]))
  {
    hide Unseen, Settled, Moves, Sound, Inv, Referenced, HoldsTable, Index;
    var ph := x.ph[t];
    var p := TableLinked(ph.va, ph.g, ph.l, ph.f, ph.h);
    PhaseFacts(x, t);
    assert ph.h in Holds(ph);
    DecodeEntry(ph.h, ph.l, |x.s.mem.frames|);
    var s' := WriteEntry(x.s, ph.f, Index(ph.va, ph.l), ph.h, ph.l);
    var q := Step(PathTo(t, ph.va, ph.l), Index(ph.va, ph.l));
    TableHeld(x.s, t, ph.va, ph.l, ph.f);
    EntrySettled(x, t, p);
    if Moves(x.s, s', q, ph.h) {
      EntryPhase(x.s, t, ph);
    }
    hide PhaseOk;
    SoundLink(x, t, s', p, q, ph.h);
  }

  lemma TableHeld(s: System, t: nat, va: Word, l: nat, f: nat)
    requires Table(s, t, va, l, f)
    ensures HoldsTable(s, f, t) && Task(PathTo(t, va, l)) == t
  {}

  lemma EntrySettled(x: Live, t: nat, p: Phase)
    requires Sound(x) && t < |x.ph| == |x.s.mms| && x.ph[t].TableFlagged? && PhaseOk(x.s, t, x.ph[t]) && Inv(Settled(x))
    requires PhaseShape(x.s, x.ph[t]) && Sized(x.s.mem) && !Referenced(Settled(x), x.ph[t].h)
    requires p == TableLinked(x.ph[t].va, x.ph[t].g, x.ph[t].l, x.ph[t].f, x.ph[t].h) && Entry(p.h, p.l) < WORD_LIMIT
    ensures var x' := Live(WriteEntry(x.s, p.f, Index(p.va, p.l), p.h, p.l), x.ph[t := p]);
      Inv(Settled(x')) && Moves(Settled(x), Settled(x'), Step(PathTo(t, p.va, p.l), Index(p.va, p.l)), p.h)
  {
    var S, i, q := Settled(x), Index(p.va, p.l), PathTo(t, p.va, p.l);
    SettledNodes(x);
    PendingLess(x.ph, t, p, p.h);
    assert Level(q) == p.l && Task(q) == t && Node(S, q) == Some(p.f);
    hide Inv, Referenced, Node, Index, PathTo;
    NewTableLinked(S, q, p.f, i, p.h);
    LinkedSettled(x, t, p, i, q);
  }

  lemma LinkedSettled(x: Live, t: nat, p: Phase, i: nat, q: Path)
    requires |x.ph| == |x.s.mms| && t < |x.ph| && x.ph[t].TableFlagged? && NewTable(x.s, x.ph[t].h, PageTable, true)
    requires PhaseShape(x.s, x.ph[t]) && Sized(x.s.mem) && i < PTRS_PER_TABLE && Sized(Settled(x).mem)
    requires p == TableLinked(x.ph[t].va, x.ph[t].g, x.ph[t].l, x.ph[t].f, x.ph[t].h) && Entry(p.h, p.l) < WORD_LIMIT
    requires forall f :: IsPending(x.ph[t := p], f) <==> IsPending(x.ph, f) && f != p.h
    requires Level(q) == p.l && Task(q) == t
    ensures Settled(Live(WriteEntry(x.s, p.f, i, p.h, p.l), x.ph[t := p])) == LinkTable(Settled(x), q, p.f, i, p.h)
  {
    var S := Settled(x);
    LinkTableIs(S, q, p.f, i, p.h);
    var s' := WriteEntry(x.s, p.f, i, p.h, p.l);
    assert x.s.mem.frames[p.h := ZeroPage()] == x.s.mem.frames;
    assert s'.mem.frames == Linked(S.mem.frames, p.f, i, p.h, p.l);
    hide LinkTable, Linked;
    SettledIs(Live(s', x.ph[t := p]), LinkTable(S, q, p.f, i, p.h));
  }

  lemma EntryPhase(s: System, t: nat, ph: Phase)
    requires t < |s.mms| && PhaseOk(s, t, ph) && ph.TableFlagged? && PhaseShape(s, ph) && Entry(ph.h, ph.l) < WORD_LIMIT
    requires |s.mem.frames| == |s.mem.descs|
    requires Moves(s, WriteEntry(s, ph.f, Index(ph.va, ph.l), ph.h, ph.l),
                   Step(PathTo(t, ph.va, ph.l), Index(ph.va, ph.l)), ph.h)
    ensures PhaseOk(WriteEntry(s, ph.f, Index(ph.va, ph.l), ph.h, ph.l), t, TableLinked(ph.va, ph.g, ph.l, ph.f, ph.h))
  {
    var i := Index(ph.va, ph.l);
    var q, s' := Step(PathTo(t, ph.va, ph.l), i), WriteEntry(s, ph.f, i, ph.h, ph.l);
    MovedFacts(s, s', q, ph.h);
    assert Loose(s, ph.g) by {
      assert ph.g in Holds(ph);
    }
    assert PathTo(t, ph.va, ph.l + 1) == q && Level(q) != Level(PathTo(t, ph.va, ph.l));
    assert Node(s', q) == Some(ph.h);
    assert Table(s', t, ph.va, ph.l + 1, ph.h);
    hide Moves, Loose, PathTo, Table;
  }

  lemma LeafKeepsSound(x: Live, t: nat)
    requires Sound(x) && t < |x.ph| == |x.s.mms| && x.ph[t].At? && x.ph[t].l == 3
    ensures var ph := x.ph[t]; Sized(x.s.mem) && PhaseShape(x.s, ph) && Entry(ph.g, 3) < WORD_LIMIT
    ensures var ph := x.ph[t]; Sound(Live(WriteEntry(x.s, ph.f, Index(ph.va, 3), ph.g, 3), x.ph[t := Idle]))
    ensures var ph := x.ph[t]; var s' := WriteEntry(x.s, ph.f, Index(ph.va, 3), ph.g, 3);
      && Moves(x.s, s', PathTo(t, ph.va, LEVELS), ph.g)
      && forall u: nat, vb: Word, i: nat | i < PTRS_PER_TABLE && (u != t || Vpn(vb) != Vpn(ph.va)) ::
           Load(s', u, vb, i) == Load(x.s, u, vb, i)
  {
    hide Unseen, Settled, Moves, Sound, Inv, Referenced, HoldsTable, Index;
    var ph := x.ph[t];
    PhaseFacts(x, t);
    assert ph.g in Holds(ph);
    DecodeEntry(ph.g, 3, |x.s.mem.frames|);
    var s' := WriteEntry(x.s, ph.f, Index(ph.va, 3), ph.g, 3);
    TableHeld(x.s, t, ph.va, 3, ph.f);
    LeafSettled(x, t);
    hide PhaseOk;
    IdleOk(s', t);
    SoundLink(x, t, s', Idle, PathTo(t, ph.va, LEVELS), ph.g);
  }

  lemma IdleOk(s: System, t: nat)
    ensures t < |s.mms| ==> PhaseOk(s, t, Idle)
  {}

  lemma LeafSettled(x: Live, t: nat)
    requires Sound(x) && t < |x.ph| == |x.s.mms| && x.ph[t].At? && x.ph[t].l == 3 && PhaseOk(x.s, t, x.ph[t])
    requires Inv(Settled(x))
    requires PhaseShape(x.s, x.ph[t]) && Sized(x.s.mem) && !Referenced(Settled(x), x.ph[t].g)
    requires Entry(x.ph[t].g, 3) < WORD_LIMIT
    ensures var ph := x.ph[t]; var x' := Live(WriteEntry(x.s, ph.f, Index(ph.va, 3), ph.g, 3), x.ph[t := Idle]);
      && Inv(Settled(x')) && Moves(Settled(x), Settled(x'), PathTo(t, ph.va, LEVELS), ph.g)
      && Moves(x.s, x'.s, PathTo(t, ph.va, LEVELS), ph.g)
  {
    hide Sound, Inv, Referenced, Settled, Index;
    var ph, S := x.ph[t], Settled(x);
    var i, q := Index(ph.va, 3), PathTo(t, ph.va, 3);
    var x' := Live(WriteEntry(x.s, ph.f, i, ph.g, 3), x.ph[t := Idle]);
    SettledNodes(x);
    SettledNodes(x');
    LeafLinked(x, t, i, q);
    assert Node(S, q) == Some(ph.f) && PathTo(t, ph.va, LEVELS) == Step(q, i);
    hide Node, PathTo;
    NewLeaf(S, q, ph.f, i, ph.g);
  }

  lemma LeafLinked(x: Live, t: nat, i: nat, q: Path)
    requires Sound(x) && t < |x.ph| == |x.s.mms| && x.ph[t].At? && i < PTRS_PER_TABLE && Level(q) == 3
    requires PhaseShape(x.s, x.ph[t]) && Sized(x.s.mem) && Entry(x.ph[t].g, 3) < WORD_LIMIT && PhaseOk(x.s, t, x.ph[t])
    ensures var ph := x.ph[t];
      && Sized(Settled(x).mem) && Settled(x).mem.descs[ph.g].flag == User
      && Settled(Live(WriteEntry(x.s, ph.f, i, ph.g, 3), x.ph[t := Idle])) == LinkLeaf(Settled(x), q, ph.f, i, ph.g)
  {
    var ph, S := x.ph[t], Settled(x);
    PendingSame(x.ph, t, Idle);
    assert ph.g in Holds(ph);
    OwnNotPending(x, t, ph.g);
    hide Sound;
    SettledIs(Live(WriteEntry(x.s, ph.f, i, ph.g, 3), x.ph[t := Idle]), LinkLeaf(S, q, ph.f, i, ph.g));
  }

  // ---- any action of any core

  /** The store that completes the mapping. */
  predicate IsLast(ph: Phase) { ph.At? && ph.l == 3 }

  lemma FrameKeeps(x: Live, t: nat)
    requires Sound(x) && Possible(x, Advance(t)) && (x.ph[t].GotPage? || x.ph[t].GotRoot? || x.ph[t].GotTable?)
    ensures Unseen(x, Made(x, Advance(t)))
  {
    hide Sound, Unseen, Settled, Holds, PhaseOk, WithFlag, Zero, SetPgd, FirstFree, Sized;
    PhaseFacts(x, t);
    var ph := x.ph[t];
    if !ph.zeroed {
      ZeroKeeps(x, t);
    } else if ph.GotPage? {
      UserKeeps(x, t);
    } else if ph.GotTable? {
      FlagKeeps(x, t);
    } else {
      PaFits(x.s.mem, ph.h, 0);
      RootKeeps(x, t);
    }
  }

  lemma WalkKeeps(x: Live, t: nat)
    requires Sound(x) && Possible(x, Advance(t)) && (x.ph[t].GotUser? || x.ph[t].At?) && !IsLast(x.ph[t])
    ensures Unseen(x, Made(x, Advance(t)))
  {
    hide Sound, Unseen, Settled, Holds, PhaseOk, Take, WriteEntry, FirstFree, Sized, Index;
    PhaseFacts(x, t);
    if NeedsFrame(x.s, t, x.ph[t]) {
      TakeKeeps(x, t, x.ph[t].va);
    } else {
      DescendKeeps(x, t);
    }
  }

  lemma LinkKeeps(x: Live, t: nat)
    requires Sound(x) && Possible(x, Advance(t)) && (x.ph[t].RootSet? || x.ph[t].TableFlagged? || x.ph[t].TableLinked?)
    ensures Unseen(x, Made(x, Advance(t)))
  {
    hide Sound, Unseen, Settled, Holds, PhaseOk, Record, WriteEntry, FirstFree, Sized, Index;
    PhaseFacts(x, t);
    var ph := x.ph[t];
    PaFits(x.s.mem, ph.h, 0);
    if ph.TableFlagged? {
      EntryKeeps(x, t);
    } else {
      RecordKeeps(x, t);
    }
  }

  /** Before its last store a mapping core changes nothing that any task can read. */
  lemma AdvanceUnseen(x: Live, t: nat)
    requires Sound(x) && Possible(x, Advance(t)) && !IsLast(x.ph[t])
    ensures Unseen(x, Made(x, Advance(t)))
  {
    hide Sound, Made, Unseen;
    match x.ph[t] {
      case GotUser(_, _) => WalkKeeps(x, t);
      case At(_, _, _, _) => WalkKeeps(x, t);
      case RootSet(_, _, _) => LinkKeeps(x, t);
      case TableFlagged(_, _, _, _, _) => LinkKeeps(x, t);
      case TableLinked(_, _, _, _, _) => LinkKeeps(x, t);
      case _ => FrameKeeps(x, t);
    }
  }

  /** The last store makes exactly the page at `va` of its task readable, and it reads zeros. */
  lemma LastStore(x: Live, t: nat, u: nat, vb: Word, i: nat)
    requires Sound(x) && Possible(x, Advance(t)) && IsLast(x.ph[t]) && i < PTRS_PER_TABLE
    ensures var x' := Made(x, Advance(t));
      && Sound(x') && x'.ph[t] == Idle
      && Load(x'.s, u, vb, i) == if u == t && Vpn(vb) == Vpn(x.ph[t].va) then Some(0) else Load(x.s, u, vb, i)
  {
    hide Sound, Settled, PhaseOk, Moves, Index;
    var ph, x' := x.ph[t], Made(x, Advance(t));
    LeafKeepsSound(x, t);
    SamePage(u, vb, t, ph.va);
    if u == t && Vpn(vb) == Vpn(ph.va) {
      LeafReads(x, t, PathTo(u, vb, LEVELS));
    }
  }

  lemma LeafReads(x: Live, t: nat, q: Path)
    requires Sound(x) && t < |x.ph| && IsLast(x.ph[t]) && PhaseShape(x.s, x.ph[t]) && Entry(x.ph[t].g, 3) < WORD_LIMIT
    requires var ph := x.ph[t]; Moves(x.s, WriteEntry(x.s, ph.f, Index(ph.va, 3), ph.g, 3), q, ph.g)
    requires Level(q) == LEVELS
    ensures var ph := x.ph[t]; var s' := WriteEntry(x.s, ph.f, Index(ph.va, 3), ph.g, 3);
      Node(s', q) == Some(ph.g) && s'.mem.frames[ph.g] == ZeroPage()
  {
    hide Sound, Settled;
    var ph := x.ph[t];
    PhaseFacts(x, t);
    assert ph.g in Holds(ph);
    KeptFacts(x.s, x.s);
    assert Table(x.s, t, ph.va, 3, ph.f) && Loose(x.s, ph.g);
  }

  lemma BeginUnseen(x: Live, t: nat, va: Word)
    requires Sound(x) && Possible(x, Begin(t, va))
    ensures Unseen(x, Made(x, Begin(t, va)))
  {
    hide Sound, Unseen;
    TakeKeeps(x, t, va);
  }
}
