/** The pieces of one mapping, run without interruption, add up to allocate_user_page as one step. */
module MappingAlone {
  import opened Basics
  import opened Frames
  import opened PageTables
  import opened Mapping
  import opened Fork
  import opened MemoryRuns
  import opened PageMapper
  import opened MemoryInterleaving
  import opened InterleavingRuns

  /** The core that works for task `t` gets from `x` to `y` without anybody else moving. */
  ghost predicate Works(x: Live, t: nat, y: Live) {
    exists moves: seq<Move> ::
      InterleavingRuns.Run(x, moves, y) && forall i | 0 <= i < |moves| :: moves[i] == Advance(t)
  }

  lemma {:induction false} RunThen(x: Live, a: seq<Move>, y: Live, b: seq<Move>, z: Live)
    requires InterleavingRuns.Run(x, a, y) && InterleavingRuns.Run(y, b, z)
    ensures InterleavingRuns.Run(x, a + b, z)
    decreases |a|
  {
    hide Possible, Made;
    if a == [] {
      assert a + b == b;
    } else {
      RunThen(Made(x, a[0]), a[1..], y, b, z);
      assert (a + b)[1..] == a[1..] + b;
    }
  }

  lemma WorksThen(x: Live, t: nat, y: Live, z: Live)
    requires Works(x, t, y) && Works(y, t, z)
    ensures Works(x, t, z)
  {
    var a :| InterleavingRuns.Run(x, a, y) && forall i | 0 <= i < |a| :: a[i] == Advance(t);
    var b :| InterleavingRuns.Run(y, b, z) && forall i | 0 <= i < |b| :: b[i] == Advance(t);
    RunThen(x, a, y, b, z);
    assert forall i | 0 <= i < |a + b| :: (a + b)[i] == Advance(t);
  }

  lemma WorksOne(x: Live, t: nat, y: Live)
    requires Possible(x, Advance(t)) && y == Made(x, Advance(t))
    ensures Works(x, t, y)
  {
    hide Possible, Made;
    var moves := [Advance(t)];
    assert moves[1..] == [];
    assert InterleavingRuns.Run(y, [], y);
    assert InterleavingRuns.Run(x, moves, y);
  }

  /** One action, when it is possible. */
  lemma GoesTo(s: System, ph: seq<Phase>, t: nat, p: Phase, s': System, p': Phase)
    requires Sized(s.mem) && |ph| == |s.mms| && t < |ph| && p != Idle && PhaseShape(s, p)
    requires NeedsFrame(s, t, p) ==> FirstFree(s.mem.descs) < |s.mem.descs|
    requires p.RootSet? || p.TableLinked? ==> |s.mms[t].kernelPages| < MAX_PROCESS_PAGES
    requires Act(s, t, p) == (s', p')
    ensures Works(Live(s, ph[t := p]), t, Live(s', ph[t := p']))
  {
    hide Act, NeedsFrame, PhaseShape;
    var x, y := Live(s, ph[t := p]), Live(s', ph[t := p']);
    assert ph[t := p][t := p'] == ph[t := p'];
    assert Made(x, Advance(t)) == y;
    WorksOne(x, t, y);
  }

  // ---- the user frame

  lemma UserPage(s: System, ph: seq<Phase>, t: nat, va: Word)
    requires Sized(s.mem) && |ph| == |s.mms| && t < |ph| && ph[t] == Idle && FirstFree(s.mem.descs) < |s.mem.descs|
    ensures var g := FirstFree(s.mem.descs);
      && Possible(Live(s, ph), Begin(t, va))
      && Works(Made(Live(s, ph), Begin(t, va)), t, Live(s.(mem := Claimed(s.mem, g, User)), ph[t := GotUser(va, g)]))
  {
    var g := FirstFree(s.mem.descs);
    var x0 := Made(Live(s, ph), Begin(t, va));
    var x1 := Live(Zero(x0.s, g), ph[t := GotPage(va, g, true)]);
    var x2 := Live(s.(mem := Claimed(s.mem, g, User)), ph[t := GotUser(va, g)]);
    assert Made(x0, Advance(t)) == x1;
    assert x2.s.mem.descs == WithFlag(x1.s, g, User).mem.descs;
    assert Made(x1, Advance(t)) == x2;
    WorksOne(x0, t, x1);
    WorksOne(x1, t, x2);
    hide *;
    WorksThen(x0, t, x1, x2);
  }

  // ---- the root

  lemma NewRootAlone(s: System, ph: seq<Phase>, t: nat, va: Word, g: nat)
    requires Sized(s.mem) && |ph| == |s.mms| && t < |ph| && g < |s.mem.frames| && ph[t] == GotUser(va, g)
    requires s.mms[t].pgd == 0 && FirstFree(s.mem.descs) < |s.mem.descs| && |s.mms[t].kernelPages| < MAX_PROCESS_PAGES
    ensures var n := FirstFree(s.mem.descs); Works(Live(s, ph), t, Live(LinkRoot(s, t, n), ph[t := At(va, g, 0, n)]))
  {
    var n := FirstFree(s.mem.descs);
    PaFits(s.mem, n, 0);
    var s1 := Take(s, n);
    var s2 := Zero(s1, n);
    var s3 := SetPgd(s2, t, n);
    assert Record(s3, t, n) == LinkRoot(s, t, n);
    assert ph[t := GotUser(va, g)] == ph;
    hide Works, Take, Zero, SetPgd, Record, LinkRoot;
    RootFrame(s, ph, t, va, g, n, s1, s2);
    RootLink(s2, ph, t, va, g, n, s3, Record(s3, t, n));
    WorksThen(Live(s, ph), t, Live(s2, ph[t := GotRoot(va, g, n, true)]),
              Live(Record(s3, t, n), ph[t := At(va, g, 0, n)]));
  }

  lemma RootFrame(s: System, ph: seq<Phase>, t: nat, va: Word, g: nat, n: nat, s1: System, s2: System)
    requires Sized(s.mem) && |ph| == |s.mms| && t < |ph| && g < |s.mem.frames| && ph[t := GotUser(va, g)] == ph
    requires s.mms[t].pgd == 0 && n == FirstFree(s.mem.descs) < |s.mem.descs| && s1 == Take(s, n) && s2 == Zero(s1, n)
    ensures Works(Live(s, ph), t, Live(s2, ph[t := GotRoot(va, g, n, true)]))
  {
    hide Works;
    GoesTo(s, ph, t, GotUser(va, g), s1, GotRoot(va, g, n, false));
    GoesTo(s1, ph, t, GotRoot(va, g, n, false), s2, GotRoot(va, g, n, true));
    WorksThen(Live(s, ph), t, Live(s1, ph[t := GotRoot(va, g, n, false)]), Live(s2, ph[t := GotRoot(va, g, n, true)]));
  }

  lemma RootLink(s: System, ph: seq<Phase>, t: nat, va: Word, g: nat, n: nat, s1: System, s2: System)
    requires Sized(s.mem) && |ph| == |s.mms| && t < |ph| && g < |s.mem.frames| && n < |s.mem.frames|
    requires Pa(n) < WORD_LIMIT && s1 == SetPgd(s, t, n) && s2 == Record(s1, t, n)
    requires |s.mms[t].kernelPages| < MAX_PROCESS_PAGES
    ensures Works(Live(s, ph[t := GotRoot(va, g, n, true)]), t, Live(s2, ph[t := At(va, g, 0, n)]))
  {
    hide Works;
    GoesTo(s, ph, t, GotRoot(va, g, n, true), s1, RootSet(va, g, n));
    GoesTo(s1, ph, t, RootSet(va, g, n), s2, At(va, g, 0, n));
    WorksThen(Live(s, ph[t := GotRoot(va, g, n, true)]), t, Live(s1, ph[t := RootSet(va, g, n)]),
              Live(s2, ph[t := At(va, g, 0, n)]));
  }

  lemma RootAlone(s: System, ph: seq<Phase>, t: nat, va: Word, g: nat)
    requires MapReady(s, t, va) && |ph| == |s.mms| && g < |s.mem.frames| && ph[t] == GotUser(va, g)
    ensures var s' := Down(s, t, va, 0);
      Node(s', Root(t)).Some? && Works(Live(s, ph), t, Live(s', ph[t := At(va, g, 0, Node(s', Root(t)).value)]))
  {
    RootFacts(s, t, va);
    hide Down, MapReady, Works, Node, LinkRoot;
    if s.mms[t].pgd == 0 {
      NewRootAlone(s, ph, t, va, g);
    } else {
      assert ph[t := GotUser(va, g)] == ph;
      GoesTo(s, ph, t, GotUser(va, g), s, At(va, g, 0, Node(s, Root(t)).value));
    }
  }

  lemma RootFacts(s: System, t: nat, va: Word)
    requires MapReady(s, t, va)
    ensures Sized(s.mem) && t < |s.mms|
    ensures var s', n := Down(s, t, va, 0), FirstFree(s.mem.descs);
      if s.mms[t].pgd == 0 then
        n < |s.mem.descs| && |s.mms[t].kernelPages| < MAX_PROCESS_PAGES
        && s' == LinkRoot(s, t, n) && Node(s', Root(t)) == Some(n)
      else s' == s && Node(s, Root(t)).Some? && Node(s, Root(t)) == Decode(s.mms[t].pgd, |s.mem.frames|)
  {
    Ready(s, t, va, 0);
    RootReady(s, t, va);
    hide MapReady, IsForest;
    if s.mms[t].pgd == 0 {
      DecodeEntry(FirstFree(s.mem.descs), 0, |s.mem.frames|);
    }
  }

  // ---- a table

  lemma NewTableAlone(s: System, ph: seq<Phase>, t: nat, va: Word, g: nat, l: nat, f: nat)
    requires Sized(s.mem) && |ph| == |s.mms| && t < |ph| && g < |s.mem.frames| && l < 3 && f < |s.mem.frames|
    requires ph[t] == At(va, g, l, f) && s.mem.frames[f][Index(va, l)] == 0 && f != FirstFree(s.mem.descs)
    requires FirstFree(s.mem.descs) < |s.mem.descs| && |s.mms[t].kernelPages| < MAX_PROCESS_PAGES
    ensures var n, p := FirstFree(s.mem.descs), PathTo(t, va, l);
      Works(Live(s, ph), t, Live(LinkTable(s, p, f, Index(va, l), n), ph[t := At(va, g, l + 1, n)]))
  {
    var n, i := FirstFree(s.mem.descs), Index(va, l);
    PaFits(s.mem, n, l);
    var s2 := Zero(Take(s, n), n);
    var s4 := WriteEntry(WithFlag(s2, n, PageTable), f, i, n, l);
    TableIs(s, PathTo(t, va, l), f, i, n);
    assert ph[t := At(va, g, l, f)] == ph;
    var x0, x2 := Live(s, ph), Live(s2, ph[t := GotTable(va, g, l, f, n, true)]);
    var x4, x5 := Live(s4, ph[t := TableLinked(va, g, l, f, n)]), Live(Record(s4, t, n), ph[t := At(va, g, l + 1, n)]);
    assert Sized(s4.mem) && s4.mms == s.mms && |s4.mem.frames| == |s.mem.frames| == |s2.mem.frames| && s2.mms == s.mms;
    hide *;
    TableFrame(s, ph, t, va, g, l, f, n);
    TableLink(s2, ph, t, va, g, l, f, n);
    TableRecord(s4, ph, t, va, g, l, f, n);
    WorksThen(x0, t, x2, x4);
    WorksThen(x0, t, x4, x5);
  }

  lemma TableRecord(s: System, ph: seq<Phase>, t: nat, va: Word, g: nat, l: nat, f: nat, n: nat)
    requires Sized(s.mem) && |ph| == |s.mms| && t < |ph| && g < |s.mem.frames| && l < 3 && f < |s.mem.frames|
    requires n < |s.mem.frames| && Pa(n) < WORD_LIMIT && |s.mms[t].kernelPages| < MAX_PROCESS_PAGES
    ensures Works(Live(s, ph[t := TableLinked(va, g, l, f, n)]), t, Live(Record(s, t, n), ph[t := At(va, g, l + 1, n)]))
  {
    hide Works;
    GoesTo(s, ph, t, TableLinked(va, g, l, f, n), Record(s, t, n), At(va, g, l + 1, n));
  }

  lemma TableFrame(s: System, ph: seq<Phase>, t: nat, va: Word, g: nat, l: nat, f: nat, n: nat)
    requires Sized(s.mem) && |ph| == |s.mms| && t < |ph| && g < |s.mem.frames| && l < 3 && f < |s.mem.frames|
    requires ph[t := At(va, g, l, f)] == ph && s.mem.frames[f][Index(va, l)] == 0
    requires n == FirstFree(s.mem.descs) < |s.mem.descs|
    ensures Works(Live(s, ph), t, Live(Zero(Take(s, n), n), ph[t := GotTable(va, g, l, f, n, true)]))
  {
    hide Works, Index, FirstFree;
    var s1 := Take(s, n);
    var s2 := Zero(s1, n);
    GoesTo(s, ph, t, At(va, g, l, f), s1, GotTable(va, g, l, f, n, false));
    GoesTo(s1, ph, t, GotTable(va, g, l, f, n, false), s2, GotTable(va, g, l, f, n, true));
    WorksThen(Live(s, ph), t, Live(s1, ph[t := GotTable(va, g, l, f, n, false)]),
              Live(s2, ph[t := GotTable(va, g, l, f, n, true)]));
  }

  lemma TableLink(s: System, ph: seq<Phase>, t: nat, va: Word, g: nat, l: nat, f: nat, n: nat)
    requires Sized(s.mem) && |ph| == |s.mms| && t < |ph| && g < |s.mem.frames| && l < 3 && f < |s.mem.frames|
    requires n < |s.mem.frames| && Entry(n, l) < WORD_LIMIT
    ensures Works(Live(s, ph[t := GotTable(va, g, l, f, n, true)]), t,
                  Live(WriteEntry(WithFlag(s, n, PageTable), f, Index(va, l), n, l),
                       ph[t := TableLinked(va, g, l, f, n)]))
  {
    hide Works, Index;
    var s1 := WithFlag(s, n, PageTable);
    var s2 := WriteEntry(s1, f, Index(va, l), n, l);
    GoesTo(s, ph, t, GotTable(va, g, l, f, n, true), s1, TableFlagged(va, g, l, f, n));
    GoesTo(s1, ph, t, TableFlagged(va, g, l, f, n), s2, TableLinked(va, g, l, f, n));
    WorksThen(Live(s, ph[t := GotTable(va, g, l, f, n, true)]), t, Live(s1, ph[t := TableFlagged(va, g, l, f, n)]),
              Live(s2, ph[t := TableLinked(va, g, l, f, n)]));
  }

  /** Taken, zeroed, flagged, linked and recorded in turn: the new table. */
  lemma TableIs(s: System, p: Path, f: nat, i: nat, n: nat)
    requires Sized(s.mem) && Task(p) < |s.mms| && Level(p) < 3 && f < |s.mem.frames| && i < PTRS_PER_TABLE
    requires n < |s.mem.frames| && Pa(n) < WORD_LIMIT && Entry(n, Level(p)) < WORD_LIMIT
    ensures Record(WriteEntry(WithFlag(Zero(Take(s, n), n), n, PageTable), f, i, n, Level(p)), Task(p), n) ==
      LinkTable(s, p, f, i, n)
  {
    var s3 := WithFlag(Zero(Take(s, n), n), n, PageTable);
    assert s3.mem.descs == s.mem.descs[n := Desc(PageTable, 1, -1)];
  }

  lemma TableAlone(s: System, ph: seq<Phase>, t: nat, va: Word, g: nat, l: nat, f: nat)
    requires MapReady(s, t, va) && |ph| == |s.mms| && g < |s.mem.frames| && l < 3
    requires var s1 := Down(s, t, va, l); Node(s1, PathTo(t, va, l)) == Some(f) && ph[t] == At(va, g, l, f)
    ensures var s1, s2 := Down(s, t, va, l), Down(s, t, va, l + 1);
      && Node(s2, PathTo(t, va, l + 1)).Some?
      && Works(Live(s1, ph), t, Live(s2, ph[t := At(va, g, l + 1, Node(s2, PathTo(t, va, l + 1)).value)]))
  {
    var s1 := Down(s, t, va, l);
    var p, i := PathTo(t, va, l), Index(va, l);
    Ready(s, t, va, l);
    Ready(s, t, va, l + 1);
    DownStep(s, t, va, l);
    DownSize(s, p);
    assert PathTo(t, va, l + 1) == Step(p, i);
    hide Down, MapReady, PathTo, Index, IsForest, Missing;
    OneTable(s1, ph, t, va, g, l, f, p, i);
  }

  lemma OneTable(s: System, ph: seq<Phase>, t: nat, va: Word, g: nat, l: nat, f: nat, p: Path, i: nat)
    requires Sized(s.mem) && t < |s.mms| && IsForest(s) && |ph| == |s.mms| && g < |s.mem.frames| && l < 3
    requires Node(s, p) == Some(f) && ph[t] == At(va, g, l, f) && p == PathTo(t, va, l) && i == Index(va, l)
    requires TableReady(s, p, i) && Node(EnsureTable(s, p, i), Step(p, i)).Some?
    ensures var s2 := EnsureTable(s, p, i);
      Works(Live(s, ph), t, Live(s2, ph[t := At(va, g, l + 1, Node(s2, Step(p, i)).value)]))
  {
    hide PathTo, Index, Works, IsForest;
    var n := FirstFree(s.mem.descs);
    if s.mem.frames[f][i] == 0 {
      FreeUnlinked(s, p, f, n);
      NewTableAlone(s, ph, t, va, g, l, f);
      LinkedBelow(s, p, f, i, n);
    } else {
      assert ph[t := At(va, g, l, f)] == ph;
      GoesTo(s, ph, t, At(va, g, l, f), s, At(va, g, l + 1, Node(s, Step(p, i)).value));
    }
  }

  lemma FreeUnlinked(s: System, p: Path, f: nat, n: nat)
    requires IsForest(s) && Sized(s.mem) && Level(p) <= LEVELS && Node(s, p) == Some(f)
    requires n < |s.mem.descs| && s.mem.descs[n].flag == Free
    ensures f != n && !Referenced(s, n)
  {
    FreeUnreferenced(s, n);
  }

  lemma LinkedBelow(s: System, p: Path, f: nat, i: nat, n: nat)
    requires IsForest(s) && Sized(s.mem) && Task(p) < |s.mms| && Level(p) < 3 && Node(s, p) == Some(f)
    requires i < PTRS_PER_TABLE && n < |s.mem.frames| && !Referenced(s, n) && s.mem.frames[f][i] == 0
    ensures Node(LinkTable(s, p, f, i, n), Step(p, i)) == Some(n)
  {
    var own :| Forest(s, own);
    TableLabels(s, own, n, 0);
    DecodeEntry(n, Level(p), |s.mem.frames|);
    NewTableMoves(s, own, p, f, i, n);
  }

  // ---- the whole mapping

  lemma LeafAlone(s: System, ph: seq<Phase>, t: nat, va: Word, g: nat, f: nat)
    requires MapReady(s, t, va) && |ph| == |s.mms| && g < |s.mem.frames|
    requires Node(Down(s, t, va, 3), PathTo(t, va, 3)) == Some(f) && ph[t] == At(va, g, 3, f)
    ensures Works(Live(Down(s, t, va, 3), ph), t, Live(MapPage(s, t, va, g), ph[t := Idle]))
  {
    DownSize(s, PathTo(t, va, 3));
    LeafIs(s, t, va, g, f);
    var s3 := Down(s, t, va, 3);
    LastWrite(s3, t, va, g, f);
    assert ph[t := At(va, g, 3, f)] == ph;
    hide Down, PathTo, Index, MapPage, MapReady, Works, Node, Linked;
    GoesTo(s3, ph, t, At(va, g, 3, f), MapPage(s, t, va, g), Idle);
  }

  lemma LastWrite(s: System, t: nat, va: Word, g: nat, f: nat)
    requires Sized(s.mem) && t < |s.mms| && g < |s.mem.frames| && f < |s.mem.frames| && Entry(g, 3) < WORD_LIMIT
    ensures Act(s, t, At(va, g, 3, f)) ==
      (s.(mem := s.mem.(frames := Linked(s.mem.frames, f, Index(va, 3), g, 3))), Idle)
  {
    hide Index;
  }

  /** map_page in pieces, undisturbed, is map_page. */
  lemma MapAlone(s: System, ph: seq<Phase>, t: nat, va: Word, g: nat)
    requires MapReady(s, t, va) && |ph| == |s.mms| && g < |s.mem.frames| && ph[t] == GotUser(va, g)
    ensures Works(Live(s, ph), t, Live(MapPage(s, t, va, g), ph[t := Idle]))
  {
    RootAlone(s, ph, t, va, g);
    var s0 := Down(s, t, va, 0);
    var s1 := Down(s, t, va, 1);
    var s2 := Down(s, t, va, 2);
    var s3 := Down(s, t, va, 3);
    assert PathTo(t, va, 0) == Root(t);
    hide Down, PathTo, Node, MapReady, Works;
    var ph0 := ph[t := At(va, g, 0, Node(s0, PathTo(t, va, 0)).value)];
    TableAlone(s, ph0, t, va, g, 0, ph0[t].f);
    var ph1 := ph0[t := At(va, g, 1, Node(s1, PathTo(t, va, 1)).value)];
    TableAlone(s, ph1, t, va, g, 1, ph1[t].f);
    var ph2 := ph1[t := At(va, g, 2, Node(s2, PathTo(t, va, 2)).value)];
    TableAlone(s, ph2, t, va, g, 2, ph2[t].f);
    var ph3 := ph2[t := At(va, g, 3, Node(s3, PathTo(t, va, 3)).value)];
    LeafAlone(s, ph3, t, va, g, ph3[t].f);
    assert ph3[t := Idle] == ph[t := Idle];
    WorksThen(Live(s, ph), t, Live(s0, ph0), Live(s1, ph1));
    WorksThen(Live(s, ph), t, Live(s1, ph1), Live(s2, ph2));
    WorksThen(Live(s, ph), t, Live(s2, ph2), Live(s3, ph3));
    WorksThen(Live(s, ph), t, Live(s3, ph3), Live(MapPage(s, t, va, g), ph[t := Idle]));
  }

  /** With no other mapping in progress, the pieces of allocate_user_page lead to exactly the state of the one step. */
  lemma AllocAlone(s: System, ph: seq<Phase>, t: nat, va: Word)
    requires Inv(s) && |ph| == |s.mms| && t < |ph| && ph[t] == Idle
    requires MapRoom(s, t, va) && FirstFree(s.mem.descs) < |s.mem.descs|
    ensures Possible(Live(s, ph), Begin(t, va))
    ensures Works(Made(Live(s, ph), Begin(t, va)), t, Live(AllocUser(s, t, va).0, ph))
  {
    hide *;
    var g := FirstFree(s.mem.descs);
    AfterClaim(s, t, va, g);
    var s1 := s.(mem := Claimed(s.mem, g, User));
    UserPage(s, ph, t, va);
    MapAlone(s1, ph[t := GotUser(va, g)], t, va, g);
    ThenIdle(Made(Live(s, ph), Begin(t, va)), t, s1, ph, GotUser(va, g), AllocUser(s, t, va).0);
  }

  lemma ThenIdle(x: Live, t: nat, s1: System, ph: seq<Phase>, p: Phase, s2: System)
    requires t < |ph| && ph[t] == Idle && Works(x, t, Live(s1, ph[t := p]))
    requires Works(Live(s1, ph[t := p]), t, Live(s2, ph[t := p][t := Idle]))
    ensures Works(x, t, Live(s2, ph))
  {
    hide *;
    assert ph[t := p][t := Idle] == ph;
    WorksThen(x, t, Live(s1, ph[t := p]), Live(s2, ph));
  }

  lemma AfterClaim(s: System, t: nat, va: Word, g: nat)
    requires Inv(s) && MapRoom(s, t, va) && g == FirstFree(s.mem.descs) < |s.mem.descs|
    ensures Sized(s.mem) && g < |s.mem.frames| == |Claimed(s.mem, g, User).frames|
    ensures MapReady(s.(mem := Claimed(s.mem, g, User)), t, va)
    ensures AllocUser(s, t, va).0 == MapPage(s.(mem := Claimed(s.mem, g, User)), t, va, g)
  {
    var s1 := s.(mem := Claimed(s.mem, g, User));
    ClaimStep(s, g, User, t);
    MissingSame(s, s1, PathTo(t, va, 3));
  }
}
