/** Mapping cores and everything else together: what holds after every run of every interleaving. */
module InterleavingRuns {
  import opened Basics
  import opened Frames
  import opened PageTables
  import opened Mapping
  import opened Areas
  import opened Fork
  import opened MemoryRuns
  import opened MemoryInterleaving
  import opened InterleavingProofs

  // ---- everything else

  lemma PendingIdle(ph: seq<Phase>)
    ensures forall f :: IsPending(ph + [Idle], f) <==> IsPending(ph, f)
  {
    var all := ph + [Idle];
    forall f ensures IsPending(all, f) <==> IsPending(ph, f) {
      assert forall t | 0 <= t < |ph| :: all[t] == ph[t];
      assert Pending(all[|ph|]) == None;
    }
  }

  lemma SettledUse(x: Live)
    requires Sound(x)
    ensures Used(Settled(x).mem.descs) == Used(x.s.mem.descs)
    ensures forall f | 0 <= f < |x.s.mem.descs| && !IsPending(x.ph, f) :: Settled(x).mem.descs[f] == x.s.mem.descs[f]
  {
    forall f | 0 <= f < |x.s.mem.descs|
      ensures Settled(x).mem.descs[f].flag == Free <==> x.s.mem.descs[f].flag == Free
    {
      if IsPending(x.ph, f) {
        PendingHeld(x, f);
      }
    }
  }

  lemma SameFirst(d: seq<Desc>, e: seq<Desc>)
    requires Used(d) == Used(e)
    ensures FirstFree(d) == FirstFree(e)
  {
    assert |d| == |Used(d)| == |e|;
    forall k | 0 <= k < |d| ensures d[k].flag == Free <==> e[k].flag == Free {
      assert Used(d)[k] == Used(e)[k];
    }
    FirstFreeIs(d, FirstFree(e));
  }

  /** A small operation is allowed on the settled system too. */
  lemma AllowedSettled(x: Live, op: Op)
    requires Sound(x) && Possible(x, Do(op))
    ensures Sized(Settled(x).mem) && Allowed(Settled(x), op)
  {
    var S := Settled(x);
    if op.FreePage? || op.KernelStore? {
      NotHeld(x, op.f);
      assert S.mem.descs[op.f].flag == Kernel;
      assert !IsRoot(S, op.f) && !IsHome(S, op.f) by {
        assert forall t | 0 <= t < |S.mms| :: S.mms[t].pgd == x.s.mms[t].pgd && S.mms[t].home == x.s.mms[t].home;
      }
    }
  }

  lemma NotHeld(x: Live, f: nat)
    requires Sound(x) && forall t | 0 <= t < |x.ph| :: f !in Holds(x.ph[t])
    ensures !IsPending(x.ph, f)
  {
    forall t | 0 <= t < |x.ph| ensures Pending(x.ph[t]) != Some(f) {
      PendingIsHeld(x.ph[t], f);
    }
  }

  /** Such an operation does to the settled system what it does to the live one. */
  lemma DoSettled(x: Live, op: Op)
    requires Sound(x) && Possible(x, Do(op)) && Sized(Settled(x).mem) && Allowed(Settled(x), op)
    ensures |Made(x, Do(op)).ph| == |Made(x, Do(op)).s.mms| && Settled(Made(x, Do(op))) == Apply(Settled(x), op)
  {
    hide Sound;
    SettledUse(x);
    SameFirst(x.s.mem.descs, Settled(x).mem.descs);
    match op {
      case GetPage => GetPageSettled(x);
      case GetPages(n) => GetPagesSettled(x, n);
      case NewTask => NewTaskSettled(x);
      case FreePage(f) => OneFrameSettled(x, op, f);
      case KernelStore(f, _, _) => OneFrameSettled(x, op, f);
      case UserStore(t, va, i, w) => StoreSettled(x, t, va, i, w);
      case _ => AreaSettled(x, op);
    }
  }

  lemma GetPageSettled(x: Live)
    requires Sound(x) && Sized(x.s.mem) && Sized(Settled(x).mem)
    requires FirstFree(Settled(x).mem.descs) == FirstFree(x.s.mem.descs)
    ensures |ClaimFirst(x.s).mms| == |x.ph| && Settled(Live(ClaimFirst(x.s), x.ph)) == ClaimFirst(Settled(x))
  {
    var g := FirstFree(x.s.mem.descs);
    if g < |x.s.mem.descs| {
      FreeOutside(x, g);
    }
    SettledIs(Live(ClaimFirst(x.s), x.ph), ClaimFirst(Settled(x)));
  }

  lemma NewTaskSettled(x: Live)
    requires Sound(x) && Possible(x, Do(NewTask)) && Sized(Settled(x).mem)
    requires FirstFree(Settled(x).mem.descs) == FirstFree(x.s.mem.descs)
    ensures |Made(x, Do(NewTask)).ph| == |Made(x, Do(NewTask)).s.mms|
    ensures Settled(Made(x, Do(NewTask))) == Apply(Settled(x), NewTask)
  {
    GetPageSettled(x);
    PendingIdle(x.ph);
    var x', S' := Made(x, Do(NewTask)), Apply(Settled(x), NewTask);
    if FirstFree(x.s.mem.descs) < |x.s.mem.descs| {
      var y := Live(ClaimFirst(x.s), x.ph);
      assert Settled(y).mem.descs == S'.mem.descs;
      SettledIs(x', S');
    }
  }

  lemma GetPagesSettled(x: Live, n: int)
    requires Sound(x) && Possible(x, Do(GetPages(n))) && Sized(Settled(x).mem)
    requires Used(Settled(x).mem.descs) == Used(x.s.mem.descs)
    ensures |Made(x, Do(GetPages(n))).ph| == |Made(x, Do(GetPages(n))).s.mms|
    ensures Settled(Made(x, Do(GetPages(n)))) == Apply(Settled(x), GetPages(n))
  {
    if n > 0 && FirstRun(x.s.mem.descs, n).Some? {
      RunSettled(x, FirstRun(x.s.mem.descs, n).value, n);
    }
  }

  lemma RunSettled(x: Live, i: nat, n: nat)
    requires Sound(x) && Sized(x.s.mem) && Sized(Settled(x).mem) && FreeRun(x.s.mem.descs, i, n)
    ensures Settled(Live(x.s.(mem := ClaimRun(x.s.mem, i, n)), x.ph)) ==
      Settled(x).(mem := ClaimRun(Settled(x).mem, i, n))
  {
    var S, m := Settled(x), ClaimRun(x.s.mem, i, n);
    var M := ClaimRun(S.mem, i, n);
    forall k | 0 <= k < |m.descs|
      ensures M.descs[k] == if IsPending(x.ph, k) then m.descs[k].(flag := Kernel) else m.descs[k]
      ensures M.frames[k] == m.frames[k]
    {
      ClaimRunAt(x.s.mem, i, n, k);
      ClaimRunAt(S.mem, i, n, k);
      if i <= k < i + n {
        assert !Used(x.s.mem.descs)[k];
        FreeOutside(x, k);
      }
    }
    assert M.frames == m.frames;
    SettledIs(Live(x.s.(mem := m), x.ph), S.(mem := M));
  }

  lemma OneFrameSettled(x: Live, op: Op, f: nat)
    requires Sound(x) && Possible(x, Do(op)) && Sized(Settled(x).mem) && Allowed(Settled(x), op)
    requires (op.FreePage? || op.KernelStore?) && f == op.f
    ensures |Made(x, Do(op)).ph| == |Made(x, Do(op)).s.mms| && Settled(Made(x, Do(op))) == Apply(Settled(x), op)
  {
    NotHeld(x, f);
    hide Inv;
    SettledIs(Made(x, Do(op)), Apply(Settled(x), op));
  }

  lemma StoreSettled(x: Live, t: nat, va: Word, i: nat, w: Word)
    requires Sound(x) && Sized(x.s.mem) && i < PTRS_PER_TABLE
    ensures |Store(x.s, t, va, i, w).mms| == |x.ph|
    ensures Settled(Live(Store(x.s, t, va, i, w), x.ph)) == Store(Settled(x), t, va, i, w)
  {
    SettledNodes(x);
    SettledIs(Live(Store(x.s, t, va, i, w), x.ph), Store(Settled(x), t, va, i, w));
  }

  lemma AreaSettled(x: Live, op: Op)
    requires Sound(x) && Possible(x, Do(op)) && Sized(Settled(x).mem) && Allowed(Settled(x), op)
    requires (op.AddArea? || op.RemoveArea?)
    ensures |Made(x, Do(op)).ph| == |Made(x, Do(op)).s.mms| && Settled(Made(x, Do(op))) == Apply(Settled(x), op)
  {
    hide Inv, Overlap;
    SettledIs(Made(x, Do(op)), Apply(Settled(x), op));
  }

  // ---- and no phase notices

  /** The frame such an operation is about, apart from those that were free. */
  predicate Aims(s: System, op: Op, f: nat) {
    || ((op.FreePage? || op.KernelStore?) && f == op.f)
    || (op.UserStore? && Node(s, PathTo(op.t, op.va, LEVELS)) == Some(f))
  }

  lemma UsedOutside(d: seq<Desc>, i: nat, n: nat, f: nat)
    requires FreeRun(d, i, n) && f < |d| && d[f].flag != Free
    ensures !(i <= f < i + n)
  {
    assert Used(d)[f];
  }

  lemma ChangedOnly(s: System, op: Op, f: nat)
    requires Sized(s.mem) && Small(op) && Allowed(s, op) && f < |s.mem.descs| && s.mem.descs[f].flag != Free
    requires !Aims(s, op, f)
    ensures var s' := Apply(s, op);
      && |s'.mem.descs| == |s.mem.descs| && |s'.mem.frames| == |s.mem.frames|
      && s'.mem.descs[f] == s.mem.descs[f] && s'.mem.frames[f] == s.mem.frames[f]
  {
    if op.GetPages? && op.n > 0 && FirstRun(s.mem.descs, op.n).Some? {
      var i: nat := FirstRun(s.mem.descs, op.n).value;
      ClaimRunAt(s.mem, i, op.n, f);
      UsedOutside(s.mem.descs, i, op.n, f);
    }
  }

  lemma PgdsKept(s: System, op: Op)
    requires Sized(s.mem) && Small(op) && Allowed(s, op)
    ensures var s' := Apply(s, op);
      && |s'.mem.descs| == |s.mem.descs| && |s'.mem.frames| == |s.mem.frames| && |s.mms| <= |s'.mms| <= |s.mms| + 1
      && forall t | 0 <= t < |s.mms| :: s'.mms[t].pgd == s.mms[t].pgd
  {}

  lemma DoNodes(x: Live, op: Op)
    requires Sound(x) && Possible(x, Do(op))
    ensures |Made(x, Do(op)).ph| == |Made(x, Do(op)).s.mms| && SameNodes(x.s, Made(x, Do(op)).s)
    ensures Inv(Settled(Made(x, Do(op))))
    ensures forall u: nat, va: Word, i: nat | Some(u) != Subject(op) && i < PTRS_PER_TABLE ::
      Load(Made(x, Do(op)).s, u, va, i) == Load(x.s, u, va, i)
  {
    var x', S := Made(x, Do(op)), Settled(x);
    AllowedSettled(x, op);
    DoSettled(x, op);
    hide Settled, Made, Possible, Apply, Allowed;
    MemoryRuns.StepKeeps(S, op);
    SettledNodes(x);
    SettledNodes(x');
    if op.UserStore? {
      StoreNodes(S, op.t, op.va, op.i, op.w);
    }
    LoadsAgree(x);
    LoadsAgree(x');
  }

  lemma LoadsAgree(x: Live)
    requires |x.ph| == |x.s.mms|
    ensures forall u: nat, va: Word, i: nat | i < PTRS_PER_TABLE :: Load(Settled(x), u, va, i) == Load(x.s, u, va, i)
  {
    SettledNodes(x);
  }

  /** The frames a phase holds and the tables of a task are not what a small operation is about. */
  lemma AimsElsewhere(x: Live, op: Op, f: nat)
    requires Sound(x) && Possible(x, Do(op))
    requires (exists t :: 0 <= t < |x.ph| && f in Holds(x.ph[t])) || exists t :: HoldsTable(x.s, f, t)
    ensures f < |x.s.mem.descs| && x.s.mem.descs[f].flag != Free && !Aims(x.s, op, f)
  {
    SettledReferences(x);
    AllowedSettled(x, op);
    if t :| 0 <= t < |x.ph| && f in Holds(x.ph[t]) {
      HeldIsLoose(x, t, f);
    } else {
      var t :| HoldsTable(x.s, f, t);
      TableReferenced(x.s, f, t);
      NotFree(x, f);
      TableNotAimed(x, op, f, t);
    }
  }

  lemma TableNotAimed(x: Live, op: Op, f: nat, t: nat)
    requires Sound(x) && Possible(x, Do(op)) && HoldsTable(x.s, f, t) && Referenced(Settled(x), f)
    requires Sized(Settled(x).mem) && Allowed(Settled(x), op)
    ensures !Aims(x.s, op, f)
  {
    var S := Settled(x);
    SettledNodes(x);
    if op.FreePage? || op.KernelStore? {
      var own :| Forest(S, own);
      KernelOwnedOutside(S, own, op.f);
      TableLabels(S, own, f, t);
    } else if op.UserStore? && Node(x.s, PathTo(op.t, op.va, LEVELS)).Some? {
      var p :| Level(p) < LEVELS && Task(p) == t && Node(x.s, p) == Some(f);
      NodesApart(S, p, PathTo(op.t, op.va, LEVELS));
    }
  }

  lemma HeldKept(x: Live, op: Op, t: nat, f: nat)
    requires Sound(x) && Possible(x, Do(op)) && t < |x.ph| && f in Holds(x.ph[t]) && SameNodes(x.s, Apply(x.s, op))
    ensures var s, s' := x.s, Apply(x.s, op);
      && f < |s.mem.descs| == |s'.mem.descs| && f < |s.mem.frames| == |s'.mem.frames|
      && Loose(s', f) && s'.mem.descs[f] == s.mem.descs[f] && s'.mem.frames[f] == s.mem.frames[f]
  {
    hide Sound, Apply;
    var s' := Apply(x.s, op);
    AimsElsewhere(x, op, f);
    ChangedOnlyDo(x, op, f);
    HeldIsLoose(x, t, f);
    KeptFacts(x.s, s');
  }

  lemma TableKept(x: Live, op: Op, t: nat, va: Word, l: nat, f: nat)
    requires Sound(x) && Possible(x, Do(op)) && Table(x.s, t, va, l, f) && SameNodes(x.s, Apply(x.s, op))
    ensures var s, s' := x.s, Apply(x.s, op);
      && f < |s.mem.frames| == |s'.mem.frames| && Table(s', t, va, l, f) && s'.mem.frames[f] == s.mem.frames[f]
  {
    hide Sound, Apply;
    TableHeld(x.s, t, va, l, f);
    AimsElsewhere(x, op, f);
    ChangedOnlyDo(x, op, f);
    KeptFacts(x.s, Apply(x.s, op));
  }

  lemma ChangedOnlyDo(x: Live, op: Op, f: nat)
    requires Possible(x, Do(op)) && f < |x.s.mem.descs| && x.s.mem.descs[f].flag != Free && !Aims(x.s, op, f)
    ensures var s, s' := x.s, Apply(x.s, op);
      && Sized(s.mem) && |s'.mem.descs| == |s.mem.descs| && |s'.mem.frames| == |s.mem.frames|
      && s'.mem.descs[f] == s.mem.descs[f] && s'.mem.frames[f] == s.mem.frames[f]
  {
    ChangedOnly(x.s, op, f);
  }

  lemma DoPhase(x: Live, op: Op, t: nat)
    requires Sound(x) && Possible(x, Do(op)) && t < |x.ph| && SameNodes(x.s, Apply(x.s, op)) && t < |Apply(x.s, op).mms|
    ensures PhaseOk(Apply(x.s, op), t, x.ph[t])
  {
    PgdsKept(x.s, op);
    PhaseFacts(x, t);
    hide Sound, Apply, Loose, SameNodes, Table, Possible, PhaseOk;
    var s, s', ph := x.s, Apply(x.s, op), x.ph[t];
    forall f | f in Holds(ph) ensures Untouched(s, s', f) && Loose(s', f) {
      HeldKept(x, op, t, f);
    }
    forall va: Word, l: nat, f: nat | Table(s, t, va, l, f)
      ensures Table(s', t, va, l, f) && s'.mem.frames[f] == s.mem.frames[f]
    {
      TableKept(x, op, t, va, l, f);
    }
    PhaseTransfer(s, s', t, ph);
  }

  lemma DoKeeps(x: Live, op: Op)
    requires Sound(x) && Possible(x, Do(op))
    ensures Sound(Made(x, Do(op)))
  {
    var x' := Made(x, Do(op));
    DoNodes(x, op);
    forall t | 0 <= t < |x'.ph| ensures PhaseOk(x'.s, t, x'.ph[t]) {
      if t < |x.ph| {
        DoPhase(x, op, t);
      }
    }
    hide PhaseOk, SameNodes, Apply, Settled, Inv;
  }

  // ---- runs

  /** The task whose readable memory a move may change. */
  function Whose(x: Live, move: Move): Option<nat> {
    match move
    case Do(op) => Subject(op)
    case Begin(_, _) => None
    case Advance(t) => if t < |x.ph| && IsLast(x.ph[t]) then Some(t) else None
  }

  /** Every move of every core keeps the invariant, and every word that a task other than its subject can read. */
  lemma MoveKeeps(x: Live, move: Move)
    requires Sound(x) && Possible(x, move)
    ensures Sound(Made(x, move))
    ensures forall u: nat, va: Word, i: nat | Some(u) != Whose(x, move) && i < PTRS_PER_TABLE ::
      Load(Made(x, move).s, u, va, i) == Load(x.s, u, va, i)
  {
    hide Sound, Made, Possible, Load;
    match move {
      case Do(op) =>
        DoKeeps(x, op);
        DoNodes(x, op);
      case Begin(t, va) => BeginUnseen(x, t, va);
      case Advance(t) =>
        PossibleTask(x, t);
        if IsLast(x.ph[t]) {
          LastSound(x, t);
          forall u: nat, va: Word, i: nat | u != t && i < PTRS_PER_TABLE
            ensures Load(Made(x, move).s, u, va, i) == Load(x.s, u, va, i)
          {
            LastStore(x, t, u, va, i);
          }
        } else {
          AdvanceUnseen(x, t);
        }
    }
  }

  lemma PossibleTask(x: Live, t: nat)
    requires Possible(x, Advance(t))
    ensures t < |x.ph|
  {}

  lemma LastSound(x: Live, t: nat)
    requires Sound(x) && Possible(x, Advance(t)) && IsLast(x.ph[t])
    ensures Sound(Made(x, Advance(t)))
  {
    LastStore(x, t, 0, 0, 0);
  }

  ghost predicate Run(x: Live, moves: seq<Move>, x': Live)
    decreases |moves|
  {
    if moves == [] then x' == x else Possible(x, moves[0]) && Run(Made(x, moves[0]), moves[1..], x')
  }

  /** No move of the run is aimed at task `u`. */
  ghost predicate Leaves(x: Live, moves: seq<Move>, u: nat)
    decreases |moves|
  {
    moves != [] ==> Possible(x, moves[0]) && Whose(x, moves[0]) != Some(u) && Leaves(Made(x, moves[0]), moves[1..], u)
  }

  lemma {:induction false} RunSound(x: Live, moves: seq<Move>, x': Live)
    requires Sound(x) && Run(x, moves, x')
    ensures Sound(x')
    decreases |moves|
  {
    if moves != [] {
      MoveKeeps(x, moves[0]);
      RunSound(Made(x, moves[0]), moves[1..], x');
    }
  }

  /** In every interleaving, a task that no move is aimed at reads the same words at the end. */
  lemma {:induction false} RunIsolates(x: Live, moves: seq<Move>, x': Live, u: nat, va: Word, i: nat)
    requires Sound(x) && Run(x, moves, x') && Leaves(x, moves, u) && i < PTRS_PER_TABLE
    ensures Load(x'.s, u, va, i) == Load(x.s, u, va, i)
    decreases |moves|
  {
    if moves != [] {
      MoveKeeps(x, moves[0]);
      RunIsolates(Made(x, moves[0]), moves[1..], x', u, va, i);
    }
  }

  /** From boot, whenever no core is in the middle of a mapping, the page tables of all tasks are a forest and the
      bookkeeping is exact. */
  lemma IdleInv(s0: System, moves: seq<Move>, x: Live)
    requires Boot(s0) && Run(Live(s0, []), moves, x) && forall t | 0 <= t < |x.ph| :: x.ph[t] == Idle
    ensures Inv(x.s)
  {
    BootSound(s0);
    RunSound(Live(s0, []), moves, x);
    assert forall f :: !IsPending(x.ph, f);
    SettledIs(x, x.s);
  }

  lemma BootSound(s0: System)
    requires Boot(s0)
    ensures Sound(Live(s0, []))
  {
    BootInv(s0);
    SettledIs(Live(s0, []), s0);
  }
}
