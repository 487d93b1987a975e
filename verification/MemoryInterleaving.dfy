/** map_page in pieces: cores stand at any point of it, each for a task of its own, while everything else goes on. */
module MemoryInterleaving {
  import opened Basics
  import opened Frames
  import opened PageTables
  import opened Mapping
  import opened MemoryRuns

  /**
   * How far the mapping of frame `g` at `va` has come. `f` is the table reached at level `l`; `h` is a frame
   * obtained for a new table, not yet zeroed unless `zeroed`.
   */
  datatype Phase =
    | Idle
    | GotPage(va: Word, g: nat, zeroed: bool)
    | GotUser(va: Word, g: nat)
    | GotRoot(va: Word, g: nat, h: nat, zeroed: bool)
    | RootSet(va: Word, g: nat, h: nat)
    | At(va: Word, g: nat, l: nat, f: nat)
    | GotTable(va: Word, g: nat, l: nat, f: nat, h: nat, zeroed: bool)
    | TableFlagged(va: Word, g: nat, l: nat, f: nat, h: nat)
    | TableLinked(va: Word, g: nat, l: nat, f: nat, h: nat)

  /** One phase for each task. */
  datatype Live = Live(s: System, ph: seq<Phase>)

  /** Operations that are one locked region or one store. */
  predicate Small(op: Op) { !op.AllocUserPage? && !op.Fault? && !op.Copy? }

  datatype Move = Do(op: Op) | Begin(t: nat, va: Word) | Advance(t: nat)

  /** The frames a phase has obtained and not yet linked. */
  function Holds(ph: Phase): set<nat> {
    match ph
    case Idle => {}
    case GotRoot(_, g, h, _) => {g, h}
    case GotTable(_, g, _, _, h, _) => {g, h}
    case TableFlagged(_, g, _, _, h) => {g, h}
    case _ => {ph.g}
  }

  /** The frame that is flagged as a page table and not yet linked. */
  function Pending(ph: Phase): Option<nat> {
    match ph case TableFlagged(_, _, _, _, h) => Some(h) case _ => None
  }

  /** The next action of a phase needs a free frame. */
  predicate NeedsFrame(s: System, t: nat, ph: Phase)
    requires t < |s.mms|
  {
    match ph
    case GotUser(_, _) => s.mms[t].pgd == 0
    case At(va, _, l, f) => l < 3 && f < |s.mem.frames| && s.mem.frames[f][Index(va, l)] == 0
    case _ => false
  }

  predicate Possible(x: Live, move: Move) {
    Sized(x.s.mem) && |x.ph| == |x.s.mms| &&
    match move
    case Do(op) =>
      && Small(op) && Allowed(x.s, op)
      && (op.FreePage? || op.KernelStore? ==> forall t | 0 <= t < |x.ph| :: op.f !in Holds(x.ph[t]))
    case Begin(t, _) => t < |x.ph| && x.ph[t] == Idle && FirstFree(x.s.mem.descs) < |x.s.mem.descs|
    case Advance(t) =>
      && t < |x.ph| && x.ph[t] != Idle && PhaseShape(x.s, x.ph[t])
      && (NeedsFrame(x.s, t, x.ph[t]) ==> FirstFree(x.s.mem.descs) < |x.s.mem.descs|)
      && (x.ph[t].RootSet? || x.ph[t].TableLinked? ==> |x.s.mms[t].kernelPages| < MAX_PROCESS_PAGES)
  }

  /** Frames and levels a phase names exist. */
  predicate PhaseShape(s: System, ph: Phase) {
    var n := |s.mem.frames|;
    match ph
    case Idle => true
    case GotPage(_, g, _) => g < n
    case GotUser(_, g) => g < n
    case GotRoot(_, g, h, _) => g < n && h < n
    case RootSet(_, g, h) => g < n && h < n
    case At(_, g, l, f) => g < n && l <= 3 && f < n
    case _ => ph.g < n && ph.l < 3 && ph.f < n && ph.h < n
  }

  function WithFlag(s: System, f: nat, fl: Flag): System
    requires f < |s.mem.descs|
  {
    s.(mem := s.mem.(descs := s.mem.descs[f := s.mem.descs[f].(flag := fl)]))
  }

  /** get_free_page up to the unlock. */
  function Take(s: System, g: nat): System
    requires g < |s.mem.descs|
  {
    s.(mem := s.mem.(descs := s.mem.descs[g := Desc(Kernel, 1, -1)]))
  }

  /** memzero */
  function Zero(s: System, g: nat): System
    requires g < |s.mem.frames|
  {
    s.(mem := s.mem.(frames := s.mem.frames[g := ZeroPage()]))
  }

  function Record(s: System, t: nat, h: nat): System
    requires t < |s.mms| && Pa(h) < WORD_LIMIT
  {
    s.(mms := s.mms[t := s.mms[t].(kernelPages := s.mms[t].kernelPages + [Pa(h)])])
  }

  function SetPgd(s: System, t: nat, h: nat): System
    requires t < |s.mms| && Pa(h) < WORD_LIMIT
  {
    s.(mms := s.mms[t := s.mms[t].(pgd := Pa(h))])
  }

  /** One store into a table. */
  function WriteEntry(s: System, f: nat, i: nat, g: nat, l: nat): System
    requires f < |s.mem.frames| && i < PTRS_PER_TABLE && Entry(g, l) < WORD_LIMIT
  {
    s.(mem := s.mem.(frames := s.mem.frames[f := s.mem.frames[f][i := Entry(g, l)]]))
  }

  lemma PaFits(m: Memory, g: nat, l: nat)
    requires Sized(m) && g < |m.frames|
    ensures Pa(g) < WORD_LIMIT && Entry(g, l) < WORD_LIMIT
  {
    DecodeEntry(g, l, |m.frames|);
  }

  /** The next action of the core that works for task `t`, and the phase after it. */
  function Act(s: System, t: nat, ph: Phase): (System, Phase)
    requires Sized(s.mem) && t < |s.mms| && ph != Idle && PhaseShape(s, ph)
    requires NeedsFrame(s, t, ph) ==> FirstFree(s.mem.descs) < |s.mem.descs|
  {
    var n := FirstFree(s.mem.descs);
    match ph
    case GotPage(va, g, z) => if z then (WithFlag(s, g, User), GotUser(va, g)) else (Zero(s, g), GotPage(va, g, true))
    case GotUser(va, g) =>
      if s.mms[t].pgd == 0 then (Take(s, n), GotRoot(va, g, n, false))
      else (s, match Decode(s.mms[t].pgd, |s.mem.frames|) case None => ph case Some(f) => At(va, g, 0, f))
    case GotRoot(va, g, h, z) =>
      PaFits(s.mem, h, 0);
      if z then (SetPgd(s, t, h), RootSet(va, g, h)) else (Zero(s, h), GotRoot(va, g, h, true))
    case RootSet(va, g, h) => PaFits(s.mem, h, 0); (Record(s, t, h), At(va, g, 0, h))
    case At(va, g, l, f) =>
      var w := s.mem.frames[f][Index(va, l)];
      PaFits(s.mem, g, l);
      if l == 3 then (WriteEntry(s, f, Index(va, 3), g, 3), Idle)
      else if w == 0 then (Take(s, n), GotTable(va, g, l, f, n, false))
      else (s, match Decode(w, |s.mem.frames|) case None => ph case Some(k) => At(va, g, l + 1, k))
    case GotTable(va, g, l, f, h, z) =>
      if z then (WithFlag(s, h, PageTable), TableFlagged(va, g, l, f, h))
      else (Zero(s, h), GotTable(va, g, l, f, h, true))
    case TableFlagged(va, g, l, f, h) =>
      PaFits(s.mem, h, l);
      (WriteEntry(s, f, Index(va, l), h, l), TableLinked(va, g, l, f, h))
    case TableLinked(va, g, l, f, h) => PaFits(s.mem, h, l); (Record(s, t, h), At(va, g, l + 1, h))
  }

  function Made(x: Live, move: Move): Live
    requires Possible(x, move)
  {
    match move
    case Do(op) =>
      var s' := Apply(x.s, op);
      Live(s', if |s'.mms| == |x.ph| + 1 then x.ph + [Idle] else x.ph)
    case Begin(t, va) =>
      var g := FirstFree(x.s.mem.descs);
      Live(Take(x.s, g), x.ph[t := GotPage(va, g, false)])
    case Advance(t) =>
      var (s', p) := Act(x.s, t, x.ph[t]);
      Live(s', x.ph[t := p])
  }

  // ---- the system with all half-done bookkeeping put right

  predicate IsPending(ph: seq<Phase>, f: nat) { exists t :: 0 <= t < |ph| && Pending(ph[t]) == Some(f) }

  function SettledDescs(x: Live): (d: seq<Desc>)
    ensures |d| == |x.s.mem.descs|
    ensures forall f | 0 <= f < |d| ::
      d[f] == if IsPending(x.ph, f) then x.s.mem.descs[f].(flag := Kernel) else x.s.mem.descs[f]
  {
    seq(|x.s.mem.descs|, f requires 0 <= f < |x.s.mem.descs| =>
      if IsPending(x.ph, f) then x.s.mem.descs[f].(flag := Kernel) else x.s.mem.descs[f])
  }

  function SettledMm(mm: Mm, ph: Phase): Mm {
    if (ph.RootSet? || ph.TableLinked?) && Pa(ph.h) < WORD_LIMIT then
      mm.(kernelPages := mm.kernelPages + [Pa(ph.h)])
    else mm
  }

  /** A flagged table that is not linked counts as a kernel frame, a linked one that is not recorded as recorded. */
  function Settled(x: Live): (s: System)
    requires |x.ph| == |x.s.mms|
    ensures |s.mms| == |x.s.mms| && s.mem.frames == x.s.mem.frames && |s.mem.descs| == |x.s.mem.descs|
    ensures forall t | 0 <= t < |s.mms| :: s.mms[t] == SettledMm(x.s.mms[t], x.ph[t])
  {
    System(Memory(SettledDescs(x), x.s.mem.frames),
           seq(|x.s.mms|, t requires 0 <= t < |x.s.mms| => SettledMm(x.s.mms[t], x.ph[t])))
  }

  // ---- the invariant

  /** Frame `f` is in use and no table refers to it. */
  ghost predicate Loose(s: System, f: nat) { f < |s.mem.descs| && s.mem.descs[f].flag != Free && !Referenced(s, f) }

  /** A frame for a table: as get_free_page leaves it, but for the flag. */
  predicate NewTable(s: System, h: nat, fl: Flag, zeroed: bool) {
    && h < |s.mem.descs| && h < |s.mem.frames| && s.mem.descs[h] == Desc(fl, 1, -1)
    && (zeroed ==> s.mem.frames[h] == ZeroPage())
  }

  /** The user frame has its flag and, as nobody else knows it, only zeros. */
  predicate UserFrame(s: System, ph: Phase) {
    match ph
    case Idle => true
    case GotPage(_, g, z) => g < |s.mem.frames| && (z ==> s.mem.frames[g] == ZeroPage())
    case _ =>
      && ph.g < |s.mem.descs| && ph.g < |s.mem.frames|
      && s.mem.descs[ph.g].flag == User && s.mem.frames[ph.g] == ZeroPage()
  }

  /** The table of task `t` at level `l` on the way to `va` is frame `f`. */
  predicate Table(s: System, t: nat, va: Word, l: nat, f: nat) {
    l <= 3 && f < |s.mem.frames| && Node(s, PathTo(t, va, l)) == Some(f)
  }

  predicate NoEntry(s: System, va: Word, l: nat, f: nat) { f < |s.mem.frames| && s.mem.frames[f][Index(va, l)] == 0 }

  ghost predicate PhaseOk(s: System, t: nat, ph: Phase)
    requires t < |s.mms|
  {
    && (forall f | f in Holds(ph) :: Loose(s, f))
    && UserFrame(s, ph)
    && match ph
       case GotRoot(_, g, h, z) => g != h && s.mms[t].pgd == 0 && NewTable(s, h, Kernel, z)
       case RootSet(va, g, h) => h < |s.mem.frames| && s.mms[t].pgd == Pa(h)
       case At(va, _, l, f) => Table(s, t, va, l, f)
       case GotTable(va, g, l, f, h, z) =>
         g != h && l < 3 && Table(s, t, va, l, f) && NoEntry(s, va, l, f) && NewTable(s, h, Kernel, z)
       case TableFlagged(va, g, l, f, h) =>
         g != h && l < 3 && Table(s, t, va, l, f) && NoEntry(s, va, l, f) && NewTable(s, h, PageTable, true)
       case TableLinked(va, g, l, f, h) => l < 3 && Table(s, t, va, l, f) && Table(s, t, va, l + 1, h)
       case _ => true
  }

  predicate HoldApart(ph: seq<Phase>) {
    forall t, u | 0 <= t < u < |ph| :: Holds(ph[t]) !! Holds(ph[u])
  }

  ghost predicate Sound(x: Live) {
    && |x.ph| == |x.s.mms| && Inv(Settled(x)) && HoldApart(x.ph)
    && forall t | 0 <= t < |x.ph| :: PhaseOk(x.s, t, x.ph[t])
  }
}
