/** The copy of a fork, taken apart like every mapping: what the child reads at the end, whatever other cores do. */
module ForkPieces {
  import opened Basics
  import opened Frames
  import opened PageTables
  import opened Mapping
  import opened Areas
  import opened Fork
  import opened MemoryRuns
  import opened MemoryInterleaving
  import opened InterleavingProofs
  import opened InterleavingRuns

  /** Where the loop of copy_virt_memory is with its page: before pt_walk, inside map_page, or at a word of memcpy. */
  datatype Stage = Looking | InMap | Writing(i: nat)

  /** The move neither belongs to the copy nor is aimed at parent or child. */
  predicate Foreign(x: Live, move: Move, src: nat, dst: nat) {
    && Whose(x, move) != Some(src) && Whose(x, move) != Some(dst)
    && (move.Begin? || move.Advance? ==> move.t != dst)
  }

  /** The copy's own next move on page `va`. */
  predicate CopyMove(x: Live, move: Move, src: nat, dst: nat, va: Word, at: Stage) {
    match at
    case Looking => move == Begin(dst, va)
    case InMap => move == Advance(dst)
    case Writing(i) =>
      && i < PTRS_PER_TABLE && Load(x.s, src, va, i).Some?
      && move == Do(UserStore(dst, va, i, Load(x.s, src, va, i).value))
  }

  /** The stage after it, and how many pages it has finished. */
  function After(x: Live, dst: nat, at: Stage): (Stage, nat) {
    match at
    case Looking => (InMap, 0)
    case InMap => if dst < |x.ph| && IsLast(x.ph[dst]) then (Writing(0), 0) else (InMap, 0)
    case Writing(i) => if i + 1 < PTRS_PER_TABLE then (Writing(i + 1), 0) else (Looking, 1)
  }

  predicate Unmapped(x: Live, src: nat, va: Word) { Load(x.s, src, va, 0).None? }

  /** A run in which the copy has `pages` left at the start and `rest` at the end, with any foreign moves in between. */
  ghost predicate CopyRun(x: Live, moves: seq<Move>, x': Live, src: nat, dst: nat, pages: seq<Word>, at: Stage,
      rest: seq<Word>, at': Stage)
    decreases |moves| + |pages|
  {
    if at.Looking? && pages != [] && Unmapped(x, src, pages[0]) then
      CopyRun(x, moves, x', src, dst, pages[1..], at, rest, at')
    else if moves == [] then x' == x && rest == pages && at' == at
    else
      && Possible(x, moves[0])
      && if Foreign(x, moves[0], src, dst) then
           CopyRun(Made(x, moves[0]), moves[1..], x', src, dst, pages, at, rest, at')
         else
           && pages != [] && CopyMove(x, moves[0], src, dst, pages[0], at)
           && var (next, n) := After(x, dst, at);
              CopyRun(Made(x, moves[0]), moves[1..], x', src, dst, pages[n..], next, rest, at')
  }

  // ---- what the child reads on the way

  predicate Has(pages: seq<Word>, va: Word) { exists k :: 0 <= k < |pages| && Vpn(pages[k]) == Vpn(va) }

  /** The word the child ought to read: the parent's on the finished pages the parent maps, zeros on the rest of the
      page being written, and what it was elsewhere. */
  function Wanted(s0: System, src: nat, dst: nat, done: seq<Word>, page: Option<Word>, at: Stage, va: Word,
      i: nat): Option<Word>
    requires i < PTRS_PER_TABLE
  {
    if Has(done, va) && Load(s0, src, va, i).Some? then Load(s0, src, va, i)
    else if at.Writing? && page.Some? && Vpn(page.value) == Vpn(va) then
      if i < at.i then Load(s0, src, va, i) else Some(0)
    else Load(s0, dst, va, i)
  }

  function First(pages: seq<Word>): Option<Word> { if pages == [] then None else Some(pages[0]) }

  ghost predicate CopyInv(s0: System, x: Live, src: nat, dst: nat, done: seq<Word>, pages: seq<Word>, at: Stage) {
    && Sound(x) && src != dst && dst < |x.ph|
    && (at.InMap? ==> pages != [] && x.ph[dst] != Idle && x.ph[dst].va == pages[0])
    && (!at.InMap? ==> x.ph[dst] == Idle)
    && (at.Writing? ==> pages != [] && at.i < PTRS_PER_TABLE)
    && (!at.Looking? ==> Load(s0, src, pages[0], 0).Some?)
    && DistinctPages(done + pages)
    && (forall va: Word, i: nat | i < PTRS_PER_TABLE :: Load(x.s, src, va, i) == Load(s0, src, va, i))
    && (forall va: Word, i: nat | i < PTRS_PER_TABLE ::
          Load(x.s, dst, va, i) == Wanted(s0, src, dst, done, First(pages), at, va, i))
  }

  /** Whether a page is mapped, and to what, depends on its number only. */
  lemma LoadByPage(s: System, t: nat, va: Word, vb: Word, i: nat)
    requires Vpn(va) == Vpn(vb) && i < PTRS_PER_TABLE
    ensures Load(s, t, va, i) == Load(s, t, vb, i) && (Load(s, t, va, i).Some? <==> Load(s, t, vb, 0).Some?)
  {
    SamePage(t, va, t, vb);
  }

  lemma ForeignStep(s0: System, x: Live, move: Move, src: nat, dst: nat, done: seq<Word>, pages: seq<Word>, at: Stage)
    requires CopyInv(s0, x, src, dst, done, pages, at) && Possible(x, move) && Foreign(x, move, src, dst)
    ensures CopyInv(s0, Made(x, move), src, dst, done, pages, at)
  {
    var x' := Made(x, move);
    MoveKeeps(x, move);
    PhaseKept(x, move, dst);
    hide Sound, Made, Possible, Whose, Load, Wanted;
  }

  lemma PhaseKept(x: Live, move: Move, u: nat)
    requires Sound(x) && Possible(x, move) && u < |x.ph| && (move.Begin? || move.Advance? ==> move.t != u)
    ensures u < |Made(x, move).ph| && Made(x, move).ph[u] == x.ph[u]
  {
    hide Sound, Apply;
  }

  lemma NotDone(done: seq<Word>, pages: seq<Word>)
    requires DistinctPages(done + pages) && pages != []
    ensures forall va: Word | Vpn(va) == Vpn(pages[0]) :: !Has(done, va)
  {
    var all := done + pages;
    assert all[|done|] == pages[0];
    forall k | 0 <= k < |done| ensures Vpn(done[k]) != Vpn(pages[0]) {
      assert all[k] == done[k];
    }
  }

  lemma HasMore(done: seq<Word>, p: Word)
    ensures forall va: Word :: Has(done + [p], va) <==> Has(done, va) || Vpn(p) == Vpn(va)
  {
    var more := done + [p];
    forall va: Word ensures Has(more, va) <==> Has(done, va) || Vpn(p) == Vpn(va) {
      assert more[|done|] == p;
      if Has(done, va) {
        var k :| 0 <= k < |done| && Vpn(done[k]) == Vpn(va);
        assert more[k] == done[k];
      }
      if Has(more, va) {
        var k :| 0 <= k < |more| && Vpn(more[k]) == Vpn(va);
        assert k < |done| ==> done[k] == more[k];
      }
    }
  }

  /** A page the parent does not map is passed by. */
  lemma SkipStep(s0: System, x: Live, src: nat, dst: nat, done: seq<Word>, pages: seq<Word>)
    requires CopyInv(s0, x, src, dst, done, pages, Looking) && pages != [] && Unmapped(x, src, pages[0])
    ensures CopyInv(s0, x, src, dst, done + [pages[0]], pages[1..], Looking)
  {
    hide Sound, Load, Has, Vpn;
    var p := pages[0];
    HasMore(done, p);
    assert done + [p] + pages[1..] == done + pages;
    forall va: Word, i: nat | i < PTRS_PER_TABLE && Vpn(p) == Vpn(va) ensures Load(s0, src, va, i).None? {
      LoadByPage(s0, src, va, p, i);
    }
  }

  lemma BeginStep(s0: System, x: Live, src: nat, dst: nat, done: seq<Word>, pages: seq<Word>)
    requires CopyInv(s0, x, src, dst, done, pages, Looking) && pages != [] && !Unmapped(x, src, pages[0])
    requires Possible(x, Begin(dst, pages[0]))
    ensures CopyInv(s0, Made(x, Begin(dst, pages[0])), src, dst, done, pages, InMap)
  {
    hide Sound, Load, Has, Made, Possible;
    BeginUnseen(x, dst, pages[0]);
    BeginMade(x, dst, pages[0]);
  }

  lemma BeginMade(x: Live, t: nat, va: Word)
    requires Possible(x, Begin(t, va))
    ensures var ph := Made(x, Begin(t, va)).ph; t < |ph| && ph[t] != Idle && ph[t].va == va
  {}

  lemma PieceKeepsPage(x: Live, t: nat)
    requires Sound(x) && Possible(x, Advance(t)) && !IsLast(x.ph[t])
    ensures var x' := Made(x, Advance(t)); t < |x'.ph| && x'.ph[t] != Idle && x'.ph[t].va == x.ph[t].va
  {
    hide Sound, Take, Zero, WithFlag, Record, SetPgd, WriteEntry, Index;
  }

  lemma MapStep(s0: System, x: Live, src: nat, dst: nat, done: seq<Word>, pages: seq<Word>)
    requires CopyInv(s0, x, src, dst, done, pages, InMap) && Possible(x, Advance(dst)) && !IsLast(x.ph[dst])
    ensures CopyInv(s0, Made(x, Advance(dst)), src, dst, done, pages, InMap)
  {
    AdvanceUnseen(x, dst);
    PieceKeepsPage(x, dst);
    LengthKept(x, dst);
    hide Sound, Load, Has, Made;
  }

  lemma LengthKept(x: Live, t: nat)
    requires Possible(x, Advance(t))
    ensures |Made(x, Advance(t)).ph| == |x.ph|
  {
    hide Act;
  }

  lemma LastStep(s0: System, x: Live, src: nat, dst: nat, done: seq<Word>, pages: seq<Word>)
    requires CopyInv(s0, x, src, dst, done, pages, InMap) && Possible(x, Advance(dst)) && IsLast(x.ph[dst])
    ensures CopyInv(s0, Made(x, Advance(dst)), src, dst, done, pages, Writing(0))
  {
    hide Sound, Load, Has, Made, Vpn, Possible, Wanted, IsLast;
    var x' := Made(x, Advance(dst));
    LengthKept(x, dst);
    LastStore(x, dst, 0, 0, 0);
    forall va: Word, i: nat | i < PTRS_PER_TABLE
      ensures Load(x'.s, src, va, i) == Load(s0, src, va, i)
      ensures Load(x'.s, dst, va, i) == Wanted(s0, src, dst, done, First(pages), Writing(0), va, i)
    {
      LastStore(x, dst, src, va, i);
      LastStore(x, dst, dst, va, i);
      LastWanted(s0, src, dst, done, pages, va, i);
    }
  }

  lemma LastWanted(s0: System, src: nat, dst: nat, done: seq<Word>, pages: seq<Word>, va: Word, i: nat)
    requires pages != [] && DistinctPages(done + pages) && i < PTRS_PER_TABLE
    ensures Wanted(s0, src, dst, done, First(pages), Writing(0), va, i) ==
      if Vpn(va) == Vpn(pages[0]) then Some(0) else Wanted(s0, src, dst, done, First(pages), InMap, va, i)
  {
    NotDone(done, pages);
    hide Load, Has, Vpn;
  }

  /** A store by the kernel or the task, while other mappings are in progress. */
  lemma LiveStore(x: Live, t: nat, va: Word, i: nat, w: Word, u: nat, vb: Word, j: nat)
    requires Sound(x) && Sized(x.s.mem) && i < PTRS_PER_TABLE && j < PTRS_PER_TABLE
    ensures Load(Store(x.s, t, va, i, w), u, vb, j) ==
      if Load(x.s, t, va, i).Some? && u == t && Vpn(vb) == Vpn(va) && i == j then Some(w) else Load(x.s, u, vb, j)
  {
    SoundForest(x);
    StoreSettled(x, t, va, i, w);
    LoadsAgree(x);
    LoadsAgree(Live(Store(x.s, t, va, i, w), x.ph));
    StoreIsLocal(Settled(x), t, va, i, w, u, vb, j);
  }

  lemma SoundForest(x: Live)
    requires Sound(x)
    ensures |x.ph| == |x.s.mms| && IsForest(Settled(x))
  {}

  /** The next word of the page is the parent's now. */
  lemma WriteStep(s0: System, x: Live, src: nat, dst: nat, done: seq<Word>, pages: seq<Word>, k: nat)
    requires CopyInv(s0, x, src, dst, done, pages, Writing(k)) && Load(x.s, src, pages[0], k).Some?
    requires Possible(x, Do(UserStore(dst, pages[0], k, Load(x.s, src, pages[0], k).value)))
    ensures var x' := Made(x, Do(UserStore(dst, pages[0], k, Load(x.s, src, pages[0], k).value)));
      if k + 1 < PTRS_PER_TABLE then CopyInv(s0, x', src, dst, done, pages, Writing(k + 1))
      else CopyInv(s0, x', src, dst, done + [pages[0]], pages[1..], Looking)
  {
    hide Sound, Load, Has, Made, Vpn, Possible, Wanted;
    var p, w := pages[0], Load(x.s, src, pages[0], k).value;
    var x' := Made(x, Do(UserStore(dst, p, k, w)));
    MoveKeeps(x, Do(UserStore(dst, p, k, w)));
    StoreMade(x, dst, p, k, w);
    forall va: Word, i: nat | i < PTRS_PER_TABLE
      ensures Load(x'.s, src, va, i) == Load(s0, src, va, i)
      ensures Load(x'.s, dst, va, i) ==
        if k + 1 < PTRS_PER_TABLE then Wanted(s0, src, dst, done, First(pages), Writing(k + 1), va, i)
        else Wanted(s0, src, dst, done + [p], First(pages[1..]), Looking, va, i)
    {
      LiveStore(x, dst, p, k, w, dst, va, i);
      WriteWanted(s0, src, dst, done, pages, k, va, i);
      ZeroOnPage(s0, src, dst, done, pages, k);
    }
    assert done + [p] + pages[1..] == done + pages;
  }

  /** The word to be written is there, and is 0 until then. */
  lemma ZeroOnPage(s0: System, src: nat, dst: nat, done: seq<Word>, pages: seq<Word>, k: nat)
    requires pages != [] && DistinctPages(done + pages) && k < PTRS_PER_TABLE
    ensures Wanted(s0, src, dst, done, First(pages), Writing(k), pages[0], k) == Some(0)
  {
    NotDone(done, pages);
  }

  lemma WriteWanted(s0: System, src: nat, dst: nat, done: seq<Word>, pages: seq<Word>, k: nat, va: Word, i: nat)
    requires pages != [] && DistinctPages(done + pages) && i < PTRS_PER_TABLE && k < PTRS_PER_TABLE
    requires Load(s0, src, pages[0], 0).Some?
    ensures
      (if k + 1 < PTRS_PER_TABLE then Wanted(s0, src, dst, done, First(pages), Writing(k + 1), va, i)
       else Wanted(s0, src, dst, done + [pages[0]], First(pages[1..]), Looking, va, i)) ==
      if Vpn(va) == Vpn(pages[0]) && i == k then Load(s0, src, pages[0], k)
      else Wanted(s0, src, dst, done, First(pages), Writing(k), va, i)
  {
    NotDone(done, pages);
    HasMore(done, pages[0]);
    if Vpn(va) == Vpn(pages[0]) {
      LoadByPage(s0, src, va, pages[0], i);
      LoadByPage(s0, src, pages[0], pages[0], i);
    }
    hide Load, Has, Vpn;
  }

  lemma StoreMade(x: Live, t: nat, va: Word, i: nat, w: Word)
    requires Possible(x, Do(UserStore(t, va, i, w)))
    ensures Sized(x.s.mem) && i < PTRS_PER_TABLE
    ensures Made(x, Do(UserStore(t, va, i, w))) == Live(Store(x.s, t, va, i, w), x.ph)
    ensures Whose(x, Do(UserStore(t, va, i, w))) == Some(t)
  {}

  // ---- the whole copy

  lemma {:induction false} CopyGoes(s0: System, x: Live, moves: seq<Move>, x': Live, src: nat, dst: nat,
      done: seq<Word>,
      pages: seq<Word>, at: Stage, rest: seq<Word>, at': Stage)
    requires CopyInv(s0, x, src, dst, done, pages, at) && CopyRun(x, moves, x', src, dst, pages, at, rest, at')
    ensures rest == [] ==> CopyInv(s0, x', src, dst, done + pages, [], at')
    decreases |moves| + |pages|
  {
    hide CopyInv, Possible, Made, Foreign, Unmapped, Load;
    if at.Looking? && pages != [] && Unmapped(x, src, pages[0]) {
      SkipStep(s0, x, src, dst, done, pages);
      CopyGoes(s0, x, moves, x', src, dst, done + [pages[0]], pages[1..], at, rest, at');
      assert done + [pages[0]] + pages[1..] == done + pages;
    } else if moves == [] {
      assert rest == [] ==> done + pages == done;
    } else if Foreign(x, moves[0], src, dst) {
      ForeignStep(s0, x, moves[0], src, dst, done, pages, at);
      CopyGoes(s0, Made(x, moves[0]), moves[1..], x', src, dst, done, pages, at, rest, at');
    } else {
      var y := Made(x, moves[0]);
      var (next, n) := After(x, dst, at);
      CopyOneMove(s0, x, moves[0], src, dst, done, pages, at);
      CopyGoes(s0, y, moves[1..], x', src, dst, done + pages[..n], pages[n..], next, rest, at');
      assert done + pages[..n] + pages[n..] == done + pages;
    }
  }

  lemma CopyOneMove(s0: System, x: Live, move: Move, src: nat, dst: nat, done: seq<Word>, pages: seq<Word>, at: Stage)
    requires CopyInv(s0, x, src, dst, done, pages, at) && Possible(x, move) && pages != []
    requires CopyMove(x, move, src, dst, pages[0], at) && (at.Looking? ==> !Unmapped(x, src, pages[0]))
    ensures var (next, n) := After(x, dst, at);
      CopyInv(s0, Made(x, move), src, dst, done + pages[..n], pages[n..], next)
  {
    hide Possible, Made, Load, Sound, CopyInv, IsLast, Unmapped;
    InRange(s0, x, src, dst, done, pages, at);
    assert done + pages[..0] == done && pages[0..] == pages && pages[..1] == [pages[0]];
    match at {
      case Looking => BeginStep(s0, x, src, dst, done, pages);
      case InMap =>
        if IsLast(x.ph[dst]) {
          LastStep(s0, x, src, dst, done, pages);
        } else {
          MapStep(s0, x, src, dst, done, pages);
        }
      case Writing(k) => WriteStep(s0, x, src, dst, done, pages, k);
    }
  }

  lemma InRange(s0: System, x: Live, src: nat, dst: nat, done: seq<Word>, pages: seq<Word>, at: Stage)
    requires CopyInv(s0, x, src, dst, done, pages, at)
    ensures dst < |x.ph|
  {}

  /**
   * However other cores interleave, as long as nothing is aimed at parent or child: when the copy has gone through all
   * its pages, the child reads the parent's words on exactly those of them that the parent maps, and elsewhere what it
   * read before.
   */
  lemma ForkInPieces(x: Live, moves: seq<Move>, x': Live, src: nat, dst: nat, pages: seq<Word>, at': Stage, va: Word,
      i: nat)
    requires Sound(x) && src != dst && dst < |x.ph| && x.ph[dst] == Idle && DistinctPages(pages) && i < PTRS_PER_TABLE
    requires CopyRun(x, moves, x', src, dst, pages, Looking, [], at')
    ensures Sound(x') && Load(x'.s, src, va, i) == Load(x.s, src, va, i)
    ensures Load(x'.s, dst, va, i) ==
      if Has(pages, va) && Load(x.s, src, va, i).Some? then Load(x.s, src, va, i) else Load(x.s, dst, va, i)
  {
    hide Sound, Load, Has, Wanted, CopyRun, DistinctPages;
    CopyStarts(x, src, dst, pages);
    CopyGoes(x.s, x, moves, x', src, dst, [], pages, Looking, [], at');
    assert [] + pages == pages;
    CopyEnds(x.s, src, dst, pages, at', va, i);
  }

  lemma CopyStarts(x: Live, src: nat, dst: nat, pages: seq<Word>)
    requires Sound(x) && src != dst && dst < |x.ph| && x.ph[dst] == Idle && DistinctPages(pages)
    ensures CopyInv(x.s, x, src, dst, [], pages, Looking)
  {
    assert [] + pages == pages;
    hide Sound, Load;
  }

  lemma CopyEnds(s0: System, src: nat, dst: nat, pages: seq<Word>, at: Stage, va: Word, i: nat)
    requires i < PTRS_PER_TABLE
    ensures Wanted(s0, src, dst, pages, First([]), at, va, i) ==
      if Has(pages, va) && Load(s0, src, va, i).Some? then Load(s0, src, va, i) else Load(s0, dst, va, i)
  {
    hide Load, Has;
  }

  /** For the child of a fork, which has no tables yet: the parent's words in the parent's areas, and nothing else. */
  lemma ForkedChild(x: Live, moves: seq<Move>, x': Live, src: nat, dst: nat, at': Stage, va: Word, i: nat)
    requires Sound(x) && src < |x.ph| && src != dst && dst < |x.ph| && x.ph[dst] == Idle && i < PTRS_PER_TABLE
    requires |x.ph| == |x.s.mms| && x.s.mms[dst].pgd == 0 && Good(x.s.mms[src].vmas) && Low(x.s.mms[src].vmas)
    requires CopyRun(x, moves, x', src, dst, AllPages(x.s.mms[src].vmas), Looking, [], at')
    ensures Load(x'.s, dst, va, i) ==
      if Has(AllPages(x.s.mms[src].vmas), va) then Load(x.s, src, va, i) else None
  {
    AllPagesAre(x.s.mms[src].vmas);
    ForkInPieces(x, moves, x', src, dst, AllPages(x.s.mms[src].vmas), at', va, i);
    NoTables(x.s, dst, va);
  }

  lemma NoTables(s: System, t: nat, va: Word)
    requires t < |s.mms| && s.mms[t].pgd == 0
    ensures Node(s, PathTo(t, va, LEVELS)).None?
  {
    assert Node(s, PathTo(t, va, 0)).None? && Node(s, PathTo(t, va, 1)).None?;
    assert Node(s, PathTo(t, va, 2)).None? && Node(s, PathTo(t, va, 3)).None?;
  }
}
