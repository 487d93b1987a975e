/** The words of the page tables bit by bit, as the hardware reads them. */
module EntryBits {
  import opened Basics
  import opened Bits
  import opened Frames
  import opened PageTables
  import opened Mapping

  // ---- the descriptor formats of VMSAv8-64

  const VALID := 0
  const TABLE_OR_PAGE := 1
  const ATTR_INDX_0 := 2
  const EL0_ACCESS := 6
  const SHAREABLE_0 := 8
  const SHAREABLE_1 := 9
  const ACCESS_FLAG := 10

  /** The word leads to the next table, in frame `g`, and has no other attribute. */
  ghost predicate TableWord(w: nat, g: nat) {
    forall i: nat :: Bit(w, i) <==> if i < 12 then i in {VALID, TABLE_OR_PAGE} else Bit(Pa(g), i)
  }

  /** The word maps frame `g` as an accessed, inner shareable page of normal memory that EL0 may read and write. */
  ghost predicate LeafWord(w: nat, g: nat) {
    forall i: nat :: Bit(w, i) <==>
      if i < 12 then i in {VALID, TABLE_OR_PAGE, ATTR_INDX_0, EL0_ACCESS, SHAREABLE_0, SHAREABLE_1, ACCESS_FLAG}
      else Bit(Pa(g), i)
  }

  // ---- bits of a sum without carries

  lemma {:induction false} LowClear(a: nat, k: nat, i: nat)
    requires a % Pow2(k) == 0 && i < k
    ensures !Bit(a, i)
  {
    HalfMod(a, Pow2(k - 1));
    if i > 0 {
      LowClear(a / 2, k - 1, i - 1);
    }
  }

  lemma {:induction false} HighClear(f: nat, k: nat, i: nat)
    requires f < Pow2(k) && i >= k
    ensures !Bit(f, i)
    decreases i
  {
    if k > 0 {
      HighClear(f / 2, k - 1, i - 1);
    } else {
      BitOfZero(i);
    }
  }

  lemma BitsOfSum(a: nat, f: nat, k: nat, i: nat)
    requires a % Pow2(k) == 0 && f < Pow2(k)
    ensures Bit(a + f, i) <==> if i < k then Bit(f, i) else Bit(a, i)
  {
    OrLow(a, f, k);
    BitOfOr(a, f, i);
    if i < k {
      LowClear(a, k, i);
    } else {
      HighClear(f, k, i);
    }
  }

  lemma {:induction false} BitIsDiv(n: nat, i: nat)
    ensures Bit(n, i) <==> n / Pow2(i) % 2 == 1
  {
    if i > 0 {
      BitIsDiv(n / 2, i - 1);
      DivDiv(n, Pow2(i - 1));
    }
  }

  lemma Powers()
    ensures Pow2(1) == 2 && Pow2(2) == 4 && Pow2(3) == 8 && Pow2(4) == 0x10 && Pow2(5) == 0x20 && Pow2(6) == 0x40
    ensures Pow2(7) == 0x80 && Pow2(8) == 0x100 && Pow2(9) == 0x200 && Pow2(10) == 0x400 && Pow2(11) == 0x800
    ensures Pow2(12) == 0x1000
  {}

  lemma FlagBits(i: nat)
    requires i < 12
    ensures Bit(TABLE_FLAGS, i) <==> i in {0, 1}
    ensures Bit(PTE_FLAGS, i) <==> i in {0, 1, 2, 6, 8, 9, 10}
  {
    Powers();
    BitIsDiv(TABLE_FLAGS, i);
    BitIsDiv(PTE_FLAGS, i);
  }

  /** Below bit 12 an entry has exactly the flags of its level, from bit 12 on the address of the frame. */
  lemma EntryMeans(g: nat, level: nat)
    ensures if level == 3 then LeafWord(Entry(g, level), g) else TableWord(Entry(g, level), g)
  {
    Powers();
    FrameAligned(g);
    forall i: nat
      ensures Bit(Entry(g, level), i) <==>
        if i < 12 then i in (if level == 3 then {0, 1, 2, 6, 8, 9, 10} else {0, 1}) else Bit(Pa(g), i)
    {
      BitsOfSum(Pa(g), if level == 3 then PTE_FLAGS else TABLE_FLAGS, 12, i);
      if i < 12 {
        FlagBits(i);
      }
    }
  }

  lemma FrameAligned(g: nat)
    ensures Pa(g) % 0x1000 == 0
  {}

  /** In every good state, every word of every table of every task is 0 or leads, in that format, to the frame the
      next position holds; the last level alone holds pages. */
  lemma WordsInTables(s: System, p: Path, i: nat)
    requires Sized(s.mem) && IsForest(s) && Level(p) < LEVELS && Node(s, p).Some? && i < PTRS_PER_TABLE
    ensures var w, next := s.mem.frames[Node(s, p).value][i], Node(s, Step(p, i));
      if w == 0 then next.None?
      else next.Some? && if Level(p) == 3 then LeafWord(w, next.value) else TableWord(w, next.value)
  {
    var own :| Forest(s, own);
    var f := Node(s, p).value;
    assert own[f] == p;
    if s.mem.frames[f][i] != 0 {
      assert IsEntry(s.mem.frames[f][i], Level(p), |s.mem.frames|);
      EntryMeans(Node(s, Step(p, i)).value, Level(p));
    }
  }

  /** After map_page the word for the address is the leaf word of the frame. */
  lemma MappedWord(s: System, t: nat, va: Word, g: nat)
    requires IsForest(s) && t < |s.mms| && Sized(s.mem) && FreeCount(s) >= Missing(s, PathTo(t, va, 3))
    requires g < |s.mem.descs| && s.mem.descs[g].flag == User && !Referenced(s, g)
    ensures var s' := MapPage(s, t, va, g);
      && Node(s', PathTo(t, va, 3)).Some?
      && LeafWord(s'.mem.frames[Node(s', PathTo(t, va, 3)).value][Index(va, 3)], g)
  {
    hide LeafWord, IsForest, MapPage, Node, Index;
    MapPageCorrect(s, t, va, g);
    MapPageUpdates(s, t, va, g, t, va);
    LastStep(MapPage(s, t, va, g), t, va);
    WordsInTables(MapPage(s, t, va, g), PathTo(t, va, 3), Index(va, 3));
  }

  lemma LastStep(s: System, t: nat, va: Word)
    ensures PathTo(t, va, LEVELS) == Step(PathTo(t, va, 3), Index(va, 3))
    ensures Node(s, PathTo(t, va, LEVELS)).Some? ==> Node(s, PathTo(t, va, 3)).Some?
  {}
}
