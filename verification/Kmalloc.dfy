/** kmalloc and kfree on a pool of 32-byte blocks: a bitmap of used blocks, and a header inside each allocation. */
module KernelHeap {
  import opened Basics
  import opened Bitmaps
  import opened FirstFit
  import opened Frames
  import opened PageTables
  import opened Mapping
  import MemoryRuns
  import opened MemoryManager

  const BLOCK := 32
  const POOL_PAGES := 64
  const MAGIC := 0xAB

  /** `live` is what the callers hold: the first block of each allocation and its number of blocks. */
  datatype Heap = Heap(bits: seq<bool>, pool: seq<Byte>, live: map<nat, nat>)

  predicate Shape(h: Heap) { |h.pool| == BLOCK * |h.bits| }

  /** Blocks for `size` bytes and the header. */
  function Blocks(size: nat): nat { (size + BLOCK + BLOCK - 1) / BLOCK }

  /** The 16-bit little-endian block count of a header. */
  function Count(pool: seq<Byte>, f: nat): nat
    requires BLOCK * f + 2 < |pool|
  {
    var lo: nat, hi: nat := pool[BLOCK * f], pool[BLOCK * f + 1];
    lo + 256 * hi
  }

  function WithHeader(pool: seq<Byte>, f: nat, n: nat): (r: seq<Byte>)
    requires BLOCK * f + 2 < |pool|
    ensures |r| == |pool|
  {
    pool[BLOCK * f := n % 256][BLOCK * f + 1 := n / 256 % 256][BLOCK * f + 2 := MAGIC]
  }

  /** The new heap and the payload's offset in the pool; None stands for NULL. */
  function Kmalloc(h: Heap, size: nat): (r: (Heap, Option<nat>))
    requires Shape(h) && size <= PAGE_SIZE
    ensures Shape(r.0) && |r.0.bits| == |h.bits|
  {
    if size == 0 then (h, None)
    else
      var n := Blocks(size);
      match FirstClear(h.bits, n)
      case None => (h, None)
      case Some(f) =>
        (Heap(Filled(h.bits, f, n, true), WithHeader(h.pool, f, n), h.live[f := n]), Some(BLOCK * f + BLOCK))
  }

  /** `off` is the payload of an allocation somebody holds. */
  predicate Held(h: Heap, off: nat) { off % BLOCK == 0 && off >= BLOCK && off / BLOCK - 1 in h.live }

  /** kfree trusts the count it finds in the header. */
  function Kfree(h: Heap, off: nat): (r: Heap)
    requires Inv(h) && Held(h, off)
    ensures Shape(r)
  {
    var f := off / BLOCK - 1;
    assert LiveOk(h, f);
    Heap(Filled(h.bits, f, Count(h.pool, f), false), h.pool[BLOCK * f + 2 := 0], h.live - {f})
  }

  predicate InPayload(h: Heap, f: nat, off: nat) { f in h.live && BLOCK * f + BLOCK <= off < BLOCK * (f + h.live[f]) }

  // ---- the invariant

  predicate Covers(live: map<nat, nat>, f: nat, i: nat) { f in live && f <= i < f + live[f] }

  predicate LiveOk(h: Heap, f: nat)
    requires Shape(h) && f in h.live
  {
    && 2 <= h.live[f] && f + h.live[f] <= |h.bits|
    && Count(h.pool, f) == h.live[f] && h.pool[BLOCK * f + 2] == MAGIC
  }

  predicate Apart(live: map<nat, nat>, f: nat, g: nat)
    requires f in live && g in live
  {
    f + live[f] <= g || g + live[g] <= f
  }

  ghost predicate Inv(h: Heap) {
    && Shape(h)
    && (forall f | f in h.live :: LiveOk(h, f))
    && (forall f, g | f in h.live && g in h.live && f != g :: Apart(h.live, f, g))
    && (forall i | 0 <= i < |h.bits| :: h.bits[i] <==> exists f :: Covers(h.live, f, i))
  }

  lemma HeaderReads(pool: seq<Byte>, f: nat, n: nat, g: nat, k: nat)
    requires BLOCK * f + 2 < |pool| && BLOCK * g + 2 < |pool| && n < 0x10000 && k < 3
    ensures Count(WithHeader(pool, f, n), f) == n && WithHeader(pool, f, n)[BLOCK * f + 2] == MAGIC
    ensures g != f ==> WithHeader(pool, f, n)[BLOCK * g + k] == pool[BLOCK * g + k]
  {}

  lemma BlocksFit(size: nat)
    ensures size > 0 ==> 2 <= Blocks(size)
    ensures size <= BLOCK * (Blocks(size) - 1) < size + BLOCK
    ensures size <= PAGE_SIZE ==> Blocks(size) < 0x10000
  {}

  /** A clear run meets no live allocation. */
  lemma ClearMeansApart(h: Heap, f: nat, n: nat, g: nat)
    requires Inv(h) && ClearRun(h.bits, f, n) && n > 0 && g in h.live
    ensures f + n <= g || g + h.live[g] <= f
  {
    assert LiveOk(h, g);
    var i := if f < g then g else f;
    assert i < f + n ==> !h.bits[i];
    assert i < g + h.live[g] ==> Covers(h.live, g, i);
  }

  lemma AllocKeeps(h: Heap, size: nat)
    requires Inv(h) && size <= PAGE_SIZE
    ensures Inv(Kmalloc(h, size).0)
  {
    if size > 0 && FirstClear(h.bits, Blocks(size)).Some? {
      BlocksFit(size);
      ClaimKeeps(h, FirstClear(h.bits, Blocks(size)).value, Blocks(size));
    }
  }

  lemma ClaimKeeps(h: Heap, f: nat, n: nat)
    requires Inv(h) && ClearRun(h.bits, f, n) && 2 <= n < 0x10000
    ensures Inv(Heap(Filled(h.bits, f, n, true), WithHeader(h.pool, f, n), h.live[f := n]))
  {
    var h' := Heap(Filled(h.bits, f, n, true), WithHeader(h.pool, f, n), h.live[f := n]);
    ClaimHeaders(h, f, n);
    forall g, k | g in h'.live && k in h'.live && g != k ensures Apart(h'.live, g, k) {
      if g == f {
        ClearMeansApart(h, f, n, k);
      } else if k == f {
        ClearMeansApart(h, f, n, g);
      } else {
        assert Apart(h.live, g, k);
      }
    }
    forall i | 0 <= i < |h'.bits| ensures h'.bits[i] <==> exists g :: Covers(h'.live, g, i) {
      ClaimBits(h, f, n, i);
    }
  }

  lemma ClaimHeaders(h: Heap, f: nat, n: nat)
    requires Inv(h) && ClearRun(h.bits, f, n) && 2 <= n < 0x10000
    ensures var h' := Heap(Filled(h.bits, f, n, true), WithHeader(h.pool, f, n), h.live[f := n]);
      forall g | g in h'.live :: LiveOk(h', g)
  {
    var h' := Heap(Filled(h.bits, f, n, true), WithHeader(h.pool, f, n), h.live[f := n]);
    forall g | g in h'.live ensures LiveOk(h', g) {
      if g == f {
        HeaderReads(h.pool, f, n, f, 0);
      } else {
        assert LiveOk(h, g);
        HeaderReads(h.pool, f, n, g, 0);
        HeaderReads(h.pool, f, n, g, 1);
        HeaderReads(h.pool, f, n, g, 2);
      }
    }
  }

  lemma ClaimBits(h: Heap, f: nat, n: nat, i: nat)
    requires Inv(h) && ClearRun(h.bits, f, n) && 0 < n && i < |h.bits|
    ensures var live' := h.live[f := n]; Filled(h.bits, f, n, true)[i] <==> exists g :: Covers(live', g, i)
  {
    var live' := h.live[f := n];
    if f <= i < f + n {
      assert Covers(live', f, i);
    } else {
      assert f in h.live ==> LiveOk(h, f) && !h.bits[f] && Covers(h.live, f, f);
      forall g ensures Covers(live', g, i) <==> Covers(h.live, g, i) {}
    }
  }

  lemma FreeKeeps(h: Heap, off: nat)
    requires Inv(h) && Held(h, off)
    ensures Inv(Kfree(h, off))
  {
    var f := off / BLOCK - 1;
    var h' := Kfree(h, off);
    assert LiveOk(h, f);
    forall g | g in h'.live ensures LiveOk(h', g) {
      assert LiveOk(h, g);
    }
    forall g, k | g in h'.live && k in h'.live && g != k ensures Apart(h'.live, g, k) {
      assert Apart(h.live, g, k);
    }
    forall i | 0 <= i < |h'.bits| ensures h'.bits[i] <==> exists g :: Covers(h'.live, g, i) {
      FreeBits(h, f, i);
    }
  }

  lemma FreeBits(h: Heap, f: nat, i: nat)
    requires Inv(h) && f in h.live && i < |h.bits| && f + h.live[f] <= |h.bits|
    ensures var live' := h.live - {f}; Filled(h.bits, f, h.live[f], false)[i] <==> exists g :: Covers(live', g, i)
  {
    var live' := h.live - {f};
    if f <= i < f + h.live[f] {
      forall g ensures !Covers(live', g, i) {
        if g in h.live && g != f {
          assert Apart(h.live, f, g);
        }
      }
    } else {
      forall g ensures Covers(live', g, i) <==> Covers(h.live, g, i) {}
    }
  }

  function Poke(h: Heap, off: nat, b: Byte): Heap
    requires off < |h.pool|
  {
    h.(pool := h.pool[off := b])
  }

  /** A payload byte is no header byte of any allocation, and belongs to one payload only. */
  lemma PayloadByte(h: Heap, f: nat, off: nat, g: nat)
    requires Inv(h) && InPayload(h, f, off) && g in h.live
    ensures !(BLOCK * g <= off < BLOCK * g + BLOCK) && off < |h.pool|
    ensures InPayload(h, g, off) ==> g == f
  {
    assert LiveOk(h, f) && LiveOk(h, g);
    if g != f {
      assert Apart(h.live, f, g);
    }
  }

  lemma PokeKeeps(h: Heap, f: nat, off: nat, b: Byte)
    requires Inv(h) && InPayload(h, f, off)
    ensures off < |h.pool| && Inv(Poke(h, off, b))
  {
    PayloadByte(h, f, off, f);
    var h' := Poke(h, off, b);
    forall g | g in h'.live ensures LiveOk(h', g) {
      assert LiveOk(h, g);
      PayloadByte(h, f, off, g);
    }
    assert forall f, g | f in h'.live && g in h'.live && f != g :: Apart(h'.live, f, g);
  }

  // ---- what callers rely on

  /** NULL exactly when no run of clear blocks is long enough; otherwise an aligned payload of at least
      `size` bytes inside the pool, in blocks nobody held. */
  lemma AllocMeans(h: Heap, size: nat)
    requires Inv(h) && 0 < size <= PAGE_SIZE
    ensures var (h', r) := Kmalloc(h, size);
      && (r.None? <==> forall i: nat :: !ClearRun(h.bits, i, Blocks(size)))
      && (r.None? ==> h' == h)
      && (r.Some? ==> Allotted(h, h', size, r.value))
  {
    BlocksFit(size);
    var r := FirstClear(h.bits, Blocks(size));
    if r.Some? {
      ClaimAllots(h, Kmalloc(h, size).0, size, r.value);
    }
  }

  lemma ClaimAllots(h: Heap, h': Heap, size: nat, f: nat)
    requires Inv(h) && 0 < size && FirstClear(h.bits, Blocks(size)) == Some(f)
    requires |h'.pool| == |h.pool| && h'.live == h.live[f := Blocks(size)]
    ensures Allotted(h, h', size, BLOCK * f + BLOCK)
  {
    BlocksFit(size);
    assert f in h.live ==> LiveOk(h, f) && Covers(h.live, f, f);
    forall g | g in h.live ensures f + Blocks(size) <= g || g + h.live[g] <= f {
      ClearMeansApart(h, f, Blocks(size), g);
    }
  }

  ghost predicate Allotted(h: Heap, h': Heap, size: nat, off: nat) {
    && off % BLOCK == 0 && off >= BLOCK && off + size <= |h'.pool|
    && var f := off / BLOCK - 1;
       && f !in h.live && h'.live == h.live[f := Blocks(size)]
       && ClearRun(h.bits, f, Blocks(size)) && (forall i: nat | ClearRun(h.bits, i, Blocks(size)) :: i >= f)
       && (forall x | off <= x < off + size :: InPayload(h', f, x))
       && (forall g | g in h.live :: f + Blocks(size) <= g || g + h.live[g] <= f)
  }

  /** kfree right after kmalloc puts every bit and the set of allocations back, so the same size gets the same
      address. */
  lemma FreeRestores(h: Heap, size: nat, h1: Heap, off: nat)
    requires Inv(h) && 0 < size <= PAGE_SIZE && Kmalloc(h, size) == (h1, Some(off))
    ensures Inv(h1) && Held(h1, off)
    ensures Kfree(h1, off).bits == h.bits && Kfree(h1, off).live == h.live
    ensures Kmalloc(Kfree(h1, off), size).1 == Some(off)
  {
    AllocKeeps(h, size);
    AllocMeans(h, size);
    var f, n := off / BLOCK - 1, Blocks(size);
    assert h1.bits == Filled(h.bits, f, n, true) && h1.live == h.live[f := n];
    hide *;
    FreeUndoes(h, h1, f, n, off);
    SameBitsSameAddress(h, Kfree(h1, off), size);
  }

  lemma FreeUndoes(h: Heap, h1: Heap, f: nat, n: nat, off: nat)
    requires Inv(h1) && Held(h1, off) && f == off / BLOCK - 1 && ClearRun(h.bits, f, n) && f !in h.live
    requires h1.bits == Filled(h.bits, f, n, true) && h1.live == h.live[f := n]
    ensures Kfree(h1, off).bits == h.bits && Kfree(h1, off).live == h.live
  {
    assert LiveOk(h1, f);
    FillBack(h.bits, f, n);
    assert h.live[f := n] - {f} == h.live;
  }

  lemma SameBitsSameAddress(h: Heap, k: Heap, size: nat)
    requires Shape(h) && Shape(k) && k.bits == h.bits && size <= PAGE_SIZE
    ensures Kmalloc(k, size).1 == Kmalloc(h, size).1
  {}

  /** A block once freed has lost its magic: freeing it again before anything else happens is caught. */
  lemma FreedHasNoMagic(h: Heap, off: nat)
    requires Inv(h) && Held(h, off)
    ensures off - BLOCK + 2 < |Kfree(h, off).pool| && Kfree(h, off).pool[off - BLOCK + 2] != MAGIC
  {
    assert LiveOk(h, off / BLOCK - 1);
  }

  // ---- runs

  datatype Op = Alloc(size: nat) | Release(off: nat) | Write(f: nat, off: nat, b: Byte)

  ghost predicate Allowed(h: Heap, op: Op) {
    match op
    case Alloc(size) => size <= PAGE_SIZE
    case Release(off) => Held(h, off)
    case Write(f, off, _) => InPayload(h, f, off)
  }

  ghost function Apply(h: Heap, op: Op): Heap
    requires Inv(h) && Allowed(h, op)
  {
    match op
    case Alloc(size) => Kmalloc(h, size).0
    case Release(off) => Kfree(h, off)
    case Write(f, off, b) => PokeKeeps(h, f, off, b); Poke(h, off, b)
  }

  lemma StepKeeps(h: Heap, op: Op)
    requires Inv(h) && Allowed(h, op)
    ensures Inv(Apply(h, op))
  {
    match op {
      case Alloc(size) => AllocKeeps(h, size);
      case Release(off) => FreeKeeps(h, off);
      case Write(f, off, b) => PokeKeeps(h, f, off, b);
    }
  }

  ghost predicate Run(h: Heap, ops: seq<Op>, h': Heap)
    decreases |ops|
  {
    if ops == [] then h' == h
    else Inv(h) && Allowed(h, ops[0]) && Run(Apply(h, ops[0]), ops[1..], h')
  }

  /** kmalloc_init */
  predicate Fresh(h: Heap) { Shape(h) && h.live == map[] && forall i | 0 <= i < |h.bits| :: !h.bits[i] }

  lemma {:induction false} RunKeeps(h: Heap, ops: seq<Op>, h': Heap)
    requires Inv(h) && Run(h, ops, h')
    ensures Inv(h')
    decreases |ops|
  {
    if ops != [] {
      StepKeeps(h, ops[0]);
      RunKeeps(Apply(h, ops[0]), ops[1..], h');
    }
  }

  /** After any run from kmalloc_init, the set bits are exactly the blocks of the live allocations, these share no
      block, and every header still holds its own length and magic. */
  lemma RunFromInit(h0: Heap, ops: seq<Op>, h: Heap)
    requires Fresh(h0) && Run(h0, ops, h)
    ensures Inv(h)
  {
    assert Inv(h0) by {
      assert forall f, i :: !Covers(h0.live, f, i);
    }
    RunKeeps(h0, ops, h);
  }

  /** The operation neither writes into allocation `g` nor releases it. */
  predicate Spares(op: Op, g: nat) {
    match op
    case Alloc(_) => true
    case Release(off) => off / BLOCK - 1 != g
    case Write(f, _, _) => f != g
  }

  lemma StepSpares(h: Heap, op: Op, g: nat, x: nat)
    requires Inv(h) && Allowed(h, op) && Spares(op, g) && InPayload(h, g, x)
    ensures InPayload(Apply(h, op), g, x) && x < |h.pool| == |Apply(h, op).pool| && Apply(h, op).pool[x] == h.pool[x]
  {
    PayloadByte(h, g, x, g);
    match op {
      case Alloc(size) =>
        if size > 0 && FirstClear(h.bits, Blocks(size)).Some? {
          var f := FirstClear(h.bits, Blocks(size)).value;
          BlocksFit(size);
          ClearMeansApart(h, f, Blocks(size), g);
        }
      case Release(off) =>
        PayloadByte(h, g, x, off / BLOCK - 1);
        assert LiveOk(h, off / BLOCK - 1);
      case Write(f, off, b) =>
        PokeKeeps(h, f, off, b);
        PayloadByte(h, f, off, g);
    }
  }

  /** Nobody else's calls or writes ever change a byte of an allocation. */
  lemma {:induction false} PayloadIsOwned(h: Heap, ops: seq<Op>, h': Heap, g: nat, x: nat)
    requires Inv(h) && Run(h, ops, h') && InPayload(h, g, x)
    requires forall k | 0 <= k < |ops| :: Spares(ops[k], g)
    ensures InPayload(h', g, x) && x < |h.pool| == |h'.pool| && h'.pool[x] == h.pool[x]
    decreases |ops|
  {
    PayloadByte(h, g, x, g);
    if ops != [] {
      StepKeeps(h, ops[0]);
      StepSpares(h, ops[0], g, x);
      PayloadIsOwned(Apply(h, ops[0]), ops[1..], h', g, x);
    }
  }

  lemma KmallocIs(h: Heap, size: nat)
    requires Shape(h) && 0 < size <= PAGE_SIZE
    ensures var n := Blocks(size);
      match FirstClear(h.bits, n)
      case None => Kmalloc(h, size) == (h, None)
      case Some(f) =>
        && f + n <= |h.bits| && BLOCK * f + 2 < |h.pool|
        && Kmalloc(h, size) ==
             (Heap(Filled(h.bits, f, n, true), WithHeader(h.pool, f, n), h.live[f := n]), Some(BLOCK * f + BLOCK))
  {
    BlocksFit(size);
  }

  lemma HeldHasMagic(h: Heap, off: nat)
    requires Inv(h)
    ensures Held(h, off) ==> off >= BLOCK && off - BLOCK + 2 < |h.pool| && h.pool[off - BLOCK + 2] == MAGIC
  {
    if Held(h, off) {
      assert LiveOk(h, off / BLOCK - 1);
    }
  }

  lemma KfreeIs(h: Heap, off: nat)
    requires Inv(h) && Held(h, off)
    ensures Inv(Kfree(h, off)) && Shape(h)
    ensures var hdr := off - BLOCK; 0 <= hdr && hdr + 2 < |h.pool| && h.pool[hdr + 2] == MAGIC && hdr % BLOCK == 0
    ensures var hdr := off - BLOCK; var f := hdr / BLOCK; var lo: nat, hi: nat := h.pool[hdr], h.pool[hdr + 1];
      f + lo + 256 * hi <= |h.bits|
      && Kfree(h, off) == Heap(Filled(h.bits, f, lo + 256 * hi, false), h.pool[hdr + 2 := 0], h.live - {f})
  {
    FreeKeeps(h, off);
    assert LiveOk(h, off / BLOCK - 1);
  }

  // ---- the allocator as it runs

  /** A whole frame for a size above a page: its address in the kernel's map, which is not NULL even when there is no
      frame left, and the memory afterwards. */
  function BigAlloc(m: Memory): (r: (Memory, nat))
    requires Sized(m)
  {
    var g := FirstFree(m.descs);
    if g == |m.descs| then (m, VA_START) else (Claimed(m, g, Kernel), Pa(g) + VA_START)
  }

  /** The byte at address `a` came to the caller: its frame was free and is a kernel frame now. */
  predicate Came(m: Memory, m': Memory, a: nat) {
    a >= VA_START + LOW_MEMORY &&
    var f := (a - VA_START - LOW_MEMORY) / PAGE_SIZE;
    f < |m.descs| && f < |m'.descs| && m.descs[f].flag == Free && m'.descs[f].flag == Kernel
  }

  /** kmalloc(size) gives NULL, or `size` bytes that are the caller's own. */
  ghost predicate NullOrOwn(h: Heap, m: Memory, size: nat)
    requires Inv(h) && Sized(m)
  {
    if size <= PAGE_SIZE then
      var (h', r) := Kmalloc(h, size);
      r.None? || Allotted(h, h', size, r.value)
    else
      var (m', addr) := BigAlloc(m);
      addr == 0 || forall a: nat | addr <= a < addr + size :: Came(m, m', a)
  }

  /** That holds in every state for sizes up to a page, and in no state for a larger size: such a caller gets one page
      for more than a page, and not even NULL when there is none. */
  lemma SizesExact(h: Heap, m: Memory, size: nat)
    requires Inv(h) && Sized(m)
    ensures NullOrOwn(h, m, size) <==> size <= PAGE_SIZE
  {
    if 0 < size <= PAGE_SIZE {
      AllocMeans(h, size);
    } else if size > PAGE_SIZE {
      BigFallsShort(m, size);
    }
  }

  lemma BigFallsShort(m: Memory, size: nat)
    requires Sized(m) && size > PAGE_SIZE
    ensures BigAlloc(m).1 != 0
    ensures exists a: nat :: BigAlloc(m).1 <= a < BigAlloc(m).1 + size && !Came(m, BigAlloc(m).0, a)
  {
    var (m', addr) := BigAlloc(m);
    var g := FirstFree(m.descs);
    if g == |m.descs| {
      assert !Came(m, m', addr);
    } else {
      assert (addr + PAGE_SIZE - VA_START - LOW_MEMORY) / PAGE_SIZE == g + 1;
      assert !Came(m, m', addr + PAGE_SIZE);
    }
  }

  class KernelPool {
    const memory: PhysicalMemory
    const bitmap: Bitmap
    const pool: array<Byte>
    const first: nat
    const poolBase: nat
    ghost var live: map<nat, nat>

    /** The pool is POOL_PAGES frames from frame `first` on, all of them in use. */
    ghost predicate Valid()
      reads this, bitmap.words, memory, memory.memMap
    {
      && memory.Valid() && bitmap.Valid() && bitmap.words as object != pool as object
      && pool as object != memory.memMap as object && pool as object != memory.frames as object
      && bitmap.words as object != memory.memMap as object && bitmap.words as object != memory.frames as object
      && pool.Length == POOL_PAGES * PAGE_SIZE == BLOCK * bitmap.numBits
      && poolBase == Pa(first) + VA_START && first + POOL_PAGES <= memory.memMap.Length
      && forall f | first <= f < first + POOL_PAGES :: memory.memMap[f].flag == Kernel
    }

    ghost function View(): (h: Heap)
      reads this, bitmap.words, pool, memory, memory.memMap
      requires Valid()
      ensures Shape(h)
    {
      Heap(bitmap.View(), pool[..], live)
    }

    /** kmalloc_init, in a memory with 64 free frames in a row; without them the kernel stops. */
    constructor (mem: PhysicalMemory)
      requires mem.Valid() && MemoryRuns.FirstRun(mem.View().descs, POOL_PAGES).Some?
      modifies mem.memMap, mem.frames
      ensures Valid() && Fresh(View()) && memory == mem && fresh(bitmap) && fresh(bitmap.words) && fresh(pool)
      ensures MemoryRuns.FirstRun(old(mem.View()).descs, POOL_PAGES) == Some(first)
      ensures mem.View() == MemoryRuns.ClaimRun(old(mem.View()), first, POOL_PAGES)
    {
      hide MemoryRuns.ClaimRun, MemoryRuns.FirstRun, Claimed;
      memory := mem;
      bitmap := new Bitmap(POOL_PAGES * PAGE_SIZE / BLOCK);
      pool := new Byte[POOL_PAGES * PAGE_SIZE](_ => 0);
      var base := mem.GetFreePages(POOL_PAGES);
      first := (base - LOW_MEMORY) / PAGE_SIZE;
      poolBase := base + VA_START;
      live := map[];
      new;
      RunFits(old(mem.View()).descs);
      RunIsUsed(old(mem.View()), first);
    }

    lemma RunFits(d: seq<Desc>)
      requires MemoryRuns.FirstRun(d, POOL_PAGES).Some?
      ensures MemoryRuns.FirstRun(d, POOL_PAGES).value + POOL_PAGES <= |d|
    {}

    lemma RunIsUsed(m: Memory, i: nat)
      requires Sized(m) && i + POOL_PAGES <= |m.descs|
      ensures forall f | i <= f < i + POOL_PAGES :: MemoryRuns.ClaimRun(m, i, POOL_PAGES).descs[f].flag == Kernel
    {
      forall f | i <= f < i + POOL_PAGES ensures MemoryRuns.ClaimRun(m, i, POOL_PAGES).descs[f].flag == Kernel {
        MemoryRuns.ClaimRunAt(m, i, POOL_PAGES, f);
      }
    }

    /** The address of `size` bytes, 0 for NULL, aligned to 32; a size above a page is served with one page. */
    method Alloc(size: nat) returns (addr: nat)
      requires Valid() && Inv(View())
      modifies this`live, bitmap.words, pool, memory.memMap, memory.frames
      ensures Valid() && Inv(View()) && addr % BLOCK == 0
      ensures size > PAGE_SIZE ==> View() == old(View()) && (memory.View(), addr) == BigAlloc(old(memory.View()))
      ensures size <= PAGE_SIZE ==> memory.View() == old(memory.View()) && View() == Kmalloc(old(View()), size).0
      ensures size <= PAGE_SIZE ==>
        match Kmalloc(old(View()), size).1 case None => addr == 0 case Some(off) => addr == poolBase + off
    {
      hide Inv;
      if size == 0 {
        return 0;
      }
      Aligned(first, 0);
      if size > PAGE_SIZE {
        ghost var m := memory.View();
        Aligned(FirstFree(m.descs), 0);
        var page := memory.GetFreePage();
        return page + VA_START;
      }
      addr := AllocBlocks(size);
    }

    lemma Aligned(f: nat, off: nat)
      requires off % BLOCK == 0
      ensures (Pa(f) + VA_START + off) % BLOCK == 0 && VA_START % BLOCK == 0
    {
      var n: nat := off / BLOCK;
      assert Pa(f) + VA_START + off == BLOCK * (LOW_MEMORY / BLOCK + 128 * f + VA_START / BLOCK + n);
    }

    method AllocBlocks(size: nat) returns (addr: nat)
      requires Valid() && Inv(View()) && 0 < size <= PAGE_SIZE
      modifies this`live, bitmap.words, pool
      ensures Valid() && Inv(View()) && View() == Kmalloc(old(View()), size).0 && addr % BLOCK == 0
      ensures match Kmalloc(old(View()), size).1 case None => addr == 0 case Some(off) => addr == poolBase + off
    {
      hide Inv, Kmalloc, Filled, WithHeader, FirstClear;
      ghost var h := View();
      AllocKeeps(h, size);
      BlocksFit(size);
      KmallocIs(h, size);
      var total := size + BLOCK;
      var numBlocks := (total + BLOCK - 1) / BLOCK;
      var start := bitmap.FindClearRun(numBlocks);
      if start == -1 {
        return 0;
      }
      Place(start, numBlocks);
      Aligned(first, start * BLOCK + BLOCK);
      addr := poolBase + start * BLOCK + BLOCK;
    }

    /** The blocks are marked and the header is written. */
    method Place(start: nat, n: nat)
      requires Valid() && start + n <= bitmap.numBits && n > 0
      modifies this`live, bitmap.words, pool
      ensures Valid()
      ensures var h := old(View());
        View() == Heap(Filled(h.bits, start, n, true), WithHeader(h.pool, start, n), h.live[start := n])
    {
      ghost var h := View();
      bitmap.SetRange(start, n);
      var hdr := start * BLOCK;
      PutCount(hdr, n);
      pool[hdr + 2] := MAGIC;
      live := live[start := n];
      assert pool[..] == WithHeader(h.pool, start, n);
    }

    /** hdr->num_blocks = (uint16_t)n */
    method PutCount(hdr: nat, n: nat)
      requires hdr + 1 < pool.Length
      modifies pool
      ensures pool[..] == old(pool[..])[hdr := n % 256][hdr + 1 := n / 256 % 256]
    {
      pool[hdr] := n % 256;
      pool[hdr + 1] := n / 256 % 256;
    }

    /** The frame an address outside the pool stands for. */
    predicate IsPage(addr: nat)
      reads memory
    {
      && (addr < poolBase || addr >= poolBase + POOL_PAGES * PAGE_SIZE)
      && addr >= LOW_MEMORY + VA_START && addr - VA_START < WORD_LIMIT
      && (addr - VA_START - LOW_MEMORY) / PAGE_SIZE < memory.memMap.Length
    }

    /** An address in the pool that nobody holds, and that shows: its header has no magic. */
    ghost predicate Unheld(addr: nat)
      requires Valid()
      reads this, bitmap.words, memory, memory.memMap, pool
    {
      && poolBase + BLOCK <= addr < poolBase + pool.Length && !Held(View(), addr - poolBase)
      && pool[addr - poolBase - BLOCK + 2] != MAGIC
    }

    /** kfree of a payload that is held, of an address outside the pool (which gives back its frame), or of NULL; for
        any other address in the pool the assertion on the magic stops the kernel, and nothing has changed. */
    method Free(addr: nat) returns (ok: bool)
      requires Valid() && Inv(View())
      requires addr == 0 || IsPage(addr) || Unheld(addr)
        || (poolBase <= addr < poolBase + pool.Length && Held(View(), addr - poolBase))
      modifies this`live, bitmap.words, pool, memory.memMap
      ensures Valid() && Inv(View()) && (ok <==> !old(Unheld(addr)))
      ensures addr == 0 || !ok ==> View() == old(View()) && memory.View() == old(memory.View())
      ensures ok && addr != 0 && poolBase <= addr < poolBase + pool.Length ==>
        View() == Kfree(old(View()), addr - poolBase) && memory.View() == old(memory.View())
      ensures addr != 0 && !(poolBase <= addr < poolBase + pool.Length) ==>
        var m := old(memory.View());
        View() == old(View())
        && memory.View() == m.(descs := m.descs[(addr - VA_START - LOW_MEMORY) / PAGE_SIZE := Desc(Flag.Free, 0, -1)])
    {
      hide Inv;
      if addr == 0 {
        return true;
      }
      if addr < poolBase || addr >= poolBase + POOL_PAGES * PAGE_SIZE {
        OutsidePool(addr - VA_START);
        memory.FreePage(addr - VA_START);
        return true;
      }
      HeldHasMagic(View(), addr - poolBase);
      if pool[addr - BLOCK - poolBase + 2] != MAGIC {
        return false;
      }
      ReleaseAt(addr - BLOCK - poolBase);
      ok := true;
    }

    /** No such frame is one of the pool's. */
    lemma OutsidePool(p: nat)
      requires poolBase == Pa(first) + VA_START && p >= LOW_MEMORY
      requires p + VA_START < poolBase || p + VA_START >= poolBase + POOL_PAGES * PAGE_SIZE
      ensures var f := (p - LOW_MEMORY) / PAGE_SIZE; f < first || f >= first + POOL_PAGES
    {
      var f, r := (p - LOW_MEMORY) / PAGE_SIZE, (p - LOW_MEMORY) % PAGE_SIZE;
      assert p == LOW_MEMORY + f * PAGE_SIZE + r;
    }

    /** kfree from the header at offset `hdr` on. */
    method ReleaseAt(hdr: nat)
      requires Valid() && Inv(View()) && Held(View(), hdr + BLOCK)
      modifies this`live, bitmap.words, pool
      ensures Valid() && Inv(View()) && View() == Kfree(old(View()), hdr + BLOCK)
    {
      hide Inv, Held, Kfree;
      KfreeIs(View(), hdr + BLOCK);
      var lo: nat, hi: nat := pool[hdr], pool[hdr + 1];
      var start := hdr / BLOCK;
      pool[hdr + 2] := 0;
      bitmap.ClearRange(start, lo + 256 * hi);
      live := live - {start};
    }
  }

  /** A page got for a large size goes back: the frame is free again, and the next large size gets it. */
  lemma BigComesBack(m: Memory)
    requires Sized(m) && FirstFree(m.descs) < |m.descs|
    ensures var (m1, addr) := BigAlloc(m); var f := FirstFree(m.descs);
      && addr - VA_START == Pa(f) && (Pa(f) - LOW_MEMORY) / PAGE_SIZE == f && |m1.descs| == |m.descs|
      && BigAlloc(m1.(descs := m1.descs[f := Desc(Flag.Free, 0, -1)])).1 == addr
  {
    var f := FirstFree(m.descs);
    FirstFreeIs(BigAlloc(m).0.descs[f := Desc(Flag.Free, 0, -1)], f);
  }
}
