/** FAT32 on an immutable disk: cluster chains, file reads, and directories. */
module Fat32 {
  import opened Basics
  import opened Bits
  import opened ShortNames

  const SECTOR := 512
  const END_OF_CHAIN := 0x0FFF_FFF8
  const NO_LBA := U32 - 1

  type Sector = s: seq<Byte> | |s| == SECTOR witness seq(SECTOR, _ => 0)

  /** The fields of the volume that reading uses, as 32-bit values. */
  datatype Vol = Vol(fatStart: nat, dataStart: nat, spc: nat, root: nat)

  /** blkdev_read; None is a failed read. */
  function ReadBlock(disk: seq<Sector>, lba: nat): Option<Sector> {
    if lba < |disk| then Some(disk[lba]) else None
  }

  function Le16(b: seq<Byte>, at: nat): nat
    requires at + 2 <= |b|
  {
    var p0: nat, p1: nat := b[at], b[at + 1];
    p0 + 0x100 * p1
  }

  function Le32(b: seq<Byte>, at: nat): (r: nat)
    requires at + 4 <= |b|
    ensures r < U32
  {
    Le16(b, at) + 0x1_0000 * Le16(b, at + 2)
  }

  // ---- clusters

  function ClusterLba(vol: Vol, c: nat): nat { Wrap(vol.dataStart + Wrap(Wrap(c - 2) * vol.spc)) }

  function FatLba(vol: Vol, c: nat): nat { Wrap(vol.fatStart + Wrap(c * 4) / SECTOR) }

  function FatIndex(c: nat): (i: nat)
    ensures i + 4 <= SECTOR
  {
    Wrap(c * 4) % SECTOR
  }

  /** The next cluster of the chain; 0 when the FAT sector cannot be read. */
  function Next(disk: seq<Sector>, vol: Vol, c: nat): (r: nat)
    ensures r < 0x1000_0000
  {
    match ReadBlock(disk, FatLba(vol, c))
    case None => 0
    case Some(s) => Le32(s, FatIndex(c)) % 0x1000_0000
  }

  /** With room below 2^32 the arithmetic of a FAT lookup does not wrap. */
  lemma FatLbaIs(vol: Vol, c: nat)
    requires c < END_OF_CHAIN && vol.fatStart < U32 - 0x20_0000
    ensures FatLba(vol, c) == vol.fatStart + c / 128 < NO_LBA && FatIndex(c) == c % 128 * 4
  {}

  /** That room is what it takes to keep every lookup off the last sector number. */
  lemma FatLbaExact(vol: Vol)
    requires vol.fatStart < U32
    ensures (forall c: nat | c < END_OF_CHAIN :: FatLba(vol, c) != NO_LBA) <==> vol.fatStart < U32 - 0x20_0000
  {
    if vol.fatStart < U32 - 0x20_0000 {
      forall c: nat | c < END_OF_CHAIN ensures FatLba(vol, c) != NO_LBA {
        FatLbaIs(vol, c);
      }
    } else {
      var c: nat := (NO_LBA - vol.fatStart) * 128;
      assert c < END_OF_CHAIN && FatLba(vol, c) == NO_LBA;
    }
  }

  // ---- what a read delivers

  /** At most `n` bytes from sectors s..spc of a cluster. */
  function ReadSectors(disk: seq<Sector>, lba: nat, s: nat, spc: nat, n: nat): (r: Option<seq<Byte>>)
    ensures r.Some? ==> |r.value| <= n && (s < spc && n > 0 ==> |r.value| > 0)
    decreases spc - s
  {
    if s >= spc || n == 0 then Some([])
    else
      match ReadBlock(disk, Wrap(lba + s))
      case None => None
      case Some(b) =>
        match ReadSectors(disk, lba, s + 1, spc, n - Min(n, SECTOR))
        case None => None
        case Some(r) => Some(b[..Min(n, SECTOR)] + r)
  }

  /** fat32_read: the bytes delivered, or None for an error. Clusters without sectors deliver nothing. */
  function ReadChain(disk: seq<Sector>, vol: Vol, c: nat, n: nat): (r: Option<seq<Byte>>)
    ensures r.Some? ==> |r.value| <= n
    decreases n
  {
    if c >= END_OF_CHAIN || n == 0 || vol.spc == 0 then Some([])
    else
      match ReadSectors(disk, ClusterLba(vol, c), 0, vol.spc, n)
      case None => None
      case Some(d) =>
        match ReadChain(disk, vol, Next(disk, vol, c), n - |d|)
        case None => None
        case Some(r) => Some(d + r)
  }

  // ---- the chain as a sequence of bytes

  /** All bytes of sectors s..spc of a cluster, if they can be read. */
  function AllSectors(disk: seq<Sector>, lba: nat, s: nat, spc: nat): (r: Option<seq<Byte>>)
    decreases spc - s
  {
    if s >= spc then Some([])
    else
      match (ReadBlock(disk, Wrap(lba + s)), AllSectors(disk, lba, s + 1, spc))
      case (Some(b), Some(r)) => Some(b + r)
      case _ => None
  }

  /** `cs` are the first clusters of the chain that starts at `c`; a cyclic chain has such prefixes of every length. */
  predicate IsPath(disk: seq<Sector>, vol: Vol, c: nat, cs: seq<nat>)
    decreases |cs|
  {
    cs == [] || (cs[0] == c < END_OF_CHAIN && IsPath(disk, vol, Next(disk, vol, c), cs[1..]))
  }

  /** The cluster after the path. */
  function After(disk: seq<Sector>, vol: Vol, c: nat, cs: seq<nat>): nat
    decreases |cs|
  {
    if cs == [] then c else After(disk, vol, Next(disk, vol, cs[0]), cs[1..])
  }

  /** The path is the whole chain. */
  predicate IsChain(disk: seq<Sector>, vol: Vol, c: nat, cs: seq<nat>) {
    IsPath(disk, vol, c, cs) && After(disk, vol, c, cs) >= END_OF_CHAIN
  }

  function PathBytes(disk: seq<Sector>, vol: Vol, cs: seq<nat>): Option<seq<Byte>> {
    if cs == [] then Some([])
    else
      match (AllSectors(disk, ClusterLba(vol, cs[0]), 0, vol.spc), PathBytes(disk, vol, cs[1..]))
      case (Some(d), Some(r)) => Some(d + r)
      case _ => None
  }

  lemma PrefixOfConcat(a: seq<Byte>, b: seq<Byte>, n: nat)
    ensures var full := a + b;
      full[..Min(n, |full|)] == a[..Min(n, |a|)] + b[..Min(n - Min(n, |a|), |b|)]
  {}

  lemma {:induction false} SectorsPrefix(disk: seq<Sector>, lba: nat, s: nat, spc: nat, n: nat)
    requires AllSectors(disk, lba, s, spc).Some?
    ensures var full := AllSectors(disk, lba, s, spc).value;
      ReadSectors(disk, lba, s, spc, n) == Some(full[..Min(n, |full|)])
    decreases spc - s
  {
    if s < spc {
      var b, r := ReadBlock(disk, Wrap(lba + s)).value, AllSectors(disk, lba, s + 1, spc).value;
      SectorsPrefix(disk, lba, s + 1, spc, n - Min(n, SECTOR));
      PrefixOfConcat(b, r, n);
    }
  }

  lemma {:induction false} NoBytes(disk: seq<Sector>, vol: Vol, cs: seq<nat>)
    requires vol.spc == 0
    ensures PathBytes(disk, vol, cs) == Some([])
  {
    if cs != [] {
      NoBytes(disk, vol, cs[1..]);
      var nothing: seq<Byte> := [];
      assert AllSectors(disk, ClusterLba(vol, cs[0]), 0, vol.spc) == Some(nothing) && nothing + nothing == nothing;
    }
  }

  /** A read delivers the first bytes of the chain: as many as asked for, or all the chain has. */
  lemma {:induction false} ReadIsPrefix(disk: seq<Sector>, vol: Vol, c: nat, cs: seq<nat>, n: nat)
    requires IsPath(disk, vol, c, cs) && PathBytes(disk, vol, cs).Some?
    requires After(disk, vol, c, cs) >= END_OF_CHAIN || |PathBytes(disk, vol, cs).value| >= n
    ensures var full := PathBytes(disk, vol, cs).value;
      ReadChain(disk, vol, c, n) == Some(full[..Min(n, |full|)])
    decreases |cs|
  {
    hide AllSectors, ReadSectors, Next, ClusterLba;
    if vol.spc == 0 {
      NoBytes(disk, vol, cs);
    } else if cs != [] && n > 0 {
      var d, r := AllSectors(disk, ClusterLba(vol, c), 0, vol.spc).value, PathBytes(disk, vol, cs[1..]).value;
      SectorsPrefix(disk, ClusterLba(vol, c), 0, vol.spc, n);
      PrefixOfConcat(d, r, n);
      ReadIsPrefix(disk, vol, Next(disk, vol, c), cs[1..], n - Min(n, |d|));
    }
  }

  // ---- errors

  /** Sector `s` of the cluster after the path `cs` is needed for `n` bytes, cannot be read, and all before it can. */
  ghost predicate BadSector(disk: seq<Sector>, vol: Vol, c: nat, n: nat, cs: seq<nat>, s: nat) {
    && IsPath(disk, vol, c, cs) && PathBytes(disk, vol, cs).Some? && After(disk, vol, c, cs) < END_OF_CHAIN
    && BadIn(disk, ClusterLba(vol, After(disk, vol, c, cs)), 0, vol.spc, n - |PathBytes(disk, vol, cs).value|, s)
  }

  predicate CanRead(disk: seq<Sector>, lba: nat, s: nat) { ReadBlock(disk, Wrap(lba + s)).Some? }

  /** Reading `n` bytes from sector `from` on stops at the unreadable sector `s`. */
  ghost predicate BadIn(disk: seq<Sector>, lba: nat, from: nat, spc: nat, n: int, s: nat) {
    && from <= s < spc && SECTOR * (s - from) < n
    && !CanRead(disk, lba, s) && forall k | from <= k < s :: CanRead(disk, lba, k)
  }

  lemma {:induction false} SectorsFail(disk: seq<Sector>, lba: nat, from: nat, spc: nat, n: nat)
    ensures ReadSectors(disk, lba, from, spc, n).None? <==> exists s :: BadIn(disk, lba, from, spc, n, s)
    decreases spc - from
  {
    if from < spc && n > 0 {
      if !CanRead(disk, lba, from) {
        assert BadIn(disk, lba, from, spc, n, from);
      } else {
        var next, m := from + 1, n - Min(n, SECTOR);
        SectorsFail(disk, lba, next, spc, m);
        forall s | BadIn(disk, lba, from, spc, n, s) ensures BadIn(disk, lba, next, spc, m, s) {}
        forall s | BadIn(disk, lba, next, spc, m, s) ensures BadIn(disk, lba, from, spc, n, s) {}
      }
    }
  }

  /** A read of a cluster that comes short of what was asked for has all of it. */
  lemma {:induction false} SectorsWhole(disk: seq<Sector>, lba: nat, s: nat, spc: nat, n: nat)
    requires ReadSectors(disk, lba, s, spc, n).Some? && |ReadSectors(disk, lba, s, spc, n).value| < n
    ensures AllSectors(disk, lba, s, spc) == ReadSectors(disk, lba, s, spc, n)
    decreases spc - s
  {
    if s < spc {
      SectorsWhole(disk, lba, s + 1, spc, n - Min(n, SECTOR));
      var b := ReadBlock(disk, Wrap(lba + s)).value;
      assert n >= SECTOR ==> b[..SECTOR] == b;
    }
  }

  /** fat32_read fails exactly when the chain comes to a sector it needs and cannot read. */
  lemma {:induction false} ReadFails(disk: seq<Sector>, vol: Vol, c: nat, n: nat)
    ensures ReadChain(disk, vol, c, n).None? <==> exists cs, s :: BadSector(disk, vol, c, n, cs, s)
  {
    if ReadChain(disk, vol, c, n).None? {
      var cs, s := FindBad(disk, vol, c, n);
      assert BadSector(disk, vol, c, n, cs, s);
    }
    forall cs, s | BadSector(disk, vol, c, n, cs, s) ensures ReadChain(disk, vol, c, n).None? {
      BadFails(disk, vol, c, n, cs, s);
    }
  }

  lemma {:induction false} FindBad(disk: seq<Sector>, vol: Vol, c: nat, n: nat) returns (cs: seq<nat>, s: nat)
    requires ReadChain(disk, vol, c, n).None?
    ensures BadSector(disk, vol, c, n, cs, s)
    decreases n
  {
    hide ReadSectors, AllSectors, BadIn, Next, ClusterLba;
    var lba := ClusterLba(vol, c);
    SectorsFail(disk, lba, 0, vol.spc, n);
    if ReadSectors(disk, lba, 0, vol.spc, n).None? {
      cs := [];
      s :| BadIn(disk, lba, 0, vol.spc, n, s);
    } else {
      var d := ReadSectors(disk, lba, 0, vol.spc, n).value;
      SectorsWhole(disk, lba, 0, vol.spc, n);
      var rest: seq<nat>;
      rest, s := FindBad(disk, vol, Next(disk, vol, c), n - |d|);
      cs := [c] + rest;
      BadLater(disk, vol, c, n, d, rest, s);
    }
  }

  lemma BadLater(disk: seq<Sector>, vol: Vol, c: nat, n: nat, d: seq<Byte>, rest: seq<nat>, s: nat)
    requires c < END_OF_CHAIN && AllSectors(disk, ClusterLba(vol, c), 0, vol.spc) == Some(d) && |d| <= n
    requires BadSector(disk, vol, Next(disk, vol, c), n - |d|, rest, s)
    ensures BadSector(disk, vol, c, n, [c] + rest, s)
  {
    hide AllSectors, BadIn, Next, ClusterLba;
    assert ([c] + rest)[1..] == rest;
  }

  lemma {:induction false} BadFails(disk: seq<Sector>, vol: Vol, c: nat, n: nat, cs: seq<nat>, s: nat)
    requires BadSector(disk, vol, c, n, cs, s)
    ensures ReadChain(disk, vol, c, n).None?
    decreases |cs|
  {
    hide ReadSectors, AllSectors, BadIn, Next, ClusterLba;
    var lba := ClusterLba(vol, c);
    BadNeeds(disk, vol, c, n, cs, s);
    if cs == [] {
      SectorsFail(disk, lba, 0, vol.spc, n);
    } else {
      SectorsPrefix(disk, lba, 0, vol.spc, n);
      BadFails(disk, vol, Next(disk, vol, c), n - |AllSectors(disk, lba, 0, vol.spc).value|, cs[1..], s);
    }
  }

  lemma BadNeeds(disk: seq<Sector>, vol: Vol, c: nat, n: nat, cs: seq<nat>, s: nat)
    requires BadSector(disk, vol, c, n, cs, s)
    ensures n > |PathBytes(disk, vol, cs).value| && vol.spc >= 1
  {}

  // ---- directories

  datatype Stop = More | EndMark | Unreadable

  const ENTRY := 32
  const PER_SECTOR := 16

  type Entry = e: seq<Byte> | |e| == ENTRY witness seq(ENTRY, _ => 0)

  /** The live entries met, in order, and why the scan stopped. */
  datatype Scan = Scan(live: seq<Entry>, stop: Stop)

  function EntryAt(b: Sector, e: nat): Entry
    requires e < PER_SECTOR
  {
    b[e * ENTRY..e * ENTRY + ENTRY]
  }

  /** Neither deleted nor part of a long file name. */
  predicate Live(entry: Entry) {
    entry[0] != 0xE5 && entry[11] != 0x0F
  }

  /** One scan followed by another, unless the first one stopped for good. */
  function Then(a: Scan, b: Scan): Scan {
    if a.stop == More then Scan(a.live + b.live, b.stop) else a
  }

  function ScanSector(b: Sector, e: nat): Scan
    requires e <= PER_SECTOR
    decreases PER_SECTOR - e
  {
    if e == PER_SECTOR then Scan([], More)
    else if EntryAt(b, e)[0] == 0 then Scan([], EndMark)
    else Then(Scan(if Live(EntryAt(b, e)) then [EntryAt(b, e)] else [], More), ScanSector(b, e + 1))
  }

  function ScanCluster(disk: seq<Sector>, lba: nat, s: nat, spc: nat): Scan
    decreases spc - s
  {
    if s >= spc then Scan([], More)
    else
      match ReadBlock(disk, Wrap(lba + s))
      case None => Scan([], Unreadable)
      case Some(b) => Then(ScanSector(b, 0), ScanCluster(disk, lba, s + 1, spc))
  }

  /** The directory held by a chain of clusters. */
  function ScanDir(disk: seq<Sector>, vol: Vol, cs: seq<nat>): Scan {
    if cs == [] then Scan([], More)
    else Then(ScanCluster(disk, ClusterLba(vol, cs[0]), 0, vol.spc), ScanDir(disk, vol, cs[1..]))
  }

  // ---- a directory as a sequence of bytes

  /** All entries that the bytes hold, 32 bytes each. */
  function Entries(bytes: seq<Byte>): (es: seq<Entry>)
    ensures |es| == |bytes| / ENTRY && forall i | 0 <= i < |es| :: es[i] == bytes[i * ENTRY..i * ENTRY + ENTRY]
  {
    seq(|bytes| / ENTRY, i requires 0 <= i < |bytes| / ENTRY => bytes[i * ENTRY..i * ENTRY + ENTRY])
  }

  /** The first entry that marks the end, or the number of entries. */
  function FirstEnd(es: seq<Entry>): (k: nat)
    ensures k <= |es| && (forall i | 0 <= i < k :: es[i][0] != 0) && (k < |es| ==> es[k][0] == 0)
  {
    if es == [] || es[0][0] == 0 then 0 else 1 + FirstEnd(es[1..])
  }

  /** The live entries, in order. */
  function LiveOf(es: seq<Entry>): seq<Entry> {
    if es == [] then [] else (if Live(es[0]) then [es[0]] else []) + LiveOf(es[1..])
  }

  /** What a scan of these entries ought to give, where `whole` says that nothing after them was unreadable. */
  function Scanned(es: seq<Entry>, whole: bool): Scan {
    var k := FirstEnd(es);
    Scan(LiveOf(es[..k]), if k < |es| then EndMark else if whole then More else Unreadable)
  }

  /** A whole number of sectors. */
  predicate Whole(b: seq<Byte>) { |b| % SECTOR == 0 }

  lemma WholeAppend(a: seq<Byte>, b: seq<Byte>)
    requires Whole(a) && Whole(b)
    ensures Whole(a + b)
  {}

  /** The bytes before the first unreadable sector, and whether there is none. */
  function GoodSectors(disk: seq<Sector>, lba: nat, s: nat, spc: nat): (r: (seq<Byte>, bool))
    ensures Whole(r.0)
    decreases spc - s
  {
    if s >= spc then ([], true)
    else
      match ReadBlock(disk, Wrap(lba + s))
      case None => ([], false)
      case Some(b) =>
        var (rest, whole) := GoodSectors(disk, lba, s + 1, spc);
        WholeAppend(b, rest);
        (b + rest, whole)
  }

  function GoodBytes(disk: seq<Sector>, vol: Vol, cs: seq<nat>): (r: (seq<Byte>, bool))
    ensures Whole(r.0)
  {
    if cs == [] then ([], true)
    else
      var (d, whole) := GoodSectors(disk, ClusterLba(vol, cs[0]), 0, vol.spc);
      if !whole then (d, false) else
      var (rest, ok) := GoodBytes(disk, vol, cs[1..]);
      WholeAppend(d, rest);
      (d + rest, ok)
  }

  lemma {:induction false} GoodSectorsAre(disk: seq<Sector>, lba: nat, s: nat, spc: nat)
    ensures var (d, whole) := GoodSectors(disk, lba, s, spc);
      AllSectors(disk, lba, s, spc) == if whole then Some(d) else None
    decreases spc - s
  {
    if s < spc {
      GoodSectorsAre(disk, lba, s + 1, spc);
    }
  }

  /** When every sector can be read they are the bytes of the chain. */
  lemma {:induction false} GoodBytesAre(disk: seq<Sector>, vol: Vol, cs: seq<nat>)
    ensures var (d, whole) := GoodBytes(disk, vol, cs);
      PathBytes(disk, vol, cs) == if whole then Some(d) else None
  {
    if cs != [] {
      GoodSectorsAre(disk, ClusterLba(vol, cs[0]), 0, vol.spc);
      GoodBytesAre(disk, vol, cs[1..]);
    }
  }

  lemma SliceLeft(a: seq<Byte>, b: seq<Byte>, i: nat, j: nat)
    requires i <= j <= |a|
    ensures (a + b)[i..j] == a[i..j]
  {}

  lemma SliceRight(a: seq<Byte>, b: seq<Byte>, i: nat, j: nat)
    requires i <= j <= |b|
    ensures (a + b)[|a| + i..|a| + j] == b[i..j]
  {}

  lemma CountEntries(x: nat, y: nat)
    requires x % SECTOR == 0
    ensures x == x / ENTRY * ENTRY && (x + y) / ENTRY == x / ENTRY + y / ENTRY
  {
    var k: nat, q: nat, r: nat := x / SECTOR, y / ENTRY, y % ENTRY;
    DivModUnique(x, ENTRY, 16 * k, 0);
    DivModUnique(x + y, ENTRY, 16 * k + q, r);
  }

  lemma EntriesAppend(a: seq<Byte>, b: seq<Byte>)
    requires Whole(a)
    ensures Entries(a + b) == Entries(a) + Entries(b)
  {
    var n: nat, all := |a| / ENTRY, Entries(a + b);
    CountEntries(|a|, |b|);
    assert |a + b| == |a| + |b|;
    hide Entries, Whole;
    forall i | 0 <= i < n ensures all[i] == Entries(a)[i] {
      SliceLeft(a, b, i * ENTRY, i * ENTRY + ENTRY);
    }
    forall i | 0 <= i < |Entries(b)| ensures all[n + i] == Entries(b)[i] {
      SliceRight(a, b, i * ENTRY, i * ENTRY + ENTRY);
    }
  }

  lemma ScannedNothing(whole: bool)
    ensures Entries([]) == [] && Scanned([], whole) == Scan([], if whole then More else Unreadable)
  {}

  lemma ScannedOne(e: Entry, es: seq<Entry>, whole: bool)
    ensures Scanned([e] + es, whole) ==
      if e[0] == 0 then Scan([], EndMark) else Then(Scan(if Live(e) then [e] else [], More), Scanned(es, whole))
  {
    var all := [e] + es;
    assert all[1..] == es;
    if e[0] != 0 {
      var k := FirstEnd(es);
      assert all[..k + 1][1..] == es[..k];
    }
  }

  /** Scanning piece by piece is scanning the whole. */
  lemma {:induction false} ScannedAppend(a: seq<Entry>, b: seq<Entry>, whole: bool)
    ensures Scanned(a + b, whole) == Then(Scanned(a, true), Scanned(b, whole))
    ensures Scanned(a, false) == Then(Scanned(a, true), Scan([], Unreadable))
  {
    hide Scanned;
    ScannedNothing(true);
    ScannedNothing(false);
    if a == [] {
      assert a + b == b;
    } else {
      var x, r := a[0], a[1..];
      assert a == [x] + r && a + b == [x] + (r + b);
      ScannedOne(x, r, true);
      ScannedOne(x, r, false);
      ScannedOne(x, r + b, whole);
      ScannedAppend(r, b, whole);
    }
  }

  lemma {:induction false} SectorMeans(b: Sector, e: nat)
    requires e <= PER_SECTOR
    ensures ScanSector(b, e) == Scanned(Entries(b)[e..], true)
    decreases PER_SECTOR - e
  {
    hide Scanned;
    if e == PER_SECTOR {
      ScannedNothing(true);
      assert Entries(b)[e..] == [];
    } else {
      ScannedOne(EntryAt(b, e), Entries(b)[e + 1..], true);
      assert Entries(b)[e..] == [EntryAt(b, e)] + Entries(b)[e + 1..];
      SectorMeans(b, e + 1);
    }
  }

  lemma {:induction false} ClusterMeans(disk: seq<Sector>, lba: nat, s: nat, spc: nat)
    ensures var (d, whole) := GoodSectors(disk, lba, s, spc);
      ScanCluster(disk, lba, s, spc) == Scanned(Entries(d), whole)
    decreases spc - s
  {
    hide Scanned, Entries, ScanSector;
    ScannedNothing(true);
    ScannedNothing(false);
    if s < spc && ReadBlock(disk, Wrap(lba + s)).Some? {
      var b := disk[Wrap(lba + s)];
      var (d, whole) := GoodSectors(disk, lba, s + 1, spc);
      SectorMeans(b, 0);
      ClusterMeans(disk, lba, s + 1, spc);
      EntriesAppend(b, d);
      ScannedAppend(Entries(b), Entries(d), whole);
      assert Entries(b)[0..] == Entries(b);
    }
  }

  /**
   * Visiting a directory gives the live ones among the entries that stand before the first entry whose first byte
   * is 0, in order, over all the bytes of the chain that come before an unreadable sector; and it stops at the
   * end mark iff there is such an entry.
   */
  lemma {:induction false} DirMeans(disk: seq<Sector>, vol: Vol, cs: seq<nat>)
    ensures var (d, whole) := GoodBytes(disk, vol, cs);
      && PathBytes(disk, vol, cs) == (if whole then Some(d) else None)
      && ScanDir(disk, vol, cs) == Scanned(Entries(d), whole)
  {
    hide Scanned, Entries, ScanCluster, GoodSectors, AllSectors;
    ScannedNothing(true);
    GoodBytesAre(disk, vol, cs);
    if cs != [] {
      var lba := ClusterLba(vol, cs[0]);
      var (d, whole) := GoodSectors(disk, lba, 0, vol.spc);
      ClusterMeans(disk, lba, 0, vol.spc);
      DirMeans(disk, vol, cs[1..]);
      var (rest, ok) := GoodBytes(disk, vol, cs[1..]);
      EntriesAppend(d, rest);
      ScannedAppend(Entries(d), Entries(rest), ok);
    }
  }

  predicate IsDirectory(entry: Entry) { Bit(entry[11], 4) }

  predicate Matches(entry: Entry, target: seq<Byte>, dirsOnly: bool) {
    |target| == 11 && entry[..11] == target && (dirsOnly ==> IsDirectory(entry))
  }

  function FirstMatch(live: seq<Entry>, target: seq<Byte>, dirsOnly: bool): (r: Option<Entry>)
    ensures r.Some? ==> Matches(r.value, target, dirsOnly)
  {
    if live == [] then None
    else if Matches(live[0], target, dirsOnly) then Some(live[0])
    else FirstMatch(live[1..], target, dirsOnly)
  }

  /** The first match comes before every other one; without a match there is none. */
  lemma {:induction false} FirstMatchIs(live: seq<Entry>, target: seq<Byte>, dirsOnly: bool)
    ensures match FirstMatch(live, target, dirsOnly)
      case None => forall i | 0 <= i < |live| :: !Matches(live[i], target, dirsOnly)
      case Some(e) => exists k ::
        0 <= k < |live| && live[k] == e && forall i | 0 <= i < k :: !Matches(live[i], target, dirsOnly)
  {
    if live != [] && !Matches(live[0], target, dirsOnly) {
      FirstMatchIs(live[1..], target, dirsOnly);
      match FirstMatch(live[1..], target, dirsOnly) {
        case None =>
        case Some(e) =>
          var k :| 0 <= k < |live[1..]| && live[1..][k] == e && forall i | 0 <= i < k ::
            !Matches(live[1..][i], target, dirsOnly);
          assert live[k + 1] == e;
          assert forall i | 0 < i < k + 1 :: live[i] == live[1..][i - 1];
      }
    } else if live != [] {
      assert live[0] == FirstMatch(live, target, dirsOnly).value;
    }
  }

  lemma {:induction false} FirstMatchAppend(a: seq<Entry>, b: seq<Entry>, target: seq<Byte>, dirsOnly: bool)
    ensures FirstMatch(a + b, target, dirsOnly) ==
      if FirstMatch(a, target, dirsOnly).Some? then FirstMatch(a, target, dirsOnly) else FirstMatch(b, target, dirsOnly)
  {
    if a == [] {
      assert a + b == b;
    } else {
      assert (a + b)[1..] == a[1..] + b;
      FirstMatchAppend(a[1..], b, target, dirsOnly);
    }
  }

  /** The first cluster an entry names. */
  function FirstCluster(entry: Entry): nat {
    Le16(entry, 20) * 0x1_0000 + Le16(entry, 26)
  }

  function FileSize(entry: Entry): nat {
    Le32(entry, 28)
  }

  /**
   * What the listing shows can be opened: typing the shown name of an entry finds an entry of that name iff the name
   * is blank-padded, in upper case and recoverable; and then the first of that name.
   */
  lemma ListedIsFound(live: seq<Entry>, k: nat)
    requires k < |live|
    ensures var name := live[k][..11]; var found := FirstMatch(live, Normalise(CString(Format(name))), false);
      && (found.Some? && found.value[..11] == name <==> Proper(name) && Recoverable(name))
      && (Proper(name) && Recoverable(name) && (forall i | 0 <= i < k :: !Matches(live[i], name, false)) ==>
            found == Some(live[k]))
  {
    var name := live[k][..11];
    RoundTripExact(name);
    FirstMatchIs(live, name, false);
    assert Matches(live[k], name, false);
    var r := FirstMatch(live, name, false);
    if r.Some? {
      var j :| 0 <= j < |live| && live[j] == r.value && forall i | 0 <= i < j :: !Matches(live[i], name, false);
    }
  }
}
