/** Where things lie on a FAT32 volume: the bytes of a chain, the entries of the FAT, the fields of a directory
    entry. */
module Fat32Layout {
  import opened Basics
  import opened Bits
  import opened Fat32

  // ---- clusters

  /** Sector `s` of cluster `c`, as all of fat32.c computes it. */
  function SectorAt(vol: Vol, c: nat, s: nat): nat { Wrap(ClusterLba(vol, c) + s) }

  /** Clusters 2 to `c` end at or below sector 2^32. */
  predicate Fits(vol: Vol, c: nat) { c >= 2 && vol.dataStart + (c - 1) * vol.spc <= U32 }

  lemma FitsBelow(vol: Vol, c: nat, d: nat)
    requires Fits(vol, d) && 2 <= c <= d
    ensures Fits(vol, c)
  {
    MulMono(vol.spc, c - 1, d - 1);
  }

  lemma SectorPlace(vol: Vol, c: nat, s: nat)
    requires Fits(vol, c) && s < vol.spc
    ensures (c - 2) * vol.spc >= 0 && SectorAt(vol, c, s) == vol.dataStart + (c - 2) * vol.spc + s
  {
    assert (c - 1) * vol.spc == (c - 2) * vol.spc + vol.spc;
    MulMono(vol.spc, 0, c - 2);
    MulMono(c - 2, 1, vol.spc);
  }

  /** The sectors of the clusters from 2 on are the sectors from the start of the data area on, one after the other,
      each of them once. */
  lemma ClustersTile(vol: Vol, c: nat, s: nat, d: nat, r: nat)
    requires Fits(vol, c) && Fits(vol, d) && s < vol.spc && r < vol.spc
    ensures SectorAt(vol, 2, 0) == vol.dataStart <= SectorAt(vol, c, s)
    ensures SectorAt(vol, c, s) == SectorAt(vol, d, r) <==> c == d && s == r
    ensures s + 1 < vol.spc ==> SectorAt(vol, c, s + 1) == SectorAt(vol, c, s) + 1
    ensures Fits(vol, c + 1) ==> SectorAt(vol, c + 1, 0) == SectorAt(vol, c, vol.spc - 1) + 1
    ensures c == 2 + (SectorAt(vol, c, s) - vol.dataStart) / vol.spc
    ensures s == (SectorAt(vol, c, s) - vol.dataStart) % vol.spc
  {
    FitsBelow(vol, 2, c);
    SectorPlace(vol, 2, 0);
    Placed(vol, c, s);
    Placed(vol, d, r);
    SectorPlace(vol, c, vol.spc - 1);
    if s + 1 < vol.spc {
      SectorPlace(vol, c, s + 1);
    }
    if Fits(vol, c + 1) {
      SectorPlace(vol, c + 1, 0);
      assert (c + 1 - 2) * vol.spc == (c - 2) * vol.spc + vol.spc;
    }
  }

  lemma Placed(vol: Vol, c: nat, s: nat)
    requires Fits(vol, c) && s < vol.spc
    ensures SectorAt(vol, c, s) >= vol.dataStart && c == 2 + (SectorAt(vol, c, s) - vol.dataStart) / vol.spc
    ensures s == (SectorAt(vol, c, s) - vol.dataStart) % vol.spc
  {
    SectorPlace(vol, c, s);
    MulMono(vol.spc, 0, c - 2);
    DivModUnique((c - 2) * vol.spc + s, vol.spc, c - 2, s);
  }

  // ---- the bytes of a chain

  /** Sector number `k` of these bytes. */
  predicate HoldsAt(d: seq<Byte>, k: nat, b: Sector) {
    k * SECTOR + SECTOR <= |d| && d[k * SECTOR..k * SECTOR + SECTOR] == b
  }

  lemma HoldsLater(a: seq<Byte>, n: nat, d: seq<Byte>, k: nat, b: Sector)
    requires |a| == n * SECTOR && HoldsAt(d, k, b)
    ensures HoldsAt(a + d, n + k, b)
  {
    assert (n + k) * SECTOR == |a| + k * SECTOR;
    SliceRight(a, d, k * SECTOR, k * SECTOR + SECTOR);
  }

  lemma HoldsHere(a: seq<Byte>, d: seq<Byte>, k: nat, b: Sector)
    requires HoldsAt(a, k, b)
    ensures HoldsAt(a + d, k, b)
  {
    SliceLeft(a, d, k * SECTOR, k * SECTOR + SECTOR);
  }

  lemma {:induction false} SectorsAre(disk: seq<Sector>, lba: nat, s: nat, spc: nat, i: nat)
    requires s <= spc && AllSectors(disk, lba, s, spc).Some?
    ensures |AllSectors(disk, lba, s, spc).value| == (spc - s) * SECTOR
    ensures s <= i < spc ==>
      Wrap(lba + i) < |disk| && HoldsAt(AllSectors(disk, lba, s, spc).value, i - s, disk[Wrap(lba + i)])
    decreases spc - s
  {
    if s < spc {
      var b: seq<Byte>, r: seq<Byte> := disk[Wrap(lba + s)], AllSectors(disk, lba, s + 1, spc).value;
      SectorsAre(disk, lba, s + 1, spc, i);
      if s < i < spc {
        HoldsLater(b, 1, r, i - s - 1, disk[Wrap(lba + i)]);
      } else if i == s {
        assert (b + r)[..SECTOR] == b;
      }
    }
  }

  lemma Product(j: nat, spc: nat)
    requires j > 0
    ensures j * spc == (j - 1) * spc + spc && (j - 1) * spc >= 0
  {
    MulMono(spc, 0, j - 1);
  }

  function Place(j: nat, spc: nat, s: nat): nat { j * spc + s }

  lemma PlaceStep(j: nat, spc: nat, s: nat)
    ensures Place(0, spc, s) == s && (j > 0 ==> Place(j, spc, s) == spc + Place(j - 1, spc, s))
  {
    if j > 0 {
      Product(j, spc);
    }
  }

  /**
   * The bytes of a chain are the sectors of its clusters in order: sector `s` of cluster number `j` of the chain
   * stands at place `j * spc + s`, and is sector `dataStart + (cluster - 2) * spc + s` of the disk.
   */
  lemma ChainBytes(disk: seq<Sector>, vol: Vol, cs: seq<nat>, j: nat, s: nat)
    requires PathBytes(disk, vol, cs).Some? && j < |cs| && s < vol.spc && Fits(vol, cs[j])
    ensures |PathBytes(disk, vol, cs).value| == |cs| * vol.spc * SECTOR
    ensures var lba := vol.dataStart + (cs[j] - 2) * vol.spc + s;
      0 <= lba < |disk| && HoldsAt(PathBytes(disk, vol, cs).value, Place(j, vol.spc, s), disk[lba])
  {
    ChainLength(disk, vol, cs);
    SectorPlace(vol, cs[j], s);
    ChainHolds(disk, vol, cs, j, s);
  }

  lemma {:induction false} ChainHolds(disk: seq<Sector>, vol: Vol, cs: seq<nat>, j: nat, s: nat)
    requires PathBytes(disk, vol, cs).Some? && j < |cs| && s < vol.spc
    ensures SectorAt(vol, cs[j], s) < |disk|
    ensures HoldsAt(PathBytes(disk, vol, cs).value, Place(j, vol.spc, s), disk[SectorAt(vol, cs[j], s)])
    decreases j
  {
    hide AllSectors, ClusterLba, HoldsAt, PathBytes, Wrap, Place;
    PathSplit(disk, vol, cs);
    var d, r := AllSectors(disk, ClusterLba(vol, cs[0]), 0, vol.spc).value, PathBytes(disk, vol, cs[1..]).value;
    SectorsAre(disk, ClusterLba(vol, cs[0]), 0, vol.spc, s);
    PlaceStep(j, vol.spc, s);
    if j == 0 {
      HoldsHere(d, r, s, disk[SectorAt(vol, cs[j], s)]);
    } else {
      ChainHolds(disk, vol, cs[1..], j - 1, s);
      HoldsLater(d, vol.spc, r, Place(j - 1, vol.spc, s), disk[SectorAt(vol, cs[j], s)]);
    }
  }

  lemma PathSplit(disk: seq<Sector>, vol: Vol, cs: seq<nat>)
    requires PathBytes(disk, vol, cs).Some? && cs != []
    ensures AllSectors(disk, ClusterLba(vol, cs[0]), 0, vol.spc).Some? && PathBytes(disk, vol, cs[1..]).Some?
    ensures PathBytes(disk, vol, cs).value ==
      AllSectors(disk, ClusterLba(vol, cs[0]), 0, vol.spc).value + PathBytes(disk, vol, cs[1..]).value
  {
    hide AllSectors, ClusterLba;
  }

  lemma {:induction false} ChainLength(disk: seq<Sector>, vol: Vol, cs: seq<nat>)
    requires PathBytes(disk, vol, cs).Some?
    ensures |PathBytes(disk, vol, cs).value| == |cs| * vol.spc * SECTOR
  {
    if cs != [] {
      SectorsAre(disk, ClusterLba(vol, cs[0]), 0, vol.spc, vol.spc);
      ChainLength(disk, vol, cs[1..]);
      Product(|cs|, vol.spc);
    }
  }

  // ---- the FAT

  /** Byte `i` of a number. */
  function ByteOf(n: nat, i: nat): nat { if i == 0 then n % 0x100 else ByteOf(n / 0x100, i - 1) }

  /** The number with these bytes, lowest first. */
  function Number(a: nat, b: nat, c: nat, d: nat): nat { a + 0x100 * b + 0x1_0000 * c + 0x100_0000 * d }

  lemma LowByte(n: nat, a: Byte, rest: nat)
    requires n == a + 0x100 * rest
    ensures ByteOf(n, 0) == a && forall i: nat {:trigger ByteOf(rest, i)} :: ByteOf(n, i + 1) == ByteOf(rest, i)
  {
    assert n % 0x100 == a && n / 0x100 == rest;
  }

  lemma FourBytes(a: Byte, b: Byte, c: Byte, d: Byte)
    ensures var n := Number(a, b, c, d);
      ByteOf(n, 0) == a && ByteOf(n, 1) == b && ByteOf(n, 2) == c && ByteOf(n, 3) == d && n < U32
  {
    var n := Number(a, b, c, d);
    hide ByteOf;
    LowByte(n, a, Number(b, c, d, 0));
    LowByte(Number(b, c, d, 0), b, Number(c, d, 0, 0));
    LowByte(Number(c, d, 0, 0), c, d);
    LowByte(d, d, 0);
  }

  /**
   * The entry of a cluster is four bytes, lowest first, four to the cluster from the start of the FAT on; the upper
   * half of the last byte does not count. A FAT sector that cannot be read leads to cluster 0.
   */
  lemma NextIs(disk: seq<Sector>, vol: Vol, c: nat)
    requires c < END_OF_CHAIN && vol.fatStart < U32 - 0x20_0000
    ensures vol.fatStart + c / 128 >= |disk| ==> Next(disk, vol, c) == 0
    ensures vol.fatStart + c / 128 < |disk| ==>
      var b, i, n := disk[vol.fatStart + c / 128], c % 128 * 4, Next(disk, vol, c);
      && ByteOf(n, 0) == b[i] && ByteOf(n, 1) == b[i + 1] && ByteOf(n, 2) == b[i + 2]
      && ByteOf(n, 3) == b[i + 3] % 0x10
  {
    FatLbaIs(vol, c);
    if vol.fatStart + c / 128 < |disk| {
      var b, i := disk[vol.fatStart + c / 128], c % 128 * 4;
      LowNibble(b, i);
      FourBytes(b[i], b[i + 1], b[i + 2], b[i + 3] % 0x10);
    }
  }

  lemma LowNibble(b: Sector, i: nat)
    requires i + 4 <= SECTOR
    ensures Le32(b, i) % 0x1000_0000 == Number(b[i], b[i + 1], b[i + 2], b[i + 3] % 0x10)
  {
    var p0: nat, p1: nat, p2: nat, p3: nat := b[i], b[i + 1], b[i + 2], b[i + 3];
    var low: nat := p0 + 0x100 * p1 + 0x1_0000 * p2;
    assert Le32(b, i) == low + 0x100_0000 * p3;
    DivModUnique(Le32(b, i), 0x1000_0000, p3 / 0x10, low + 0x100_0000 * (p3 % 0x10));
  }

  lemma Powers()
    ensures Pow2(3) == 8 && Pow2(8) == 0x100 && Pow2(28) == 0x1000_0000
  {
    assert Pow2(2) == 4;
    Pow2Add(2, 2);
    Pow2Add(4, 3);
    Pow2Add(7, 7);
    Pow2Add(14, 14);
  }

  predicate AllSet(c: nat, from: nat, to: nat) { forall i | from <= i < to :: Bit(c, i) }

  /** A chain ends at the numbers whose bits 3 to 27 are all set. */
  lemma EndMarks(c: nat)
    requires c < 0x1000_0000
    ensures c >= END_OF_CHAIN <==> AllSet(c, 3, 28)
  {
    Powers();
    TopBits(c, 3, 28);
  }

  /** The bits from `from` to the top are all set iff the number is that large. */
  lemma {:induction false} TopBits(c: nat, from: nat, n: nat)
    requires from <= n && c < Pow2(n)
    ensures c + Pow2(from) >= Pow2(n) <==> AllSet(c, from, n)
    decreases n
  {
    if n == from {
      assert AllSet(c, from, n);
    } else {
      HalfSet(c, from, n);
      TopBits(c / 2, if from > 0 then from - 1 else 0, n - 1);
    }
  }

  lemma HalfSet(c: nat, from: nat, to: nat)
    requires from < to
    ensures AllSet(c, from, to) <==>
      (from == 0 ==> c % 2 == 1) && AllSet(c / 2, if from > 0 then from - 1 else 0, to - 1)
  {
    if AllSet(c, from, to) {
      assert Bit(c, from);
      forall i: nat | from <= i + 1 < to ensures Bit(c / 2, i) {
        assert Bit(c, i + 1);
      }
    } else {
      var i: nat :| from <= i < to && !Bit(c, i);
      assert i > 0 ==> !Bit(c / 2, i - 1);
    }
  }

  // ---- directory entries

  /** The first cluster has its low half in bytes 26 and 27 and its high half in bytes 20 and 21, the size is in
      bytes 28 to 31, each with the lowest byte first. */
  lemma EntryNumbers(e: Entry)
    ensures FirstCluster(e) < U32 && FileSize(e) < U32
    ensures ByteOf(FirstCluster(e), 0) == e[26] && ByteOf(FirstCluster(e), 1) == e[27]
    ensures ByteOf(FirstCluster(e), 2) == e[20] && ByteOf(FirstCluster(e), 3) == e[21]
    ensures forall i | 0 <= i < 4 :: ByteOf(FileSize(e), i) == e[28 + i]
  {
    FourBytes(e[26], e[27], e[20], e[21]);
    FourBytes(e[28], e[29], e[30], e[31]);
    assert FirstCluster(e) == Number(e[26], e[27], e[20], e[21]);
    assert FileSize(e) == Number(e[28], e[29], e[30], e[31]);
  }

  /** The live entry with that name, and with `dirsOnly` a directory. */
  predicate Wanted(e: Entry, target: seq<Byte>, dirsOnly: bool) {
    |target| == 11 && e[..11] == target && (dirsOnly ==> Bit(e[11], DIRECTORY))
  }

  /** What a search finds: the first such entry, none iff there is none. */
  lemma FoundFirst(live: seq<Entry>, target: seq<Byte>, dirsOnly: bool)
    ensures match FirstMatch(live, target, dirsOnly)
      case None => forall i | 0 <= i < |live| :: !Wanted(live[i], target, dirsOnly)
      case Some(e) => Wanted(e, target, dirsOnly) && exists k ::
        0 <= k < |live| && live[k] == e && forall i | 0 <= i < k :: !Wanted(live[i], target, dirsOnly)
  {
    FirstMatchIs(live, target, dirsOnly);
    assert forall i | 0 <= i < |live| :: Wanted(live[i], target, dirsOnly) <==> Matches(live[i], target, dirsOnly);
  }

  const READ_ONLY := 0
  const HIDDEN := 1
  const SYSTEM := 2
  const VOLUME := 3
  const DIRECTORY := 4

  /** The attributes that mark a piece of a long name. */
  predicate LongName(attr: Byte) {
    forall i | 0 <= i < 8 :: Bit(attr, i) <==> i in {READ_ONLY, HIDDEN, SYSTEM, VOLUME}
  }

  /** An entry is passed over iff it is deleted or its attributes are exactly the four that mark a long name. */
  lemma EntryKinds(e: Entry)
    ensures !Live(e) <==> e[0] == 0xE5 || LongName(e[11])
    ensures IsDirectory(e) <==> e[11] / 0x10 % 2 == 1
  {
    var attr := e[11];
    FourthBit(attr);
    if LongName(attr) {
      LongNameBits();
      Powers();
      SameBits(attr, 0x0F, 8);
    } else if attr == 0x0F {
      LongNameBits();
    }
  }

  lemma LongNameBits()
    ensures LongName(0x0F)
  {
    assert Bit(0x0F, 0) && Bit(0x0F, 1) && Bit(0x0F, 2) && Bit(0x0F, 3);
    forall i | 4 <= i < 8 ensures !Bit(0x0F, i) {
      assert Bit(0x0F, i) == Bit(7, i - 1) == Bit(3, i - 2) == Bit(1, i - 3) == Bit(0, i - 4);
      BitOfZero(i - 4);
    }
  }

  lemma FourthBit(n: nat)
    ensures Bit(n, 4) <==> n / 0x10 % 2 == 1
  {
    assert Bit(n, 4) == Bit(n / 2, 3) == Bit(n / 2 / 2, 2) == Bit(n / 2 / 2 / 2, 1) == Bit(n / 2 / 2 / 2 / 2, 0);
    assert n / 2 / 2 / 2 / 2 == n / 0x10;
  }

  /** A number is known by its bits. */
  lemma {:induction false} SameBits(a: nat, b: nat, n: nat)
    requires a < Pow2(n) && b < Pow2(n) && forall i | 0 <= i < n :: Bit(a, i) == Bit(b, i)
    ensures a == b
  {
    if n > 0 {
      assert Bit(a, 0) == Bit(b, 0);
      forall i | 0 <= i < n - 1 ensures Bit(a / 2, i) == Bit(b / 2, i) {
        assert Bit(a, i + 1) == Bit(b, i + 1);
      }
      SameBits(a / 2, b / 2, n - 1);
    }
  }
}
