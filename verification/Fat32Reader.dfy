/** The FAT32 reader as it runs: a one-sector FAT cache over the disk, and the loops over clusters, sectors and
    entries. */
module Fat32Reader {
  import opened Basics
  import opened Bits
  import opened ShortNames
  import opened Strings
  import opened Fat32
  import opened DigitStrings
  import opened PrintfFormat

  const SLASH := 0x2F

  lemma ByteShifts()
    ensures Pow2(8) == 0x100 && Pow2(16) == 0x1_0000 && Pow2(24) == 0x100_0000
  {
    Pow2Add(8, 8);
    Pow2Add(16, 8);
  }

  /** le16: the second byte shifted up by 8, or-ed with the first. */
  method ReadLe16(b: seq<Byte>, at: nat) returns (r: nat)
    requires at + 2 <= |b|
    ensures r == Le16(b, at)
  {
    var p0: nat, p1: nat := b[at], b[at + 1];
    ByteShifts();
    OrShifted(p0, p1, 8);
    r := Or(p0, p1 * Pow2(8));
  }

  /** le32: four bytes shifted into place and or-ed. */
  method ReadLe32(b: seq<Byte>, at: nat) returns (r: nat)
    requires at + 4 <= |b|
    ensures r == Le32(b, at)
  {
    var p0: nat, p1: nat, p2: nat, p3: nat := b[at], b[at + 1], b[at + 2], b[at + 3];
    ByteShifts();
    OrShifted(p0, p1, 8);
    OrShifted(p0 + p1 * 0x100, p2, 16);
    OrShifted(p0 + p1 * 0x100 + p2 * 0x1_0000, p3, 24);
    r := Or(Or(Or(p0, p1 * Pow2(8)), p2 * Pow2(16)), p3 * Pow2(24));
  }

  /** The FAT cache: which sector it holds, and its bytes. */
  datatype Cache = Cache(lba: nat, bytes: Sector)

  /** As the kernel starts: static memory is zero. */
  function Empty(): (k: Cache)
    ensures k.lba == NO_LBA && forall i | 0 <= i < SECTOR :: k.bytes[i] == 0
  {
    Cache(NO_LBA, seq(SECTOR, _ => 0))
  }

  /** The cache holds the sector it names. */
  predicate Loaded(disk: seq<Sector>, k: Cache) { ReadBlock(disk, k.lba) == Some(k.bytes) }

  /** It does, or is as it started. */
  predicate CacheOk(disk: seq<Sector>, k: Cache) { k == Empty() || Loaded(disk, k) }

  /** fat_cache_read: a failed read leaves the buffer as it was. */
  function CacheRead(disk: seq<Sector>, k: Cache, lba: nat): (Cache, bool) {
    if lba == k.lba then (k, true)
    else match ReadBlock(disk, lba) case None => (k, false) case Some(b) => (Cache(lba, b), true)
  }

  /** The cache delivers the disk's sector, or fails, as reading the disk would; but the empty cache, asked for the
      sector number that marks it empty, delivers its zeros without a disk. */
  lemma CacheTransparent(disk: seq<Sector>, k: Cache, lba: nat)
    requires CacheOk(disk, k)
    ensures var (k', ok) := CacheRead(disk, k, lba);
      && CacheOk(disk, k')
      && (k != Empty() || lba != NO_LBA ==>
            (ok <==> ReadBlock(disk, lba).Some?) && (ok ==> Some(k'.bytes) == ReadBlock(disk, lba)))
      && (k == Empty() && lba == NO_LBA ==> ok && k' == Empty())
  {}

  /** fat_next_cluster */
  function CachedNext(disk: seq<Sector>, vol: Vol, k: Cache, c: nat): (nat, Cache) {
    var (k', ok) := CacheRead(disk, k, FatLba(vol, c));
    (if ok then Le32(k'.bytes, FatIndex(c)) % 0x1000_0000 else 0, k')
  }

  /** No FAT lookup is for the last sector number, or no disk has a sector of that number. */
  predicate Harmless(vol: Vol, sectors: nat) { vol.fatStart < U32 - 0x20_0000 || sectors < U32 }

  /** A sector that cannot be read and a sector of zeros both lead to cluster 0. */
  lemma CachedNextIs(disk: seq<Sector>, vol: Vol, k: Cache, c: nat)
    requires CacheOk(disk, k) && c < END_OF_CHAIN
    ensures CacheOk(disk, CachedNext(disk, vol, k, c).1)
    ensures Loaded(disk, k) ==> Loaded(disk, CachedNext(disk, vol, k, c).1)
    ensures vol.fatStart < U32 && (Harmless(vol, |disk|) || Loaded(disk, k)) ==>
      CachedNext(disk, vol, k, c).0 == Next(disk, vol, c)
  {
    CacheTransparent(disk, k, FatLba(vol, c));
    if vol.fatStart < U32 - 0x20_0000 {
      FatLbaIs(vol, c);
    }
    assert Le32(Empty().bytes, FatIndex(c)) == 0;
  }

  /** On every disk of that many sectors, whatever the cache holds, every lookup follows the FAT. */
  ghost predicate FollowsFat(vol: Vol, sectors: nat) {
    forall disk: seq<Sector>, k: Cache, c: nat | |disk| == sectors && CacheOk(disk, k) && c < END_OF_CHAIN ::
      CachedNext(disk, vol, k, c).0 == Next(disk, vol, c)
  }

  /** The cache changes no result iff no lookup can be for sector 2^32 - 1 or the disk has no such sector. */
  lemma CacheExact(vol: Vol, sectors: nat)
    requires vol.fatStart < U32
    ensures FollowsFat(vol, sectors) <==> Harmless(vol, sectors)
  {
    if Harmless(vol, sectors) {
      forall disk: seq<Sector>, k: Cache, c: nat | |disk| == sectors && CacheOk(disk, k) && c < END_OF_CHAIN
        ensures CachedNext(disk, vol, k, c).0 == Next(disk, vol, c)
      {
        CachedNextIs(disk, vol, k, c);
      }
    } else {
      CacheMisleads(vol, sectors);
    }
  }

  /** The disk of ones: its FAT says 0x1010101 everywhere, the empty cache says 0. */
  lemma CacheMisleads(vol: Vol, sectors: nat)
    requires vol.fatStart < U32 && !Harmless(vol, sectors)
    ensures !FollowsFat(vol, sectors)
  {
    FatLbaExact(vol);
    var c: nat :| c < END_OF_CHAIN && FatLba(vol, c) == NO_LBA;
    var ones: Sector := seq(SECTOR, _ => 1);
    var disk: seq<Sector> := seq(sectors, _ => ones);
    assert disk[NO_LBA] == ones && Le32(ones, FatIndex(c)) == 0x101_0101;
    assert Le32(Empty().bytes, FatIndex(c)) == 0;
    assert CacheOk(disk, Empty()) && CachedNext(disk, vol, Empty(), c).0 == 0;
  }

  // ---- the listing as it is printed

  const CRLF: seq<Byte> := [0x0D, 0x0A]
  const DIR_MARK: seq<Byte> := [0x3C, 0x44, 0x49, 0x52, 0x3E] + CRLF
  const UNSIGNED_LINE: seq<Byte> := [0x25, 0x75] + CRLF
  const READ_ERROR: seq<Byte> := Ascii("ls: read error\r\n")
  const NOTHING: seq<Byte> := Ascii("  (empty)\r\n")

  function Ascii(s: string): (r: seq<Byte>)
    requires forall i | 0 <= i < |s| :: s[i] < 128 as char
    ensures |r| == |s|
  {
    seq(|s|, i requires 0 <= i < |s| => s[i] as nat)
  }

  /** A name and the blanks after it. */
  function Column(s: seq<Byte>, cols: nat): seq<Byte> {
    if |s| < cols then s + Fill(SPACE, cols - |s|) else s
  }

  /** One line of the listing: two blanks, the name in 14 columns, and the size or the mark of a directory. */
  function Line(e: Entry): seq<Byte> {
    Fill(SPACE, 2) + Column(CString(Format(e[..11])), 14)
    + if IsDirectory(e) then DIR_MARK else Text(FileSize(e), 10, false) + CRLF
  }

  function Lines(live: seq<Entry>): seq<Byte> {
    if live == [] then [] else Line(live[0]) + Lines(live[1..])
  }

  /** All that fat32_ls prints. */
  function Listing(s: Scan): seq<Byte> {
    Lines(s.live) +
    match s.stop
    case EndMark => []
    case Unreadable => READ_ERROR
    case More => if s.live == [] then NOTHING else []
  }

  lemma {:induction false} LinesAppend(a: seq<Entry>, b: seq<Entry>)
    ensures Lines(a + b) == Lines(a) + Lines(b)
  {
    if a == [] {
      assert a + b == b;
    } else {
      assert (a + b)[1..] == a[1..] + b;
      LinesAppend(a[1..], b);
    }
  }

  lemma LinesOne(e: Entry)
    ensures Lines([e]) == Line(e) && Lines([]) == []
  {}

  /** What the format "%u\r\n" prints. */
  lemma UnsignedLine(n: nat)
    requires n < U32
    ensures IsString(UNSIGNED_LINE)
    ensures Render(Parse(UNSIGNED_LINE, 0), [Num(n)]) == Some(Text(n, 10, false) + CRLF)
  {
    var p, t := Conv(false, 0, 0x75), Text(n, 10, false);
    UnsignedPieces();
    assert Shown(p, Num(n)) == Some(t) by {
      assert Fill(SPACE, 0) + t == t;
    }
    hide Parse, Shown, Text;
    var tail := [Lit(0x0D)] + ([Lit(0x0A)] + []);
    assert ([p] + tail)[1..] == tail && [Num(n)][1..] == [];
    RenderLits();
  }

  lemma UnsignedPieces()
    ensures Parse(UNSIGNED_LINE, 0) == [Conv(false, 0, 0x75)] + ([Lit(0x0D)] + ([Lit(0x0A)] + []))
  {
    var f := UNSIGNED_LINE;
    assert ReadDirective(f, 1) == Directive(false, 0, 1);
    hide ReadDirective;
    ParseOne(f, 0, 10);
    ParseOne(f, 2, 10);
    ParseOne(f, 3, 10);
    AtEnd(f);
  }

  lemma RenderLits()
    ensures Render([Lit(0x0D)] + ([Lit(0x0A)] + []), []) == Some(CRLF)
  {
    var last: seq<Piece> := [Lit(0x0A)] + [];
    assert last[1..] == [] && ([Lit(0x0D)] + last)[1..] == last;
    assert Render(last, []) == Some([0x0A] + []);
    assert [0x0A as Byte] + [] == [0x0A] && [0x0D as Byte] + [0x0A] == CRLF;
  }

  class FatReader {
    const disk: seq<Sector>
    const vol: Vol
    var cache: Cache

    /** Nothing but a cache that is still empty, on a volume where it can mislead, is excluded. */
    predicate Valid()
      reads this
    {
      CacheOk(disk, cache) && vol.fatStart < U32 && (Harmless(vol, |disk|) || Loaded(disk, cache))
    }

    constructor (d: seq<Sector>, v: Vol)
      ensures CacheOk(d, cache) && disk == d && vol == v
    {
      disk, vol := d, v;
      cache := Empty();
    }

    method FatCacheRead(lba: nat) returns (ok: bool)
      modifies this
      ensures (cache, ok) == CacheRead(disk, old(cache), lba)
    {
      if lba == cache.lba {
        return true;
      }
      if lba >= |disk| {
        return false;
      }
      cache := Cache(lba, disk[lba]);
      ok := true;
    }

    /** fat_next_cluster */
    method NextCluster(c: nat) returns (r: nat)
      requires CacheOk(disk, cache) && c < END_OF_CHAIN
      modifies this
      ensures CacheOk(disk, cache) && (r, cache) == CachedNext(disk, vol, old(cache), c)
      ensures old(Valid()) ==> Valid() && r == Next(disk, vol, c)
    {
      CachedNextIs(disk, vol, cache, c);
      hide CacheOk, Loaded, Next, Harmless;
      var byteOffset := Wrap(c * 4);
      var lba := Wrap(vol.fatStart + byteOffset / SECTOR);
      var idx := byteOffset % SECTOR;
      var ok := FatCacheRead(lba);
      if !ok {
        return 0;
      }
      var entry := ReadLe32(cache.bytes, idx);
      LowBits28(entry);
      r := And(entry, 0x0FFF_FFFF);
    }

    /** fat32_read into `buf`; the count of bytes, or -1 after an error. It ends on every FAT, cyclic ones included,
        unless clusters have no sectors and the chain `cs` does not end. */
    method Read(first: nat, buf: array<Byte>, maxBytes: nat, ghost cs: seq<nat>) returns (r: int)
      requires Valid() && maxBytes <= buf.Length && maxBytes < U32
      requires vol.spc >= 1 || maxBytes == 0 || IsChain(disk, vol, first, cs)
      modifies this, buf
      ensures Valid()
      ensures match ReadChain(disk, vol, first, maxBytes)
        case None => r == -1
        case Some(d) => r == AsInt(|d|) && forall k | 0 <= k < buf.Length ::
          buf[k] == if k < |d| then d[k] else old(buf[k])
    {
      hide ReadChain, ReadSectors, Next, CacheOk, Loaded, Harmless;
      AppendedNothing(ReadChain(disk, vol, first, maxBytes));
      ChainEnds(disk, vol);
      var cluster: nat, done: nat := first, 0;
      ghost var got: seq<Byte> := [];
      ghost var rest := cs;
      while cluster < END_OF_CHAIN && done < maxBytes
        invariant vol.spc >= 1 || done == maxBytes || IsChain(disk, vol, cluster, rest)
        invariant Valid() && 0 <= done <= maxBytes && |got| == done
        invariant forall k | 0 <= k < buf.Length :: buf[k] == if k < done then got[k] else old(buf[k])
        invariant ReadChain(disk, vol, first, maxBytes) == Appended(got, ReadChain(disk, vol, cluster, maxBytes - done))
        decreases maxBytes - done, |rest|
      {
        var lba := ClusterLba(vol, cluster);
        ghost var all := ReadSectors(disk, lba, 0, vol.spc, maxBytes - done);
        var n, ok := ReadCluster(lba, buf, done, maxBytes);
        if !ok {
          return -1;
        }
        ChainStep(disk, vol, cluster, maxBytes - done, got);
        done := done + n;
        got := got + all.value;
        if vol.spc == 0 {
          DirScanned(disk, vol, cluster, rest);
          rest := rest[1..];
        }
        cluster := NextCluster(cluster);
      }
      r := AsInt(done);
    }

    /** The sector loop of fat32_read: bytes from position `at` on. */
    method ReadCluster(lba: nat, buf: array<Byte>, at: nat, limit: nat) returns (n: nat, ok: bool)
      requires at <= limit <= buf.Length
      modifies buf
      ensures ok <==> ReadSectors(disk, lba, 0, vol.spc, limit - at).Some?
      ensures ok ==> var d := ReadSectors(disk, lba, 0, vol.spc, limit - at).value;
        n == |d| && forall k | 0 <= k < buf.Length :: buf[k] == if at <= k < at + n then d[k - at] else old(buf[k])
    {
      hide ReadSectors;
      AppendedNothing(ReadSectors(disk, lba, 0, vol.spc, limit - at));
      SectorsEnd(disk, lba, vol.spc);
      var s: nat := 0;
      ghost var got: seq<Byte> := [];
      n, ok := 0, true;
      while s < vol.spc && at + n < limit
        invariant 0 <= s && at + n <= limit && |got| == n
        invariant forall k | 0 <= k < buf.Length :: buf[k] == if at <= k < at + n then got[k - at] else old(buf[k])
        invariant ReadSectors(disk, lba, 0, vol.spc, limit - at) ==
          Appended(got, ReadSectors(disk, lba, s, vol.spc, limit - at - n))
        decreases vol.spc - s
      {
        var block := ReadBlock(disk, Wrap(lba + s));
        if block.None? {
          return n, false;
        }
        var toCopy := if limit - at - n < SECTOR then limit - at - n else SECTOR;
        CopyBytes(block.value, toCopy, buf, at + n);
        SectorStep(disk, lba, s, vol.spc, limit - at - n, got);
        got := got + block.value[..toCopy];
        n := n + toCopy;
        s := s + 1;
      }
    }

    // ---- directories

    /** The sixteen entries of one sector, as fat32_ls visits them; `ended` at the end mark. */
    method ListSector(b: Sector) returns (out: seq<Byte>, count: nat, ended: bool, ghost shown: seq<Entry>)
      ensures ScanSector(b, 0) == Scan(shown, if ended then EndMark else More)
      ensures out == Lines(shown) && count == |shown|
    {
      hide ScanSector, Lines, Line;
      SectorScanned(b, 0);
      var e := 0;
      shown, out, count := [], [], 0;
      NoLines();
      ThenNothing(ScanSector(b, 0));
      while e < PER_SECTOR
        invariant 0 <= e <= PER_SECTOR && ScanSector(b, 0) == Then(Scan(shown, More), ScanSector(b, e))
        invariant out == Lines(shown) && count == |shown|
      {
        SectorScanned(b, e);
        var entry := EntryAt(b, e);
        if entry[0] == 0x00 {
          ended := true;
          return;
        }
        if entry[0] != 0xE5 && entry[11] != 0x0F {
          ThenThen(shown, [entry], ScanSector(b, e + 1));
          var line := PrintEntry(entry);
          LinesAppend(shown, [entry]);
          LinesOne(entry);
          out := out + line;
          shown := shown + [entry];
          count := count + 1;
        } else {
          ThenThen(shown, [], ScanSector(b, e + 1));
          assert shown + [] == shown;
        }
        e := e + 1;
      }
      SectorScanned(b, e);
      ended := false;
    }

    /** The columns of one entry. */
    method PrintEntry(entry: Entry) returns (out: seq<Byte>)
      ensures out == Line(entry)
    {
      var name := Format83(entry[..11]);
      AndPow2(entry[11], 4);
      DirBit();
      var isDir := And(entry[11], 0x10) != 0;
      var size := ReadLe32(entry, 28);
      UnsignedLine(size);
      hide Text, Format, Render, Parse;
      var column := Pad(name + [0], 14);
      CStringEnds(name);
      out := Fill(SPACE, 2) + column;
      if isDir {
        out := out + DIR_MARK;
      } else {
        var line := TfpFormat(UNSIGNED_LINE, [Num(size)]);
        out := out + line;
      }
    }

    /** ls_pad */
    method Pad(s: seq<Byte>, cols: nat) returns (out: seq<Byte>)
      requires 0 in s
      ensures out == Column(CString(s), cols)
    {
      var n: nat := 0;
      ghost var t := CString(s);
      CStringShort(s);
      out := [];
      while s[n] != 0
        invariant n <= |t| && out == t[..n]
        decreases |t| - n
      {
        assert n < |t| ==> s[n] == t[n];
        out := out + [s[n]];
        n := n + 1;
      }
      assert n == |t| && t[..n] == t;
      while n < cols
        invariant |t| <= n && out == t + Fill(SPACE, n - |t|) && (n <= cols || n == |t|)
      {
        out := out + [SPACE];
        n := n + 1;
      }
      assert t + Fill(SPACE, 0) == t;
    }

    /** The sectors of one cluster. */
    method ListCluster(lba: nat) returns (out: seq<Byte>, count: nat, stop: Stop, ghost shown: seq<Entry>)
      ensures ScanCluster(disk, lba, 0, vol.spc) == Scan(shown, stop)
      ensures out == Lines(shown) && count == |shown|
    {
      hide ScanCluster, ScanSector, Lines;
      var s: nat := 0;
      shown, out, count := [], [], 0;
      NoLines();
      ThenNothing(ScanCluster(disk, lba, 0, vol.spc));
      while s < vol.spc
        invariant ScanCluster(disk, lba, 0, vol.spc) == Then(Scan(shown, More), ScanCluster(disk, lba, s, vol.spc))
        invariant out == Lines(shown) && count == |shown|
        decreases vol.spc - s
      {
        ClusterScanned(disk, lba, s, vol.spc);
        var block := ReadBlock(disk, Wrap(lba + s));
        if block.None? {
          stop := Unreadable;
          return;
        }
        ghost var more;
        var text, n, ended;
        text, n, ended, more := ListSector(block.value);
        LinesAppend(shown, more);
        out, count := out + text, count + n;
        if ended {
          shown, stop := shown + more, EndMark;
          return;
        }
        ThenThen(shown, more, ScanCluster(disk, lba, s + 1, vol.spc));
        shown := shown + more;
        s := s + 1;
      }
      ClusterScanned(disk, lba, s, vol.spc);
      stop := More;
    }

    /** What fat32_ls prints for a directory. `cs` are the clusters it visits: the chain, or as much of it as it takes
        to come to the end mark or to an unreadable sector. */
    method Ls(cwd: nat, ghost cs: seq<nat>) returns (out: seq<Byte>)
      requires Valid() && IsPath(disk, vol, cwd, cs)
      requires After(disk, vol, cwd, cs) >= END_OF_CHAIN || ScanDir(disk, vol, cs).stop != More
      modifies this
      ensures Valid() && out == Listing(ScanDir(disk, vol, cs))
    {
      hide ScanDir, ScanCluster, Next, CacheOk, Loaded, Lines, Harmless, Ascii;
      var cluster: nat, count: nat := cwd, 0;
      ghost var rest, shown: seq<Entry> := cs, [];
      out := [];
      NoLines();
      ThenNothing(ScanDir(disk, vol, cs));
      while cluster < END_OF_CHAIN
        invariant Valid() && IsPath(disk, vol, cluster, rest)
        invariant After(disk, vol, cluster, rest) >= END_OF_CHAIN || ScanDir(disk, vol, rest).stop != More
        invariant ScanDir(disk, vol, cs) == Then(Scan(shown, More), ScanDir(disk, vol, rest))
        invariant out == Lines(shown) && count == |shown|
        decreases |rest|
      {
        DirScanned(disk, vol, cluster, rest);
        ghost var more;
        var text, n, why;
        text, n, why, more := ListCluster(ClusterLba(vol, cluster));
        LinesAppend(shown, more);
        out, count := out + text, count + n;
        if why != More {
          ListingIs(shown + more, why);
          if why == Unreadable {
            out := out + READ_ERROR;
          }
          return;
        }
        ThenThen(shown, more, ScanDir(disk, vol, rest[1..]));
        shown := shown + more;
        cluster := NextCluster(cluster);
        rest := rest[1..];
      }
      DirScanned(disk, vol, cluster, rest);
      ListingIs(shown, More);
      assert shown + [] == shown;
      if count == 0 {
        out := out + NOTHING;
      }
    }

    /** The entry loop of fat32_open and, with `dirsOnly`, of fat32_cd. */
    method FindInSector(b: Sector, target: seq<Byte>, dirsOnly: bool) returns (found: Option<Entry>, ended: bool)
      requires |target| == 11 && IsString(target)
      ensures found == FirstMatch(ScanSector(b, 0).live, target, dirsOnly)
      ensures found.None? ==> ended == (ScanSector(b, 0).stop == EndMark) && ScanSector(b, 0).stop != Unreadable
    {
      hide ScanSector, FirstMatch;
      var e := 0;
      ended := false;
      while e < PER_SECTOR
        invariant 0 <= e <= PER_SECTOR && !ended
        invariant FirstMatch(ScanSector(b, 0).live, target, dirsOnly) ==
          FirstMatch(ScanSector(b, e).live, target, dirsOnly)
        invariant ScanSector(b, 0).stop == ScanSector(b, e).stop
      {
        SectorScanned(b, e);
        var entry := EntryAt(b, e);
        if entry[0] == 0x00 {
          MatchNothing(target, dirsOnly);
          return None, true;
        }
        var skip := entry[0] == 0xE5 || entry[11] == 0x0F;
        AndPow2(entry[11], 4);
        DirBit();
        if !skip && dirsOnly && And(entry[11], 0x10) == 0 {
          skip := true;
        }
        MatchNext(entry, ScanSector(b, e + 1).live, target, dirsOnly);
        if !skip {
          CompareIsEquality(entry, target, 11);
          var cmp := StrnCmp(entry, target, 11);
          assert target[..11] == target;
          if cmp == 0 {
            return Some(entry), false;
          }
        }
        e := e + 1;
      }
      SectorScanned(b, e);
      MatchNothing(target, dirsOnly);
      found := None;
    }

    /** The sector loop of fat32_open and fat32_cd; `go` when the search is not over. */
    method FindInCluster(lba: nat, target: seq<Byte>, dirsOnly: bool) returns (found: Option<Entry>, go: bool)
      requires |target| == 11 && IsString(target)
      ensures found == FirstMatch(ScanCluster(disk, lba, 0, vol.spc).live, target, dirsOnly)
      ensures found.None? ==> (go <==> ScanCluster(disk, lba, 0, vol.spc).stop == More)
    {
      hide ScanCluster, ScanSector, FirstMatch;
      MatchNothing(target, dirsOnly);
      ghost var full := ScanCluster(disk, lba, 0, vol.spc);
      var s: nat := 0;
      go := true;
      while s < vol.spc
        invariant FirstMatch(full.live, target, dirsOnly) ==
          FirstMatch(ScanCluster(disk, lba, s, vol.spc).live, target, dirsOnly)
        invariant full.stop == ScanCluster(disk, lba, s, vol.spc).stop
        decreases vol.spc - s
      {
        ClusterScanned(disk, lba, s, vol.spc);
        var block := ReadBlock(disk, Wrap(lba + s));
        if block.None? {
          return None, false;
        }
        var ended: bool;
        found, ended := FindInSector(block.value, target, dirsOnly);
        ghost var here := ScanSector(block.value, 0);
        FirstMatchAppend(here.live, ScanCluster(disk, lba, s + 1, vol.spc).live, target, dirsOnly);
        if found.Some? || ended {
          return found, false;
        }
        s := s + 1;
      }
      ClusterScanned(disk, lba, s, vol.spc);
      found, go := None, true;
    }

    /** The cluster loop of fat32_open and fat32_cd. */
    method Find(cwd: nat, target: seq<Byte>, dirsOnly: bool, ghost cs: seq<nat>) returns (found: Option<Entry>)
      requires Valid() && SearchEnds(disk, vol, cwd, cs, target, dirsOnly) && |target| == 11 && IsString(target)
      modifies this
      ensures Valid() && found == FirstMatch(ScanDir(disk, vol, cs).live, target, dirsOnly)
    {
      hide ScanDir, ScanCluster, FirstMatch, Next, CacheOk, Loaded, Harmless;
      MatchNothing(target, dirsOnly);
      ghost var full := ScanDir(disk, vol, cs);
      var cluster: nat := cwd;
      ghost var rest := cs;
      while cluster < END_OF_CHAIN
        invariant Valid() && SearchEnds(disk, vol, cluster, rest, target, dirsOnly)
        invariant FirstMatch(full.live, target, dirsOnly) == FirstMatch(ScanDir(disk, vol, rest).live, target, dirsOnly)
        decreases |rest|
      {
        DirScanned(disk, vol, cluster, rest);
        var go: bool;
        found, go := FindInCluster(ClusterLba(vol, cluster), target, dirsOnly);
        ghost var here := ScanCluster(disk, ClusterLba(vol, cluster), 0, vol.spc);
        FirstMatchAppend(here.live, ScanDir(disk, vol, rest[1..]).live, target, dirsOnly);
        if found.Some? || !go {
          return;
        }
        cluster := NextCluster(cluster);
        rest := rest[1..];
      }
      DirScanned(disk, vol, cluster, rest);
      found := None;
    }

    /** fat32_open: the first cluster and the size of the first listed entry with that name; -1 without one. */
    method Open(cwd: nat, path: seq<Byte>, ghost cs: seq<nat>) returns (r: int, first: nat, size: nat)
      requires Valid() && SearchEnds(disk, vol, cwd, cs, Normalise(path), false) && IsString(path)
      modifies this
      ensures Valid()
      ensures match FirstMatch(ScanDir(disk, vol, cs).live, Normalise(path), false)
        case None => r == -1
        case Some(e) => r == 0 && first == FirstCluster(e) && size == FileSize(e)
    {
      NormaliseIsString(path);
      hide ScanDir, FirstMatch, Normalise, IsPath, Loaded, Harmless;
      var target := Target(path);
      var found := Find(cwd, target, false, cs);
      if found.None? {
        return -1, 0, 0;
      }
      first := EntryCluster(found.value);
      size := ReadLe32(found.value, 28);
      r := 0;
    }

    /** fat32_cd: the cluster of the first listed directory with that name, the root for "/" and for cluster 0. */
    method Cd(cwd: nat, name: seq<Byte>, ghost cs: seq<nat>) returns (r: int, out: nat)
      requires Valid() && IsString(name)
      requires name == [SLASH] || SearchEnds(disk, vol, cwd, cs, Normalise(name), true)
      modifies this
      ensures Valid()
      ensures name == [SLASH] ==> r == 0 && out == vol.root
      ensures name != [SLASH] ==>
        match FirstMatch(ScanDir(disk, vol, cs).live, Normalise(name), true)
        case None => r == -1
        case Some(e) => r == 0 && out == (if FirstCluster(e) == 0 then vol.root else FirstCluster(e))
    {
      if name == [SLASH] {
        return 0, vol.root;
      }
      NormaliseIsString(name);
      hide ScanDir, FirstMatch, Normalise, IsPath, Loaded, Harmless;
      var target := Target(name);
      var found := Find(cwd, target, true, cs);
      if found.None? {
        return -1, 0;
      }
      var next := EntryCluster(found.value);
      out := if next == 0 then vol.root else next;
      r := 0;
    }

    method Target(name: seq<Byte>) returns (target: seq<Byte>)
      ensures target == Normalise(name)
    {
      var buf := new Byte[11];
      Normalise83(name, buf);
      target := buf[..];
    }

    /** (clus_hi << 16) | clus_lo */
    method EntryCluster(entry: Entry) returns (c: nat)
      ensures c == FirstCluster(entry)
    {
      var hi := ReadLe16(entry, 20);
      var lo := ReadLe16(entry, 26);
      ByteShifts();
      OrShifted(lo, hi, 16);
      OrComm(lo, hi * Pow2(16));
      c := Or(hi * Pow2(16), lo);
    }

    method CopyBytes(src: Sector, n: nat, buf: array<Byte>, at: nat)
      requires n <= SECTOR && at + n <= buf.Length
      modifies buf
      ensures forall k | 0 <= k < buf.Length :: buf[k] == if at <= k < at + n then src[k - at] else old(buf[k])
    {
      var i := 0;
      while i < n
        invariant 0 <= i <= n
        invariant forall k | 0 <= k < buf.Length :: buf[k] == if at <= k < at + i then src[k - at] else old(buf[k])
      {
        buf[at + i] := src[i];
        i := i + 1;
      }
    }
  }

  /** The clusters `cs` are the chain, or as much of it as the search for a name has to visit. */
  ghost predicate SearchEnds(disk: seq<Sector>, vol: Vol, c: nat, cs: seq<nat>, target: seq<Byte>, dirsOnly: bool) {
    && IsPath(disk, vol, c, cs)
    && (After(disk, vol, c, cs) >= END_OF_CHAIN || ScanDir(disk, vol, cs).stop != More
        || FirstMatch(ScanDir(disk, vol, cs).live, target, dirsOnly).Some?)
  }

  lemma ListingIs(shown: seq<Entry>, stop: Stop)
    ensures Listing(Scan(shown, stop)) ==
      if stop == Unreadable then Lines(shown) + READ_ERROR
      else if stop == More && shown == [] then Lines(shown) + NOTHING else Lines(shown)
  {}

  lemma NoLines()
    ensures Lines([]) == []
  {}

  lemma CStringShort(s: seq<Byte>)
    requires 0 in s
    ensures |CString(s)| < |s|
  {
    var k :| 0 <= k < |s| && s[k] == 0;
    assert CString(s) == s ==> !IsString(s);
  }

  lemma CStringEnds(s: seq<Byte>)
    ensures CString(s + [0]) == CString(s)
  {
    var a, b := CString(s + [0]), CString(s);
    assert (s + [0])[|s|] == 0 && forall i | 0 <= i < |s| :: (s + [0])[i] == s[i];
    assert forall i | 0 <= i < |a| :: a[i] == (s + [0])[i] != 0;
    assert forall i | 0 <= i < |b| :: b[i] == s[i] != 0;
  }

  function Appended(a: seq<Byte>, b: Option<seq<Byte>>): Option<seq<Byte>> {
    match b case None => None case Some(r) => Some(a + r)
  }

  lemma AppendedNothing(b: Option<seq<Byte>>)
    ensures Appended([], b) == b
  {
    match b case None => case Some(r) => assert [] + r == r;
  }

  lemma ChainEnds(disk: seq<Sector>, vol: Vol)
    ensures forall c: nat, n: nat | c >= END_OF_CHAIN || n == 0 :: ReadChain(disk, vol, c, n) == Some([])
    ensures forall c: nat, n: nat
      | c < END_OF_CHAIN && n > 0 && ReadSectors(disk, ClusterLba(vol, c), 0, vol.spc, n).None? ::
      ReadChain(disk, vol, c, n) == None
  {}

  lemma SectorsEnd(disk: seq<Sector>, lba: nat, spc: nat)
    ensures forall s: nat, n: nat | s >= spc || n == 0 :: ReadSectors(disk, lba, s, spc, n) == Some([])
    ensures forall s: nat, n: nat | s < spc && n > 0 && ReadBlock(disk, Wrap(lba + s)).None? ::
      ReadSectors(disk, lba, s, spc, n) == None
  {}

  lemma AppendedTwice(a: seq<Byte>, d: seq<Byte>, b: Option<seq<Byte>>)
    ensures Appended(a, Appended(d, b)) == Appended(a + d, b)
  {
    match b case None => case Some(r) => assert a + (d + r) == a + d + r;
  }

  lemma ChainStep(disk: seq<Sector>, vol: Vol, c: nat, n: nat, got: seq<Byte>)
    requires c < END_OF_CHAIN && n > 0 && ReadSectors(disk, ClusterLba(vol, c), 0, vol.spc, n).Some?
    ensures var d := ReadSectors(disk, ClusterLba(vol, c), 0, vol.spc, n).value;
      && |d| <= n && (|d| > 0 <==> vol.spc > 0)
      && Appended(got, ReadChain(disk, vol, c, n)) ==
        Appended(got + d, ReadChain(disk, vol, Next(disk, vol, c), n - |d|))
  {
    var d := ReadSectors(disk, ClusterLba(vol, c), 0, vol.spc, n).value;
    assert d == [] ==> got + d == got;
    AppendedTwice(got, d, ReadChain(disk, vol, Next(disk, vol, c), n - |d|));
  }

  lemma SectorStep(disk: seq<Sector>, lba: nat, s: nat, spc: nat, n: nat, got: seq<Byte>)
    requires s < spc && n > 0 && ReadBlock(disk, Wrap(lba + s)).Some?
    ensures var d := ReadBlock(disk, Wrap(lba + s)).value[..Min(n, SECTOR)];
      Appended(got, ReadSectors(disk, lba, s, spc, n)) == Appended(got + d, ReadSectors(disk, lba, s + 1, spc, n - |d|))
  {
    var d := ReadBlock(disk, Wrap(lba + s)).value[..Min(n, SECTOR)];
    AppendedTwice(got, d, ReadSectors(disk, lba, s + 1, spc, n - |d|));
  }

  lemma ThenNothing(b: Scan)
    ensures Then(Scan([], More), b) == b
  {
    assert [] + b.live == b.live;
  }

  lemma ThenThen(shown: seq<Entry>, more: seq<Entry>, b: Scan)
    ensures Then(Scan(shown, More), Then(Scan(more, More), b)) == Then(Scan(shown + more, More), b)
  {
    assert shown + (more + b.live) == shown + more + b.live;
  }

  lemma SectorScanned(b: Sector, e: nat)
    requires e <= PER_SECTOR
    ensures e == PER_SECTOR ==> ScanSector(b, e) == Scan([], More)
    ensures e < PER_SECTOR && EntryAt(b, e)[0] == 0 ==> ScanSector(b, e) == Scan([], EndMark)
    ensures e < PER_SECTOR && EntryAt(b, e)[0] != 0 ==>
      ScanSector(b, e) == Then(Scan(if Live(EntryAt(b, e)) then [EntryAt(b, e)] else [], More), ScanSector(b, e + 1))
  {}

  lemma ClusterScanned(disk: seq<Sector>, lba: nat, s: nat, spc: nat)
    ensures s >= spc ==> ScanCluster(disk, lba, s, spc) == Scan([], More)
    ensures s < spc && ReadBlock(disk, Wrap(lba + s)).None? ==> ScanCluster(disk, lba, s, spc) == Scan([], Unreadable)
    ensures s < spc && ReadBlock(disk, Wrap(lba + s)).Some? ==>
      ScanCluster(disk, lba, s, spc) == Then(ScanSector(disk[Wrap(lba + s)], 0), ScanCluster(disk, lba, s + 1, spc))
  {}

  lemma DirScanned(disk: seq<Sector>, vol: Vol, c: nat, cs: seq<nat>)
    requires IsPath(disk, vol, c, cs)
    ensures cs == [] ==> ScanDir(disk, vol, cs) == Scan([], More) && After(disk, vol, c, cs) == c
    ensures cs != [] ==> c < END_OF_CHAIN && IsPath(disk, vol, Next(disk, vol, c), cs[1..])
    ensures cs != [] ==> After(disk, vol, c, cs) == After(disk, vol, Next(disk, vol, c), cs[1..])
    ensures cs != [] ==>
      ScanDir(disk, vol, cs) == Then(ScanCluster(disk, ClusterLba(vol, c), 0, vol.spc), ScanDir(disk, vol, cs[1..]))
  {}

  lemma MatchNothing(target: seq<Byte>, dirsOnly: bool)
    ensures FirstMatch([], target, dirsOnly) == None
  {}

  lemma MatchNext(entry: Entry, live: seq<Entry>, target: seq<Byte>, dirsOnly: bool)
    ensures FirstMatch([entry] + live, target, dirsOnly) ==
      if Matches(entry, target, dirsOnly) then Some(entry) else FirstMatch(live, target, dirsOnly)
    ensures [] + live == live
  {
    assert ([entry] + live)[1..] == live;
  }

  lemma DirBit()
    ensures Pow2(4) == 0x10
  {}

  lemma LowBits28(x: nat)
    ensures And(x, 0x0FFF_FFFF) == x % 0x1000_0000
  {
    assert Pow2(7) == 128;
    Pow2Add(7, 7);
    Pow2Add(14, 14);
    AndLowMask(x, 28);
  }
}
