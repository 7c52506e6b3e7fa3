/**
 The FAT writer: the cached table, the used and dirty bitmaps, the free count
 and the allocation hint, changed step by step by the operations of fs.c. The
 device may fail at any request; a failing write may or may not have reached
 the disk. The history records every state the disk goes through.
 */
module FatVolume {
  import opened Basics
  import opened FatDisk
  import opened FatSlots
  import opened FatChains
  import opened FatCrash
  import opened FatAudit
  import opened FatAuditor
  import FatIntact
  import opened FatGrowth
  import opened FatSearch
  import opened FatQuiet
  import opened FatClosed
  import opened FatNaming
  import FatNames
  import FatListing
  import FatLookup

  const WRITE_MAX: nat := 4 * 1024 * 1024

  ghost function FreeCells(g: Geometry, cache: seq<Cell>): set<nat>
    requires |cache| == Limit(g)
  {
    set c: nat | 2 <= c < Limit(g) && cache[c].value == 0
  }

  lemma FreeTaken(g: Geometry, cache: seq<Cell>, c: nat, x: Cell)
    requires |cache| == Limit(g) && InRange(g, c) && cache[c].value == 0 && x.value != 0
    ensures |FreeCells(g, cache[c := x])| == |FreeCells(g, cache)| - 1
  {
    assert FreeCells(g, cache) == FreeCells(g, cache[c := x]) + {c};
  }

  lemma FreeGiven(g: Geometry, cache: seq<Cell>, c: nat, x: Cell)
    requires |cache| == Limit(g) && InRange(g, c) && cache[c].value != 0 && x.value == 0
    ensures |FreeCells(g, cache[c := x])| == |FreeCells(g, cache)| + 1
  {
    assert FreeCells(g, cache[c := x]) == FreeCells(g, cache) + {c};
  }

  lemma FreeSame(g: Geometry, cache: seq<Cell>, c: nat, x: Cell)
    requires |cache| == Limit(g) && c < Limit(g) && (c < 2 || (cache[c].value != 0 && x.value != 0))
    ensures FreeCells(g, cache[c := x]) == FreeCells(g, cache)
  {
  }

  /** The bitmap is exactly cs, every cell in use is in it or bad, and the free count is exact. */
  ghost predicate Accounted(g: Geometry, cache: seq<Cell>, used: set<nat>, free: nat) {
    && |cache| == Limit(g) && free == |FreeCells(g, cache)|
    && (forall c: nat :: InRange(g, c) && cache[c].value != 0 ==> cache[c].value == Bad(g) || c in used)
    && (forall c :: c in used ==> InRange(g, c) && cache[c].value != 0)
  }

  lemma GeometryCopies(g: Geometry)
    requires ValidGeometry(g)
    ensures Written(g, g.active) && (g.mirrored ==> g.active == 0) && 0 < g.copies && g.active < g.copies
  {
  }

  lemma FirstSector(g: Geometry)
    requires ValidGeometry(g)
    ensures SectorOf(g, 0) == 0 && SectorOf(g, 1) == 0
  {
  }

  /** What a written sector shows of a table marked clean. */
  lemma SpliceSafe(g: Geometry, fat: seq<Cell>, cache: seq<Cell>, dirty: set<nat>, s: nat, files: map<Ref, seq<nat>>)
    requires ValidGeometry(g) && |fat| == |cache| == Limit(g) && s in dirty
    requires forall c: nat :: c < Limit(g) && SectorOf(g, c) !in dirty ==> fat[c] == cache[c]
    requires Clean(g, cache[1].value) ==> dirty <= {0} && NothingLost(g, cache, files)
    requires !Clean(g, cache[1].value) && s != 0 ==> !Clean(g, fat[1].value)
    ensures var out := Spliced(g, fat, s, cache); Clean(g, out[1].value) ==> NothingLost(g, out, files)
  {
    hide Clean, NothingLost, SectorOf;
    FirstSector(g);
    if Clean(g, cache[1].value) {
      assert Spliced(g, fat, s, cache) == cache;
    }
  }

  lemma AppliedCells(g: Geometry, d: Disk, f: nat, s: nat, cache: seq<Cell>)
    requires ValidDisk(g, d) && |cache| == Limit(g) && f < g.copies
    ensures var d' := Apply(g, d, FatWrite(f, s, cache));
      && ValidDisk(g, d') && d'.sectors == d.sectors && d'.fat == d.fat[f := Spliced(g, d.fat[f], s, cache)]
  {
    hide Spliced;
  }

  /** Flushing a sector keeps the table safe to flush. */
  lemma FlushedCells(g: Geometry, d: Disk, d': Disk, cache: seq<Cell>, dirty: set<nat>, files: map<Ref, seq<nat>>, f: nat, s: nat)
    requires ValidGeometry(g) && ValidDisk(g, d) && |cache| == Limit(g) && f < g.copies
    requires d' == Apply(g, d, FatWrite(f, s, cache))
    ensures |d'.fat| == |d.fat| && forall k, c :: 0 <= k < g.copies && 0 <= c < Limit(g) ==>
      d'.fat[k][c] == if k == f && SectorOf(g, c) == s then cache[c] else d.fat[k][c]
    ensures !Clean(g, cache[1].value) && !Clean(g, Fat(g, d)[1].value) ==> !Clean(g, Fat(g, d')[1].value)
    ensures s == 0 && f == g.active && !Clean(g, cache[1].value) ==> !Clean(g, Fat(g, d')[1].value)
  {
    hide Clean, SectorOf;
    AppliedCells(g, d, f, s, cache);
    FirstSector(g);
  }

  lemma CacheKeepsMark(g: Geometry, b: Disk, files: map<Ref, seq<nat>>, before: seq<Cell>, after: seq<Cell>)
    requires CacheKeeps(g, b, files, before) && |after| == |before| && 1 !in Owned(files)
    requires forall c :: 0 <= c < |after| && c != 1 ==> after[c] == before[c]
    ensures CacheKeeps(g, b, files, after)
  {
  }

  lemma NoFree(g: Geometry, cache: seq<Cell>)
    requires |cache| == Limit(g) && forall c: nat :: InRange(g, c) ==> cache[c].value != 0
    ensures FreeCells(g, cache) == {}
  {
  }

  function Sectors(g: Geometry, n: nat): nat { n * g.sector }

  lemma SectorsStep(g: Geometry, n: nat)
    ensures Sectors(g, 0) == 0 && Sectors(g, n + 1) == Sectors(g, n) + g.sector && Sectors(g, g.spc) == ClusterSize(g)
  {
  }

  lemma PadStep(bytes: seq<byte>, at: nat, n: nat, done: nat, sector: nat)
    requires at <= |bytes| && at <= done && (at < |bytes| ==> at == done)
    requires n == if |bytes| - at < sector then |bytes| - at else sector
    ensures bytes[..at] + Zeros(done - at) + (bytes[at..at + n] + Zeros(sector - n)) == bytes[..at + n] + Zeros(done + sector - at - n)
  {
  }

  lemma NoPart(g: Geometry, d: Disk, c: nat)
    ensures ClusterPart(g, d, c, 0) == []
  {
  }

  lemma PartStep(g: Geometry, d: Disk, c: nat, s: nat)
    ensures ClusterPart(g, d, c, s + 1) == ClusterPart(g, d, c, s) + SectorBytes(g, d, Data(c, s))
  {
  }

  lemma TrailNone(g: Geometry, h: seq<Disk>, b: Disk, files: map<Ref, seq<nat>>)
    ensures Trail(g, h, h, b, files)
  {
  }

  lemma LastUsed(g: Geometry, cache: seq<Cell>, ch: seq<nat>)
    requires ValidGeometry(g) && ch != [] && IsChain(g, cache, ch)
    ensures ch[|ch| - 1] in ch && InRange(g, ch[|ch| - 1]) && cache[ch[|ch| - 1]].value != 0
  {
  }

  lemma SingleChain(g: Geometry, cache: seq<Cell>, c: nat)
    requires |cache| == Limit(g) && InRange(g, c) && cache[c].value == Eoc(g)
    ensures IsChain(g, cache, [c])
  {
  }

  /** The cache after c is taken and linked behind last. */
  function Linked(cache: seq<Cell>, c: nat, last: nat, eoc: nat): (r: seq<Cell>)
    requires c < |cache| && last < |cache|
    ensures |r| == |cache|
  {
    var taken := cache[c := Cell(cache[c].high, eoc)];
    if last == 0 then taken else taken[last := Cell(taken[last].high, c)]
  }

  lemma LinkKept(g: Geometry, cache: seq<Cell>, used: set<nat>, c: nat, last: nat, b: Disk, files: map<Ref, seq<nat>>, ch: seq<nat>)
    requires ValidGeometry(g) && CacheKeeps(g, b, files, cache) && InRange(g, c) && c !in used
    requires used == Owned(files) + Elements(ch) && (forall x :: x in ch ==> x !in Owned(files))
    requires forall x :: x in used ==> InRange(g, x) && cache[x].value != 0
    requires ch != [] ==> IsChain(g, cache, ch)
    requires (last == 0 <==> ch == []) && (ch != [] ==> last == ch[|ch| - 1])
    ensures last != 0 ==> InRange(g, last) && cache[last].value != 0 && last != c && last in used
    ensures c <= Eoc(g) && last < Limit(g) && c !in ch && c !in Owned(files)
    ensures var out := Linked(cache, c, last, Eoc(g));
      IsChain(g, out, ch + [c]) && CacheKeeps(g, b, files, out) && out[1] == cache[1]
  {
    hide Owned;
    assert c !in Elements(ch);
    if last != 0 {
      LastUsed(g, cache, ch);
      ChainExtends(g, cache, Linked(cache, c, last, Eoc(g)), ch, c);
    } else {
      assert ch + [c] == [c];
      SingleChain(g, Linked(cache, c, last, Eoc(g)), c);
    }
  }

  lemma UnlinkKept(g: Geometry, cache: seq<Cell>, used: set<nat>, b: Disk, files: map<Ref, seq<nat>>, ch: seq<nat>)
    requires ValidGeometry(g) && CacheKeeps(g, b, files, cache) && ch != [] && IsChain(g, cache, ch)
    requires used == Owned(files) + Elements(ch) && (forall x :: x in ch ==> x !in Owned(files))
    ensures InRange(g, ch[0]) && cache[ch[0]].value != 0
    ensures used - {ch[0]} == Owned(files) + Elements(ch[1..])
    ensures if |ch| == 1 then IsEnd(g, cache[ch[0]].value) else !IsEnd(g, cache[ch[0]].value) && cache[ch[0]].value == ch[1] >= 2
    ensures var out := cache[ch[0] := Cell(cache[ch[0]].high, 0)];
      && CacheKeeps(g, b, files, out) && out[1] == cache[1] && (|ch| > 1 ==> IsChain(g, out, ch[1..]))
  {
    hide Owned;
    var out := cache[ch[0] := Cell(cache[ch[0]].high, 0)];
    var rest := ch[1..];
    forall i | 0 < i < |ch|
      ensures ch[i] != ch[0]
    {
      ChainDistinct(g, cache, ch, 0, i);
    }
    assert Elements(ch) == Elements(rest) + {ch[0]};
    forall i | 0 <= i < |rest| - 1
      ensures out[rest[i]].value == rest[i + 1]
    {
      assert cache[ch[i + 1]].value == ch[i + 2];
    }
    if |ch| > 1 {
      EndMeansOut(g, ch[1]);
      assert cache[ch[0]].value == ch[1];
      assert rest[|rest| - 1] == ch[|ch| - 1];
    }
  }

  lemma EmptyChain(g: Geometry, d: Disk)
    ensures ChainBytes(g, d, []) == []
  {
  }

  /** Clusters that a file of a size needs. */
  function Needed(g: Geometry, size: nat): nat {
    var per := ClusterSize(g); if per == 0 then 0 else (size + per - 1) / per
  }

  function Clusters(g: Geometry, n: nat): nat { n * ClusterSize(g) }

  lemma NeededSteps(g: Geometry, size: nat, i: nat)
    requires ValidGeometry(g)
    ensures Clusters(g, 0) == 0 && Clusters(g, i + 1) == Clusters(g, i) + ClusterSize(g) && ClusterSize(g) >= 512
    ensures i < Needed(g, size) <==> Clusters(g, i) < size
    ensures i + 1 == Needed(g, size) ==> size <= Clusters(g, i + 1)
    ensures i + 1 < Needed(g, size) ==> Clusters(g, i + 1) < size
    ensures Needed(g, size) == 0 <==> size == 0
  {
    var per := ClusterSize(g);
    assert per >= 512;
    CeilBelow(size, per, i);
    CeilBelow(size, per, i + 1);
    CeilBelow(size, per, 0);
  }

  lemma CeilBelow(size: nat, per: nat, i: nat)
    requires per > 0
    ensures i < (size + per - 1) / per <==> i * per < size
  {
    var q := (size + per - 1) / per;
    assert (size + per - 1) == q * per + (size + per - 1) % per;
    if i < q {
      Ordered(i + 1, q, per);
    } else {
      Ordered(q, i, per);
    }
  }

  lemma Ordered(a: nat, b: nat, per: nat)
    requires a <= b
    ensures a * per <= b * per
  {
  }

  lemma NeededBound(g: Geometry, size: nat)
    requires ValidGeometry(g) && size <= WRITE_MAX
    ensures Needed(g, size) <= 65536
  {
    hide Needed;
    NeededSteps(g, size, 65536);
    Multiples(512, ClusterSize(g), 65536);
    assert Clusters(g, 65536) >= 65536 * 512;
  }

  lemma Extended(data: seq<byte>, offset: nat, n: nat, part: seq<byte>, cluster: seq<byte>)
    requires offset + n <= |data| && data[..offset] <= part
    ensures |part| == offset && data[offset..offset + n] <= cluster ==> data[..offset + n] <= part + cluster
  {
    if |part| == offset && data[offset..offset + n] <= cluster {
      assert data[..offset] == part;
      assert data[..offset + n] == part + data[offset..offset + n];
    }
  }

  // ---------------------------------------------------------------- the new directory entry

  /** fat_set_first, and the archive attribute. */
  function NewEntry(e: seq<byte>, first: nat, size: nat): (r: seq<byte>)
    requires |e| == 32
    ensures |r| == 32
  {
    e[26 := Low(first, 1)][27 := Low(first, 0x100)][20 := Low(first, 0x1_0000)][21 := Low(first, 0x100_0000)]
    [28 := Low(size, 1)][29 := Low(size, 0x100)][30 := Low(size, 0x1_0000)][31 := Low(size, 0x100_0000)]
    [11 := Archived(e[11])]
  }

  function Archived(a: byte): byte { if a / 32 % 2 == 1 || a >= 224 then a else a + 32 }

  lemma ArchivedKept(a: byte)
    ensures Archived(a) / 8 % 2 == a / 8 % 2 && Archived(a) / 16 % 2 == a / 16 % 2
  {
    if a / 32 % 2 != 1 && a < 224 {
      BitsAbove(a, 8, 4);
      BitsAbove(a, 16, 2);
    }
  }

  lemma BitsAbove(a: byte, unit: nat, n: nat)
    requires (unit == 8 && n == 4) || (unit == 16 && n == 2)
    ensures (a + 32) / unit % 2 == a / unit % 2
  {
    assert (a + 32) / unit == a / unit + n;
  }

  /** What forbids a replacement: the attribute read-only, or that of a directory. */
  predicate Protected(e: seq<byte>)
    requires |e| == 32
  {
    e[11] % 2 == 1 || e[11] / 16 % 2 == 1
  }

  lemma ProtectedIs(e: seq<byte>)
    requires |e| == 32
    ensures Protected(e) <==> e[11] % 2 == 1 || IsDirectory(e)
  {
  }

  lemma NewEntryFields(g: Geometry, e: seq<byte>, first: nat, size: nat)
    requires ValidGeometry(g) && |e| == 32 && LiveEntry(e) && !IsDirectory(e) && size < 0x1_0000_0000
    requires first == 0 || InRange(g, first)
    ensures var n := NewEntry(e, first, size);
      LiveEntry(n) && !IsDirectory(n) && FirstCluster(g, n) == first && FileSize(n) == size
  {
    hide Low, FirstCluster, FileSize, NewEntry, Archived;
    NewEntryNumbers(g, e, first, size);
    NewEntryBytes(e, first, size);
    ArchivedKept(e[11]);
  }

  lemma NewEntryNumbers(g: Geometry, e: seq<byte>, first: nat, size: nat)
    requires ValidGeometry(g) && |e| == 32 && size < 0x1_0000_0000 && (first == 0 || InRange(g, first))
    ensures FirstCluster(g, NewEntry(e, first, size)) == first && FileSize(NewEntry(e, first, size)) == size
  {
    hide Low, NewEntry;
    NewEntryBytes(e, first, size);
    LowBack(first);
    LowBack(size);
  }

  lemma NewEntryBytes(e: seq<byte>, first: nat, size: nat)
    requires |e| == 32
    ensures var n := NewEntry(e, first, size);
      && n[..11] == e[..11] && n[0] == e[0] && n[11] == Archived(e[11])
      && n[26] == Low(first, 1) && n[27] == Low(first, 0x100) && n[20] == Low(first, 0x1_0000) && n[21] == Low(first, 0x100_0000)
      && n[28] == Low(size, 1) && n[29] == Low(size, 0x100) && n[30] == Low(size, 0x1_0000) && n[31] == Low(size, 0x100_0000)
  {
    hide Low;
  }

  /** Nothing but the first cluster, the size and the archive attribute, which is set, has changed. */
  predicate Rewritten(was: seq<byte>, now: seq<byte>) {
    && |was| == |now| == 32 && (forall k :: 0 <= k < 26 && k != 11 && k != 20 && k != 21 ==> now[k] == was[k])
    && now[11] / 32 % 2 == 1 && now[11] % 32 == was[11] % 32 && now[11] / 64 == was[11] / 64
  }

  lemma NewEntryRewrites(e: seq<byte>, first: nat, size: nat)
    requires |e| == 32
    ensures Rewritten(e, NewEntry(e, first, size))
  {
    hide Low, Archived;
    ArchivedSets(e[11]);
  }

  lemma ArchivedSets(a: byte)
    ensures var b := Archived(a); b / 32 % 2 == 1 && b % 32 == a % 32 && b / 64 == a / 64
  {
    var q, r := a / 32, a % 32;
    if q % 2 == 1 {
    } else if q == 0 {
    } else if q == 2 {
    } else if q == 4 {
    } else {
    }
  }

  lemma NeededHolds(g: Geometry, size: nat)
    requires ValidGeometry(g)
    ensures size <= Needed(g, size) * ClusterSize(g)
  {
    hide Needed, ClusterSize;
    NeededSteps(g, size, Needed(g, size));
  }

  // ---------------------------------------------------------------- the exchange of chains

  lemma OwnedSwap(files: map<Ref, seq<nat>>, r: Ref, ch: seq<nat>)
    requires r in files && Disjoint(files) && (forall c :: c in ch ==> c !in Owned(files))
    ensures Owned(files) + Elements(ch) == Owned(files[r := ch]) + Elements(files[r])
    ensures forall c :: c in files[r] ==> c !in Owned(files[r := ch])
  {
    var f1 := files[r := ch];
    forall c | c in files[r]
      ensures c !in Owned(f1)
    {
      assert c in Owned(files);
    }
    forall c | c in Owned(files) + Elements(ch)
      ensures c in Owned(f1) + Elements(files[r])
    {
      if c in Elements(ch) {
        assert c in f1[r];
      } else {
        var q :| q in files && c in files[q];
        assert q != r ==> c in f1[q];
      }
    }
    forall c | c in Owned(f1) + Elements(files[r])
      ensures c in Owned(files) + Elements(ch)
    {
      if c in Owned(f1) {
        var q :| q in f1 && c in f1[q];
        assert q != r ==> c in files[q];
      }
    }
  }

  lemma KeptChain(g: Geometry, b: Disk, files: map<Ref, seq<nat>>, cache: seq<Cell>, ch: seq<nat>)
    requires CacheKeeps(g, b, files, cache) && IsChain(g, Fat(g, b), ch) && (forall c :: c in ch ==> c in Owned(files))
    ensures IsChain(g, cache, ch)
  {
  }

  lemma UncleanPhase(g: Geometry, d: Disk, files: map<Ref, seq<nat>>)
    requires ValidGeometry(g) && ValidDisk(g, d) && !Clean(g, Fat(g, d)[1].value)
    ensures Phase(g, d, files, d)
  {
  }

  lemma OldChain(g: Geometry, d: Disk, files: map<Ref, seq<nat>>, r: Ref)
    requires Consistent(g, d, files) && r in files && HasEntry(g, d, r)
    ensures var first := FirstCluster(g, EntryBytes(g, d, r));
      (first == 0 <==> files[r] == []) && (files[r] != [] ==> first == files[r][0])
    ensures r.Entry?
  {
    hide Housed;
    if files[r] != [] {
      InChain(g, Fat(g, d), files[r], 0);
    }
  }

  lemma TrailBefore(g: Geometry, b: Disk, files: map<Ref, seq<nat>>, h0: seq<Disk>, h1: seq<Disk>, r: Ref, data: seq<byte>)
    requires Consistent(g, b, files) && Trail(g, h0, h1, b, files) && r in files && r.Entry?
    ensures h0 <= h1 && forall k :: |h0| <= k < |h1| ==> CrashSafe(g, b, h1[k], files, r, data)
  {
    hide Consistent, Phase, CrashSafe;
    forall k | |h0| <= k < |h1|
      ensures CrashSafe(g, b, h1[k], files, r, data)
    {
      CrashBefore(g, b, files, h1[k], r, data);
    }
  }

  lemma EntryThere(g: Geometry, d: Disk, now: map<Ref, seq<nat>>, r: Ref, e: seq<byte>, d2: Disk)
    requires ValidDisk(g, d) && HasEntry(g, d, r) && |e| == 32 && r in now
    requires Consistent(g, WithEntry(g, d, r, e), now) && Phase(g, WithEntry(g, d, r, e), now, d2)
    ensures HasEntry(g, d2, r) && EntryBytes(g, d2, r) == e
  {
    hide ValidDisk, Consistent, Phase, WithEntry, EntryBytes;
    WithEntryOthers(g, d, r, e, r);
    EntrySame(g, WithEntry(g, d, r, e), now, d2, r);
  }

  /** Every disk state of a replacement is one of the two phases. */
  lemma AllSafe(g: Geometry, b: Disk, files: map<Ref, seq<nat>>, d: Disk, r: Ref, ch: seq<nat>, e: seq<byte>, data: seq<byte>,
                h0: seq<Disk>, h1: seq<Disk>, h2: seq<Disk>, h3: seq<Disk>)
    requires Consistent(g, b, files) && Phase(g, b, files, d) && Replaceable(g, d, files, r, ch, e)
    requires |data| == FileSize(e) && data <= ChainBytes(g, d, ch)
    requires Trail(g, h0, h1, b, files)
    requires h2 == h1 || h2 == h1 + [d] || h2 == h1 + [WithEntry(g, d, r, e)]
    requires h3 == h2 || (h2 == h1 + [WithEntry(g, d, r, e)] && Trail(g, h2, h3, WithEntry(g, d, r, e), files[r := ch]))
    requires h2 == h1 + [WithEntry(g, d, r, e)] ==> Phase(g, WithEntry(g, d, r, e), files[r := ch], WithEntry(g, d, r, e))
    ensures h0 <= h3 && forall k :: |h0| <= k < |h3| ==> CrashSafe(g, b, h3[k], files, r, data)
  {
    hide Consistent, Phase, CrashSafe, WithEntry, FileSize, ChainBytes, FirstCluster, LiveEntry, IsDirectory, IsChain;
    TrailBefore(g, b, files, h0, h1, r, data);
    forall k | |h0| <= k < |h3|
      ensures CrashSafe(g, b, h3[k], files, r, data)
    {
      if k < |h1| {
        assert h3[k] == h1[k];
      } else if h2 != h1 + [WithEntry(g, d, r, e)] {
        CrashBefore(g, b, files, d, r, data);
      } else if k == |h1| {
        CrashAfter(g, b, d, WithEntry(g, d, r, e), files, r, ch, e, data);
      } else {
        CrashAfter(g, b, d, h3[k], files, r, ch, e, data);
      }
    }
  }

  predicate NoHardError(g: Geometry, v: nat) { v / (if g.wide then 0x0400_0000 else 0x4000) % 2 == 1 }

  /** The header cells and the mirror are as fat_prepare_write wants them. */
  ghost predicate Loadable(g: Geometry, d: Disk)
    requires ValidGeometry(g) && ValidDisk(g, d)
  {
    var fat := Fat(g, d);
    && fat[0].value == (if g.wide then 0x0fff_ff00 else 0xff00) + g.media && Clean(g, fat[1].value) && NoHardError(g, fat[1].value)
    && (g.mirrored && g.copies > 1 ==> d.fat[1] == fat)
  }

  /** Cells hold 16 bits, or 28 bits and the reserved ones. */
  ghost predicate CellsFit(g: Geometry, d: Disk)
    requires ValidDisk(g, d)
  {
    forall f, c :: 0 <= f < g.copies && 0 <= c < Limit(g) ==> d.fat[f][c].value <= Eoc(g)
  }

  /** The last pass of the audit: count free cells and refuse a cell in use that no object owns. */
  method Sweep(g: Geometry, cache: seq<Cell>, used: set<nat>) returns (ok: bool, free: nat)
    requires |cache| == Limit(g)
    requires forall c :: c in used ==> InRange(g, c) && cache[c].value != 0
    ensures ok ==> Accounted(g, cache, used, free)
    ensures !ok ==> exists c: nat :: InRange(g, c) && cache[c].value != 0 && cache[c].value != Bad(g) && c !in used
  {
    free := 0;
    ghost var found: set<nat> := {};
    var c := 2;
    while c < Limit(g)
      invariant 2 <= c <= Limit(g) && free == |found|
      invariant forall x: nat :: x in found <==> 2 <= x < c && cache[x].value == 0
      invariant forall x: nat :: 2 <= x < c && cache[x].value != 0 ==> cache[x].value == Bad(g) || x in used
    {
      if cache[c].value == 0 {
        free := free + 1;
        found := found + {c};
      } else if c !in used && cache[c].value != Bad(g) {
        return false, free;
      }
      c := c + 1;
    }
    assert found == FreeCells(g, cache);
    return true, free;
  }

  lemma NoneLost(g: Geometry, cache: seq<Cell>, used: set<nat>, free: nat, files: map<Ref, seq<nat>>)
    requires Accounted(g, cache, used, free) && used == Owned(files)
    ensures NothingLost(g, cache, files)
  {
  }

  lemma Lost(g: Geometry, cache: seq<Cell>, files: map<Ref, seq<nat>>)
    requires |cache| == Limit(g) && exists c: nat :: InRange(g, c) && cache[c].value != 0 && cache[c].value != Bad(g) && c !in Owned(files)
    ensures !NothingLost(g, cache, files)
  {
  }

  lemma AccountLink(g: Geometry, cache: seq<Cell>, used: set<nat>, free: nat, last: nat, c: nat)
    requires Accounted(g, cache, used, free) && InRange(g, last) && cache[last].value != 0 && c >= 2 && last in used
    ensures Accounted(g, cache[last := Cell(cache[last].high, c)], used, free)
  {
    FreeSame(g, cache, last, Cell(cache[last].high, c));
  }

  /** The active FAT after its sector with a changed cell is written. */
  lemma LinkedCells(g: Geometry, d: Disk, cache: seq<Cell>, last: nat, s: nat)
    requires ValidGeometry(g) && ValidDisk(g, d) && |cache| == Limit(g) && last < Limit(g) && s == SectorOf(g, last)
    requires forall x :: 0 <= x < Limit(g) && x != last ==> cache[x] == Fat(g, d)[x]
    ensures var b := Apply(g, d, FatWrite(g.active, s, cache));
      && ValidDisk(g, b) && b.sectors == d.sectors && Fat(g, b) == cache
      && forall k :: 0 <= k < g.copies && k != g.active ==> b.fat[k] == d.fat[k]
  {
    hide SectorOf;
    AppliedCells(g, d, g.active, s, cache);
  }

  lemma FreeAt(g: Geometry, d: Disk, now: map<Ref, seq<nat>>, rs: seq<Ref>, i: nat)
    requires AllFree(g, d, now, rs) && i < |rs|
    ensures FreePlace(g, d, now, rs[i])
  {
  }

  lemma FreeHas(g: Geometry, d: Disk, now: map<Ref, seq<nat>>, r: Ref)
    requires FreePlace(g, d, now, r)
    ensures HasEntry(g, d, r) && r !in now
  {
  }

  lemma UpheldEntry(g: Geometry, d0: Disk, files: map<Ref, seq<nat>>, d: Disk, now: map<Ref, seq<nat>>, r: Ref, e: seq<byte>)
    requires Upheld(g, d0, files, d, now) && FreePlace(g, d, now, r) && |e| == 32
    ensures HasEntry(g, d, r) && DirsKept(g, d, WithEntry(g, d, r, e), now) && WithEntry(g, d, r, e).fat == d.fat
    ensures Consistent(g, d, now)
  {
    hide Consistent, WithEntry, InDirectory, Stays, DirsKept;
    EntryDirs(g, d, now, r, e);
    WithEntryFat(g, d, now, r, e);
  }

  /** The entry . or .. of a directory. */
  function DotBytes(dots: nat, cluster: nat): (e: seq<byte>)
    ensures |e| == 32
  {
    ShortEntry(seq(11, i => if i < dots then 46 else 32), true, cluster)
    [16 := 0][18 := 0][24 := 0]
  }

  /** Everything that a listing tells about an addition. */
  lemma CreatedNow(g: Geometry, d0: Disk, files: map<Ref, seq<nat>>, d: Disk, start: map<Ref, seq<nat>>, q: Ref, base: nat, places: seq<Ref>,
                   end: bool, d1: Disk, name: seq<byte>, short: seq<byte>, directory: bool, ch: seq<nat>, place: Ref)
    requires FatNames.ValidName(name) && |short| == 11 && short[0] != 0 && short[0] != 0xe5 && Upheld(g, d0, files, d, start)
    requires Longer(files, start, q) && Marked(g, d, files[q], start[q]) && (files[q] == [] ==> start == files) && ListsKept(g, d0, d, files)
    requires Room(g, d, start, q, base, places, FatNames.Entries(|name|) + 1, end) && OnlyPlaces(g, d, d1, start, places) && ValidDisk(g, d0)
    requires FatNames.Entries(|name|) + 1 <= |places| && (end ==> FatNames.Entries(|name|) + 1 < |places| && EndMark(g, d1, places[FatNames.Entries(|name|) + 1]))
    requires Named(g, d1, Slots(g, start[q]), base, name, short, directory, ch, place) && place !in start && DirectoryRef(g, d0, q)
    requires FatListing.Find(FatListing.Directory(g, d0, Slots(g, files[q])), name).None?
    requires !FatLookup.Taken(FatListing.View(g, d0, Slots(g, files[q])), short)
    ensures var now := start[place := ch];
      && q in now && Quiet(g, d0, files, d1, now) && Retained(g, d0, files, d1, now)
      && NameAdded(g, d0, files[q], d1, now[q], name, place) && OnlyShort(g, d1, Slots(g, now[q]), short, place)
      && (DirectoryRef(g, d1, place) <==> directory)
      && (forall p :: p in files && DirectoryRef(g, d0, p) && p != q ==>
           FatListing.Directory(g, d1, Slots(g, files[p])) == FatListing.Directory(g, d0, Slots(g, files[p])))
  {
    hide Upheld, DirectoryRef, ValidDisk, Room, Named, Slots, ListsKept, Marked, OnlyPlaces, EndMark, Quiet, Retained, FatListing.Find,
      FatListing.Directory, FatListing.View, FatLookup.Taken, NameAdded, OnlyShort, FatListing.Adds, FatNames.ValidName, FatNames.Entries;
    QuietNow(g, d0, files, d, start, q, base, places, end, d1, name, short, directory, ch, place);
    RetainedNow(g, d0, files, d, start, q, base, places, end, d1, name, short, directory, ch, place);
    ListingNow(g, d0, files, d, start, q, base, places, end, d1, name, short, directory, ch, place);
    AddsName(g, d0, files[q], d1, start[q], name, place);
    ShortUnique(g, d0, files, d1, start[place := ch], q, place, short);
    NamedKind(g, d1, Slots(g, start[q]), base, name, short, directory, ch, place);
  }

  lemma ClosedNow(g: Geometry, d0: Disk, files: map<Ref, seq<nat>>, d: Disk, now: map<Ref, seq<nat>>, place: Ref, directory: bool)
    requires Upheld(g, d0, files, d, now) && Quiet(g, d0, files, d, now) && place in now && (forall p :: p in now ==> p in files || p == place)
    requires (DirectoryRef(g, d, place) <==> directory) && (directory ==> |now[place]| == 1 && exists own, up :: Dots(g, d, now[place][0], own, up))
    ensures forall skip :: Closed(g, d0, skip, files) ==> Closed(g, d, WithDots(skip, now[place]), now)
  {
    hide Upheld, DirectoryRef, Quiet, Closed, Dots, WithDots;
    forall skip | Closed(g, d0, skip, files)
      ensures Closed(g, d, WithDots(skip, now[place]), now)
    {
      CreatedClosed(g, d0, files, d, now, place, skip);
    }
  }

  /** A directory with nothing but its dot entries lists nothing. */
  lemma DotsEmpty(g: Geometry, d: Disk, c: nat, parent: nat)
    requires ValidGeometry(g) && Dots(g, d, c, DotBytes(1, c), DotBytes(2, parent))
    ensures FatListing.Directory(g, d, Slots(g, [c])) == []
  {
    hide Slots, ValidGeometry, FatListing.Walk, FatListing.Stop, DotBytes, FatListing.Shows, FatListing.After, FatListing.At;
    HeadSlots(g, c);
    var slots := Slots(g, [c]);
    var es := FatListing.View(g, d, slots);
    DotsSeen(g, d, c, DotBytes(1, c), DotBytes(2, parent));
    DotHidden(1, c);
    DotHidden(2, parent);
    FatListing.StopIs(es, 2);
    FatListing.WalkStep(slots, es, 0);
    FatListing.WalkStep(slots, es, 1);
    FatListing.WalkNone(slots, es);
    DotAfter(FatListing.Begin().x, 1, c);
  }

  lemma DotsSeen(g: Geometry, d: Disk, c: nat, own: seq<byte>, up: seq<byte>)
    requires Dots(g, d, c, own, up)
    ensures FatListing.At(g, d, Entry(Data(c, 0), 0)) == own && FatListing.At(g, d, Entry(Data(c, 0), 32)) == up
    ensures FatListing.At(g, d, Entry(Data(c, 0), 64))[0] == 0
  {
    hide SectorBytes;
  }

  lemma DotAfter(x: FatListing.Reading, dots: nat, cluster: nat)
    ensures FatListing.After(x, DotBytes(dots, cluster)) == x.(lfn := false)
  {
  }

  /** Without a long name in front of them the dot entries are skipped. */
  lemma DotHidden(dots: nat, cluster: nat)
    requires 1 <= dots <= 2
    ensures DotBytes(dots, cluster)[0] == 46
    ensures forall x: FatListing.Reading :: !x.lfn ==> FatListing.Shows(x, DotBytes(dots, cluster)).None?
  {
    hide Low;
    var e := DotBytes(dots, cluster);
    assert e[0] == 46 && (forall i :: dots <= i < 11 ==> e[i] == 32) && (dots == 2 ==> e[1] == 46);
    assert FatListing.Part(e, dots, 8) == [];
    if dots == 1 {
      assert FatListing.Part(e, 0, 8) == [46] + FatListing.Part(e, 1, 8) == [46];
    } else {
      assert FatListing.Part(e, 0, 8) == [46] + FatListing.Part(e, 1, 8);
      assert FatListing.Part(e, 1, 8) == [46] + FatListing.Part(e, 2, 8) == [46];
      assert FatListing.Part(e, 0, 8) == [46, 46];
    }
    DotText();
    assert FatListing.Part(e, 0, 8) + [] == FatListing.Part(e, 0, 8);
    assert FatListing.IsDot(FatListing.ShortName(e));
  }

  lemma DotText()
    ensures FatNames.Text([46]) == [46] && FatNames.Text([46, 46]) == [46, 46]
  {
    assert [46][1..] == [] && [46, 46][1..] == [46];
    assert FatNames.Text([46 as byte]) == [46];
  }

  /** Every short name that a creation tries has been given away. */
  ghost predicate NoShort(g: Geometry, d: Disk, slots: seq<Ref>) {
    forall n: nat :: 1 <= n < 65536 ==> FatLookup.Taken(FatListing.View(g, d, slots), FatLookup.ShortFor(n))
  }

  /** The directory is small enough to be searched after it has grown, or, where it cannot grow, has the room. */
  ghost predicate Spacious(g: Geometry, d: Disk, ch: seq<nat>, need: nat) {
    if ch == [] then |Slots(g, ch)| <= LIMIT && Roomy(g, d, Slots(g, ch), need) else |Slots(g, ch)| + 2 * PerCluster(g) <= LIMIT
  }

  lemma NotSpacious(g: Geometry, d: Disk, was: seq<nat>, ch: seq<nat>, k: nat, need: nat)
    requires ValidGeometry(g) && was != [] && was <= ch && |ch| <= |was| + 2 && k < |ch|
    requires |ChainSlots(g, ch[..k]) + ClusterSlots(g, ch[k], g.spc)| > LIMIT || k >= LIMIT
    ensures !Spacious(g, d, was, need)
  {
    hide Roomy, ClusterSlots, ChainSlots, ValidGeometry, PerCluster;
    NextSlots(g, ch, k);
    ChainTotal(g, ch[..k + 1]);
    ChainTotal(g, was);
    ChainSlotsAre(g, was);
    SomeSlots(g);
    hide Slots;
    Multiples(k + 1, |was| + 2, PerCluster(g));
    TwoMore(|was|, PerCluster(g));
    Multiples(1, PerCluster(g), k + 1);
  }

  lemma TwoMore(n: nat, per: nat)
    ensures (n + 2) * per == n * per + 2 * per
  {
  }

  lemma SomeSlots(g: Geometry)
    requires ValidGeometry(g)
    ensures PerCluster(g) >= 1
  {
    ValidSector(g);
    Multiples(1, g.sector / 32, g.spc);
  }

  lemma NotSpaciousRoot(g: Geometry, d: Disk, need: nat)
    requires !Roomy(g, d, Slots(g, []), need) || |Slots(g, [])| > LIMIT
    ensures !Spacious(g, d, [], need)
  {
    hide Roomy, Slots;
  }

  lemma SpaciousChain(g: Geometry, d: Disk, d1: Disk, ch: seq<nat>, need: nat)
    requires ch != []
    ensures Spacious(g, d, ch, need) <==> Spacious(g, d1, ch, need)
  {
    hide Roomy, Slots;
  }

  /** A valid FSInfo sector has lost its two free-count hints and nothing else; any other is as it was. */
  predicate HintDropped(was: seq<byte>, now: seq<byte>) {
    |was| == |now| && |was| >= 512 && forall k :: 0 <= k < |was| ==>
      now[k] == if 488 <= k < 496 && Rd32(was, 0) == 0x41615252 && Rd32(was, 484) == 0x61417272 && Rd32(was, 508) == 0xaa550000 then 255 else was[k]
  }

  ghost predicate HintsDropped(g: Geometry, was: Disk, now: Disk, n: nat) {
    && (forall a: Addr :: !a.Info? ==> SectorBytes(g, now, a) == SectorBytes(g, was, a))
    && (forall k: nat :: k < n ==> HintDropped(SectorBytes(g, was, Info(k)), SectorBytes(g, now, Info(k))))
  }

  lemma HintsFrom(g: Geometry, was: Disk, flushed: Disk, now: Disk, n: nat)
    requires HintsDropped(g, flushed, now, n) && flushed.sectors == was.sectors
    ensures HintsDropped(g, was, now, n)
  {
    hide HintDropped;
    assert forall a :: SectorBytes(g, flushed, a) == SectorBytes(g, was, a);
  }

  class FatVolume {
    const g: Geometry
    /** Every request to the device succeeds. */
    const healthy: bool
    var disk: Disk
    var cache: seq<Cell>
    var used: set<nat>
    var dirty: set<nat>
    var freeClusters: nat
    var allocHint: nat
    var writeFailed: bool
    ghost var history: seq<Disk>

    /** Outside the dirty sectors the cache is what the written copies hold. */
    ghost predicate Synced()
      reads this`cache, this`disk, this`dirty
    {
      |cache| == Limit(g) && |disk.fat| == g.copies && (forall f :: 0 <= f < |disk.fat| ==> |disk.fat[f]| == Limit(g)) &&
      forall f: nat, c: nat :: Written(g, f) && c < Limit(g) && SectorOf(g, c) !in dirty ==> disk.fat[f][c] == cache[c]
    }

    ghost predicate Valid()
      reads this`cache, this`disk, this`dirty, this`allocHint, this`history
    {
      && ValidGeometry(g) && ValidDisk(g, disk) && Synced() && 2 <= allocHint < Limit(g)
      && (forall s :: s in dirty ==> s < g.fatSectors)
      && history != [] && history[|history| - 1] == disk
    }

    /** Between operations. */
    ghost predicate Idle(files: map<Ref, seq<nat>>)
      reads this`cache, this`disk, this`dirty, this`allocHint, this`history, this`used, this`freeClusters
    {
      && Valid() && Consistent(g, disk, files) && dirty == {} && used == Owned(files)
      && Accounted(g, cache, used, freeClusters) && Clean(g, cache[1].value) && cache[1].value <= Eoc(g)
    }

    /** The disk is intact, its objects are these, and no cluster in use is lost. */
    ghost predicate Sound(skip: Ref -> bool, files: map<Ref, seq<nat>>)
      reads this`disk
    {
      g.active < |disk.fat| && FatIntact.Intact(g, disk, skip, files) && NothingLost(g, Fat(g, disk), files)
    }

    /** fat_prepare_write on a volume that has not been audited yet; skip picks the names . and .. . */
    method Prepare(skip: Ref -> bool) returns (e: Error, ghost files: map<Ref, seq<nat>>)
      requires ValidGeometry(g) && ValidDisk(g, disk) && CellsFit(g, disk) && history != [] && history[|history| - 1] == disk
      modifies this`cache, this`used, this`dirty, this`freeClusters, this`allocHint
      ensures e == Ok ==> Idle(files) && Closed(g, disk, skip, files) && !writeFailed && Loadable(g, disk) && Sound(skip, files)
      ensures healthy ==> (e == Ok <==> !writeFailed && Loadable(g, disk) && exists f :: Sound(skip, f))
    {
      hide Closed, Found, Consistent, Accounted, CellsFit, Clean, Synced, ValidGeometry, ValidDisk, Loadable, Sound;
      files := map[];
      e := Load();
      if e == Ok {
        e, files := Examine(skip);
      }
    }

    /** The objects of a sound volume. */
    ghost function ObjectsOf(skip: Ref -> bool): (files: map<Ref, seq<nat>>)
      reads this`disk
      ensures (exists f :: Sound(skip, f)) ==> Sound(skip, files)
    {
      if exists f :: Sound(skip, f) then var f :| Sound(skip, f); f else map[]
    }

    /** The audit, and the sweep over the table that counts what is free. */
    method Examine(skip: Ref -> bool) returns (e: Error, ghost files: map<Ref, seq<nat>>)
      requires ValidGeometry(g) && ValidDisk(g, disk) && cache == Fat(g, disk)
      modifies this`used, this`freeClusters
      ensures e == Ok ==> Consistent(g, disk, files) && Closed(g, disk, skip, files) && used == Owned(files)
      ensures e == Ok ==> Accounted(g, cache, used, freeClusters) && Sound(skip, files)
      ensures healthy && (exists f :: Sound(skip, f)) ==> e == Ok
      ensures e in {Ok, EIO, E2BIG}
    {
      assert g.active < |disk.fat| && |cache| == Limit(g);
      hide Closed, Found, Consistent, Accounted, ValidGeometry, ValidDisk, FatIntact.Intact, NothingLost;
      ghost var whole := ObjectsOf(skip);
      var audit := new Audit(g, disk, skip, healthy, whole);
      var outcome := audit.Run();
      if outcome != Fine {
        return if outcome == TooBig then E2BIG else EIO, map[];
      }
      files, used := audit.files, audit.used;
      FatIntact.IntactFacts(g, disk, skip, files);
      FoundFacts(g, disk, files, used);
      var ok, free := Sweep(g, cache, used);
      freeClusters := free;
      if !ok {
        Lost(g, cache, files);
        return EIO, files;
      }
      NoneLost(g, cache, used, free, files);
      return Ok, files;
    }

    /** Read the active FAT and check its header, its clean mark and its mirror. */
    method Load() returns (e: Error)
      requires ValidGeometry(g) && ValidDisk(g, disk) && CellsFit(g, disk) && history != [] && history[|history| - 1] == disk
      modifies this`cache, this`dirty, this`allocHint
      ensures e in {Ok, EIO, EROFS} && (healthy ==> (e == Ok <==> !writeFailed && Loadable(g, disk)))
      ensures e == Ok ==> Valid() && cache == Fat(g, disk) && dirty == {} && !writeFailed && Loadable(g, disk)
      ensures e == EROFS ==> writeFailed || !Loadable(g, disk)
      ensures e == Ok ==> |cache| == Limit(g) && Clean(g, cache[1].value) && cache[1].value <= Eoc(g)
    {
      hide Clean, SectorOf;
      if writeFailed {
        return EROFS;
      }
      var readable := Answers(healthy);
      if !readable {
        return EIO;
      }
      cache, dirty, allocHint := Fat(g, disk), {}, 2;
      if cache[0].value != (if g.wide then 0x0fff_ff00 else 0xff00) + g.media {
        return EIO;
      }
      if !Clean(g, cache[1].value) || !NoHardError(g, cache[1].value) {
        return EROFS;
      }
      if g.mirrored && g.copies > 1 && disk.fat[1] != cache {
        return EIO;
      }
      return Ok;
    }

    method CacheSet(c: nat, value: nat)
      requires Valid() && c < Limit(g) && value <= Eoc(g)
      modifies this`cache, this`dirty
      ensures Valid()
      ensures cache == old(cache)[c := Cell(old(cache)[c].high, value)]
      ensures dirty == old(dirty) + {SectorOf(g, c)}
    {
      hide ValidDisk, SectorOf;
      SectorInFat(g, c);
      cache := cache[c := Cell(cache[c].high, value)];
      dirty := dirty + {SectorOf(g, c)};
    }

    method VolumeWrite(w: Write) returns (e: Error)
      modifies this`disk, this`history, this`writeFailed
      ensures (e == EROFS <==> old(writeFailed)) && (healthy && !old(writeFailed) ==> e == Ok)
      ensures e == Ok ==> !writeFailed && disk == Apply(g, old(disk), w) && history == old(history) + [disk]
      ensures e != Ok ==> writeFailed
      ensures e != Ok ==>
        (disk == old(disk) && history == old(history)) || (disk == Apply(g, old(disk), w) && history == old(history) + [disk])
      ensures e in {Ok, EIO, EROFS}
    {
      hide *;
      if writeFailed {
        return EROFS;
      }
      var reported := Answers(healthy);
      var reached := true;
      if !reported {
        reached := *;
      }
      if reached {
        disk := Apply(g, disk, w);
        history := history + [disk];
      }
      if reported {
        return Ok;
      }
      writeFailed := true;
      return EIO;
    }

    method VolumeFlush() returns (e: Error)
      modifies this`writeFailed
      ensures e == Ok ==> writeFailed == old(writeFailed)
      ensures e != Ok ==> writeFailed && e == EIO && !healthy
    {
      var reported := Answers(healthy);
      if reported {
        return Ok;
      }
      writeFailed := true;
      return EIO;
    }

    /** Writing the cache can never show a table that is marked clean and incomplete. */
    ghost predicate FlushSafe(files: map<Ref, seq<nat>>)
      reads this`cache, this`disk, this`dirty
    {
      && |cache| == Limit(g) && g.active < |disk.fat| && 1 < |Fat(g, disk)|
      && (Clean(g, cache[1].value) ==> dirty <= {0} && NothingLost(g, cache, files))
      && (!Clean(g, cache[1].value) ==> 0 in dirty || !Clean(g, Fat(g, disk)[1].value))
    }

    ghost predicate SectorSynced(f: nat, s: nat)
      reads this`cache, this`disk
    {
      && f < |disk.fat| && |disk.fat[f]| == |cache|
      && forall c: nat :: c < |cache| && SectorOf(g, c) == s ==> disk.fat[f][c] == cache[c]
    }

    method FlushCopy(f: nat, s: nat, ghost b: Disk, ghost files: map<Ref, seq<nat>>) returns (e: Error)
      requires Valid() && s in dirty && FlushSafe(files) && (s != 0 ==> 0 !in dirty) && Written(g, f)
      requires Phase(g, b, files, disk) && CacheKeeps(g, b, files, cache)
      modifies this`disk, this`history, this`writeFailed
      ensures Valid() && Phase(g, b, files, disk) && Trail(g, old(history), history, b, files)
      ensures disk.sectors == old(disk).sectors && FlushSafe(files)
      ensures forall k: nat :: k < g.copies && k != f ==> disk.fat[k] == old(disk).fat[k]
      ensures if e == Ok then (writeFailed ==> old(writeFailed)) && SectorSynced(f, s) else writeFailed
      ensures e in {Ok, EIO, EROFS} && (e == EROFS ==> old(writeFailed)) && (healthy && !old(writeFailed) ==> e == Ok)
    {
      hide Phase, CacheKeeps, NothingLost, Clean, SectorOf, Spliced;
      ghost var before := disk;
      ghost var after := Apply(g, disk, FatWrite(f, s, cache));
      AppliedCells(g, disk, f, s, cache);
      if f == g.active {
        SpliceSafe(g, Fat(g, disk), cache, dirty, s, files);
      }
      FatWriteKeeps(g, b, files, disk, f, s, cache);
      e := VolumeWrite(FatWrite(f, s, cache));
      FlushedCells(g, before, after, cache, dirty, files, f, s);
      assert disk == before || disk == after;
    }

    /** Every copy of one dirty sector, from a copy on. */
    method FlushSector(s: nat, from: nat, ghost b: Disk, ghost files: map<Ref, seq<nat>>) returns (e: Error)
      requires Valid() && s in dirty && FlushSafe(files) && (s != 0 ==> 0 !in dirty) && from <= 1
      requires from == 1 ==> SectorSynced(g.active, s)
      requires Phase(g, b, files, disk) && CacheKeeps(g, b, files, cache)
      modifies this`disk, this`history, this`writeFailed, this`dirty
      ensures Valid() && Phase(g, b, files, disk) && Trail(g, old(history), history, b, files)
      ensures disk.sectors == old(disk).sectors && FlushSafe(files)
      ensures if e == Ok then dirty == old(dirty) - {s} && (writeFailed ==> old(writeFailed)) else writeFailed && dirty == old(dirty)
      ensures e in {Ok, EIO, EROFS} && (e == EROFS ==> old(writeFailed)) && (healthy && !old(writeFailed) ==> e == Ok)
    {
      hide Phase, CacheKeeps, NothingLost, Clean, SectorOf, ValidDisk, ValidGeometry;
      assert ValidGeometry(g) && ValidDisk(g, disk);
      GeometryCopies(g);
      var i := from;
      var last := if g.mirrored then g.copies else 1;
      while i < last
        invariant 0 <= i <= last
        invariant Valid() && FlushSafe(files) && dirty == old(dirty) && (writeFailed ==> old(writeFailed))
        invariant Phase(g, b, files, disk) && Trail(g, old(history), history, b, files)
        invariant disk.sectors == old(disk).sectors
        invariant forall f: nat :: Written(g, f) && (f < i || (!g.mirrored && i > 0)) ==> SectorSynced(f, s)
      {
        var f := if g.mirrored then i else g.active;
        ghost var before := history;
        e := FlushCopy(f, s, b, files);
        TrailJoin(g, old(history), before, history, b, files);
        if e != Ok {
          return;
        }
        i := i + 1;
      }
      dirty := dirty - {s};
      FirstSector(g);
      return Ok;
    }

    method FlushCache(ghost b: Disk, ghost files: map<Ref, seq<nat>>) returns (e: Error)
      requires Valid() && FlushSafe(files) && Phase(g, b, files, disk) && CacheKeeps(g, b, files, cache)
      modifies this`disk, this`history, this`writeFailed, this`dirty
      ensures Valid() && Phase(g, b, files, disk) && Trail(g, old(history), history, b, files)
      ensures disk.sectors == old(disk).sectors
      ensures if e == Ok then dirty == {} && (writeFailed ==> old(writeFailed)) else writeFailed
      ensures e in {Ok, EIO, EROFS} && (e == EROFS ==> old(writeFailed)) && (healthy && !old(writeFailed) ==> e == Ok)
    {
      hide Phase, CacheKeeps, NothingLost, Clean, SectorOf, Spliced, Synced, ValidDisk, ValidGeometry;
      var s := 0;
      while s < g.fatSectors
        invariant 0 <= s <= g.fatSectors
        invariant Valid() && FlushSafe(files) && (writeFailed ==> old(writeFailed))
        invariant Phase(g, b, files, disk) && Trail(g, old(history), history, b, files)
        invariant disk.sectors == old(disk).sectors
        invariant forall x :: x in dirty ==> s <= x
      {
        if s in dirty {
          ghost var before := history;
          e := FlushSector(s, 0, b, files);
          TrailJoin(g, old(history), before, history, b, files);
          if e != Ok {
            return;
          }
        }
        s := s + 1;
      }
      assert dirty == {};
      e := VolumeFlush();
    }

    /** Clear the clean bit on disk and drop the free-count hints before anything else is written. */
    method BeginWrite(ghost b: Disk, ghost files: map<Ref, seq<nat>>) returns (e: Error)
      requires Idle(files) && b == disk && !writeFailed
      modifies this`disk, this`history, this`writeFailed, this`dirty, this`cache
      ensures Valid() && Phase(g, b, files, disk) && Trail(g, old(history), history, b, files)
      ensures cache == old(cache)[1 := Cell(old(cache)[1].high, MarkDirty(g, old(cache)[1].value))]
      ensures if e == Ok then dirty == {} && !writeFailed else writeFailed || e == EIO
      ensures e in {Ok, EIO} && (healthy ==> e == Ok)
      ensures e == Ok ==> HintsDropped(g, old(disk), disk, g.infos) && !Clean(g, Fat(g, disk)[1].value)
    {
      hide NothingLost, Clean, SectorOf, Spliced, MarkDirty, IsChain, EntryOk, Housed, Disjoint, SectorBytes;
      IdlePhase(files);
      assert Phase(g, b, files, disk) && CacheKeeps(g, b, files, cache);
      CleanMarks(g, cache[1].value);
      FirstSector(g);
      hide Idle, Consistent, Phase, SameOn, HintsDropped;
      assert Valid();
      CacheSet(1, MarkDirty(g, cache[1].value));
      CacheKeepsMark(g, b, files, old(cache), cache);
      e := FlushCache(b, files);
      if e != Ok {
        return;
      }
      ghost var before, flushed := history, disk;
      e := DropHints(b, files);
      TrailJoin(g, old(history), before, history, b, files);
      if e == Ok {
        SyncedFat();
        HintsFrom(g, old(disk), flushed, disk, g.infos);
      }
    }

    method DropHints(ghost b: Disk, ghost files: map<Ref, seq<nat>>) returns (e: Error)
      requires Valid() && Phase(g, b, files, disk) && !writeFailed
      modifies this`disk, this`history, this`writeFailed
      ensures Valid() && Phase(g, b, files, disk) && Trail(g, old(history), history, b, files)
      ensures disk.fat == old(disk).fat
      ensures if e == Ok then !writeFailed else writeFailed || e == EIO
      ensures e in {Ok, EIO} && (healthy ==> e == Ok)
      ensures e == Ok ==> HintsDropped(g, old(disk), disk, g.infos)
    {
      hide Phase, Synced, ValidDisk, ValidGeometry, HintDropped, SectorBytes;
      var i := 0;
      while i < g.infos
        invariant 0 <= i <= g.infos && Valid() && Phase(g, b, files, disk) && Trail(g, old(history), history, b, files)
        invariant !writeFailed && disk.fat == old(disk).fat && HintsDropped(g, old(disk), disk, i)
        invariant forall k: nat :: k >= i ==> SectorBytes(g, disk, Info(k)) == SectorBytes(g, old(disk), Info(k))
      {
        ghost var before := history;
        e := DropHint(i, b, files);
        TrailJoin(g, old(history), before, history, b, files);
        if e != Ok {
          return;
        }
        i := i + 1;
      }
      e := VolumeFlush();
    }

    /** Set both free-count hints of a valid FSInfo sector to unknown. */
    method DropHint(i: nat, ghost b: Disk, ghost files: map<Ref, seq<nat>>) returns (e: Error)
      requires Valid() && Phase(g, b, files, disk)
      modifies this`disk, this`history, this`writeFailed
      ensures Valid() && Phase(g, b, files, disk) && Trail(g, old(history), history, b, files)
      ensures disk.fat == old(disk).fat
      ensures if e == Ok then writeFailed ==> old(writeFailed) else writeFailed || e == EIO
      ensures e in {Ok, EIO, EROFS} && (e == EROFS ==> old(writeFailed)) && (healthy && !old(writeFailed) ==> e == Ok)
      ensures forall a :: a != Info(i) ==> SectorBytes(g, disk, a) == SectorBytes(g, old(disk), a)
      ensures e == Ok ==> HintDropped(SectorBytes(g, old(disk), Info(i)), SectorBytes(g, disk, Info(i)))
    {
      hide Phase, Synced;
      var readable := Answers(healthy);
      if !readable {
        return EIO;
      }
      var sector := SectorBytes(g, disk, Info(i));
      assert |sector| == g.sector >= 512;
      if Rd32(sector, 0) != 0x41615252 || Rd32(sector, 484) != 0x61417272 || Rd32(sector, 508) != 0xaa550000 {
        return Ok;
      }
      var hints := seq(8, k => 0xff as byte);
      ghost var before := disk;
      SectorWriteKeeps(g, b, files, disk, Info(i), Patched(sector, 488, hints));
      e := VolumeWrite(SectorWrite(Info(i), Patched(sector, 488, hints)));
      SyncedAfter(before);
    }

    twostate lemma SyncedAfter(new before: Disk)
      requires old(Valid()) && cache == old(cache) && dirty == old(dirty) && before == old(disk)
      requires disk.fat == old(disk.fat)
      ensures Synced()
    {
    }

    lemma IdlePhase(files: map<Ref, seq<nat>>)
      requires Idle(files)
      ensures Phase(g, disk, files, disk) && CacheKeeps(g, disk, files, cache) && cache == Fat(g, disk)
      ensures NothingLost(g, cache, files)
    {
      hide Clean, SectorOf, IsChain, EntryOk, Housed, Disjoint, SectorBytes;
      assert cache == Fat(g, disk) by {
        assert Written(g, g.active);
      }
    }

    /** A free cluster becomes a chain of its own; 0 exactly when there is none. */
    method Allocate() returns (c: nat)
      requires Valid() && Accounted(g, cache, used, freeClusters)
      modifies this`cache, this`dirty, this`used, this`freeClusters, this`allocHint
      ensures Valid() && Accounted(g, cache, used, freeClusters)
      ensures c == 0 <==> old(freeClusters) == 0
      ensures c == 0 ==> cache == old(cache) && used == old(used) && freeClusters == old(freeClusters)
      ensures c != 0 ==>
        && InRange(g, c) && old(cache)[c].value == 0 && c !in old(used)
        && cache == old(cache)[c := Cell(old(cache)[c].high, Eoc(g))] && dirty == old(dirty) + {SectorOf(g, c)}
        && used == old(used) + {c} && freeClusters == old(freeClusters) - 1
    {
      hide SectorOf, Synced, ValidDisk, FreeCells;
      var start, wrapped, i := allocHint, false, 0;
      while i < g.clusters
        invariant 0 <= i <= g.clusters && Valid()
        invariant cache == old(cache) && used == old(used) && dirty == old(dirty) && freeClusters == old(freeClusters)
        invariant if wrapped then allocHint <= start && i == Limit(g) - start + allocHint - 2 else i == allocHint - start
        invariant forall x: nat :: (if wrapped then start <= x < Limit(g) || 2 <= x < allocHint else start <= x < allocHint) ==>
          cache[x].value != 0
      {
        c := allocHint;
        allocHint := allocHint + 1;
        if allocHint == Limit(g) {
          allocHint := 2;
          wrapped := true;
        }
        if cache[c].value == 0 {
          FreeTaken(g, cache, c, Cell(cache[c].high, Eoc(g)));
          CacheSet(c, Eoc(g));
          used := used + {c};
          freeClusters := freeClusters - 1;
          return;
        }
        i := i + 1;
      }
      NoFree(g, cache);
      return 0;
    }

    /** A cluster holds the bytes and zeros after them. */
    method WriteData(c: nat, bytes: seq<byte>, ghost b: Disk, ghost files: map<Ref, seq<nat>>) returns (e: Error)
      requires Valid() && Phase(g, b, files, disk) && c !in Owned(files) && |bytes| <= ClusterSize(g)
      modifies this`disk, this`history, this`writeFailed
      ensures Valid() && Phase(g, b, files, disk) && Trail(g, old(history), history, b, files)
      ensures disk.fat == old(disk).fat
      ensures forall x, i :: x != c ==> SectorBytes(g, disk, Data(x, i)) == SectorBytes(g, old(disk), Data(x, i))
      ensures if e == Ok then (writeFailed ==> old(writeFailed)) && ClusterBytes(g, disk, c) == bytes + Zeros(ClusterSize(g) - |bytes|)
              else writeFailed
      ensures e in {Ok, EIO, EROFS} && (e == EROFS ==> old(writeFailed)) && (healthy && !old(writeFailed) ==> e == Ok)
    {
      hide Phase, Synced, SectorBytes, ClusterSize, Sectors, Owned, Trail, ValidDisk, ValidGeometry, ClusterPart;
      var s, at := 0, 0;
      SectorsStep(g, 0);
      NoPart(g, disk, c);
      TrailNone(g, history, b, files);
      while s < g.spc
        invariant 0 <= s <= g.spc && 0 <= at <= |bytes| && at <= Sectors(g, s) && (at < |bytes| ==> at == Sectors(g, s))
        invariant Valid() && Phase(g, b, files, disk) && Trail(g, old(history), history, b, files)
        invariant disk.fat == old(disk).fat && (writeFailed ==> old(writeFailed))
        invariant forall x, i :: x != c ==> SectorBytes(g, disk, Data(x, i)) == SectorBytes(g, old(disk), Data(x, i))
        invariant ClusterPart(g, disk, c, s) == bytes[..at] + Zeros(Sectors(g, s) - at)
      {
        var n := if |bytes| - at < g.sector then |bytes| - at else g.sector;
        var sector := bytes[at..at + n] + Zeros(g.sector - n);
        PadStep(bytes, at, n, Sectors(g, s), g.sector);
        SectorsStep(g, s);
        ghost var before, h := disk, history;
        e := WriteSector(c, s, sector, b, files);
        TrailJoin(g, old(history), h, history, b, files);
        SameParts(g, before, disk, c, s);
        if e != Ok {
          return;
        }
        PartStep(g, disk, c, s);
        at := at + n;
        s := s + 1;
      }
      SectorsStep(g, s);
      return Ok;
    }

    method WriteSector(c: nat, s: nat, sector: seq<byte>, ghost b: Disk, ghost files: map<Ref, seq<nat>>) returns (e: Error)
      requires Valid() && Phase(g, b, files, disk) && c !in Owned(files) && |sector| == g.sector
      modifies this`disk, this`history, this`writeFailed
      ensures Valid() && Phase(g, b, files, disk) && Trail(g, old(history), history, b, files)
      ensures disk.fat == old(disk).fat
      ensures forall a :: a != Data(c, s) ==> SectorBytes(g, disk, a) == SectorBytes(g, old(disk), a)
      ensures if e == Ok then (writeFailed ==> old(writeFailed)) && SectorBytes(g, disk, Data(c, s)) == sector else writeFailed
      ensures e in {Ok, EIO, EROFS} && (e == EROFS ==> old(writeFailed)) && (healthy && !old(writeFailed) ==> e == Ok)
    {
      hide Phase, Synced;
      ghost var before := disk;
      SectorWriteKeeps(g, b, files, disk, Data(c, s), sector);
      e := VolumeWrite(SectorWrite(Data(c, s), sector));
      SyncedAfter(before);
    }

    /** A replacement in progress: ch is the new chain so far, beside the objects on the disk. */
    ghost predicate Building(b: Disk, files: map<Ref, seq<nat>>, ch: seq<nat>)
      reads this`cache, this`used, this`freeClusters
    {
      && Accounted(g, cache, used, freeClusters) && used == Owned(files) + Elements(ch)
      && (forall c :: c in ch ==> c !in Owned(files)) && (ch != [] ==> IsChain(g, cache, ch))
      && CacheKeeps(g, b, files, cache) && !Clean(g, cache[1].value) && cache[1].value <= Eoc(g)
    }

    /** Take a cluster and link it behind the chain. */
    method Append(last: nat, ghost b: Disk, ghost files: map<Ref, seq<nat>>, ghost ch: seq<nat>) returns (c: nat)
      requires Valid() && Building(b, files, ch) && (last == 0 <==> ch == []) && (ch != [] ==> last == ch[|ch| - 1])
      modifies this`cache, this`dirty, this`used, this`freeClusters, this`allocHint
      ensures Valid() && (c == 0 <==> old(freeClusters) == 0)
      ensures c == 0 ==> Building(b, files, ch)
      ensures c != 0 ==> InRange(g, c) && c !in ch && c !in Owned(files) && Building(b, files, ch + [c])
      ensures c != 0 ==> freeClusters == old(freeClusters) - 1
    {
      hide SectorOf, Synced, ValidDisk, FreeCells, Clean, IsChain, Owned, CacheKeeps, ValidGeometry;
      c := Allocate();
      if c != 0 {
        LinkKept(g, old(cache), old(used), c, last, b, files, ch);
        if last != 0 {
          FreeSame(g, cache, last, Cell(cache[last].high, c));
          CacheSet(last, c);
        }
        assert Elements(ch + [c]) == Elements(ch) + {c};
      }
    }

    /** fat_replace_locked's loop: the data in replacement clusters, linked in the cache. */
    method Fill(data: seq<byte>, count: nat, ghost b: Disk, ghost files: map<Ref, seq<nat>>)
      returns (e: Error, first: nat, ghost ch: seq<nat>)
      requires Valid() && Building(b, files, []) && Phase(g, b, files, disk) && count == Needed(g, |data|) && !writeFailed
      modifies this`disk, this`history, this`writeFailed, this`cache, this`dirty, this`used, this`freeClusters, this`allocHint
      ensures Valid() && Phase(g, b, files, disk) && Trail(g, old(history), history, b, files)
      ensures Building(b, files, ch) && first == if ch == [] then 0 else ch[0]
      ensures e == Ok ==> !writeFailed && |ch| == count && data <= ChainBytes(g, disk, ch)
      ensures e == ENOMEM ==> old(freeClusters) < count
      ensures e in {Ok, EIO, ENOMEM} && (healthy && count <= old(freeClusters) ==> e == Ok)
    {
      hide Phase, Synced, ValidDisk, Building, SectorBytes, ChainBytes, Needed, ClusterSize, Clusters, ClusterBytes;
      first, ch := 0, [];
      var last, offset, i := 0, 0, 0;
      NeededSteps(g, |data|, 0);
      assert ChainBytes(g, disk, []) == [] by { EmptyChain(g, disk); }
      while i < count
        invariant 0 <= i <= count && |ch| == i && offset <= |data|
        invariant offset == if i < count then Clusters(g, i) else |data|
        invariant Valid() && Phase(g, b, files, disk) && Trail(g, old(history), history, b, files) && !writeFailed
        invariant Building(b, files, ch) && first == (if ch == [] then 0 else ch[0])
        invariant (last == 0 <==> ch == []) && (ch != [] ==> last == ch[|ch| - 1])
        invariant freeClusters + i == old(freeClusters)
        invariant data[..offset] <= ChainBytes(g, disk, ch) && |ChainBytes(g, disk, ch)| == Clusters(g, i)
      {
        var c := Append(last, b, files, ch);
        if c == 0 {
          return ENOMEM, first, ch;
        }
        NeededSteps(g, |data|, i);
        var n := if ClusterSize(g) < |data| - offset then ClusterSize(g) else |data| - offset;
        ghost var before, h := disk, history;
        e := WriteData(c, data[offset..offset + n], b, files);
        TrailJoin(g, old(history), h, history, b, files);
        if last == 0 {
          first := c;
        }
        ChainBytesSame(g, before, disk, ch);
        ChainBytesJoin(g, disk, ch, c);
        Extended(data, offset, n, ChainBytes(g, disk, ch), ClusterBytes(g, disk, c));
        last, ch := c, ch + [c];
        if e != Ok {
          return;
        }
        offset := offset + n;
        i := i + 1;
      }
      return Ok, first, ch;
    }

    /** Give every cluster of a chain back. */
    method FreeChain(first: nat, ghost b: Disk, ghost files: map<Ref, seq<nat>>, ghost ch: seq<nat>)
      requires Valid() && Building(b, files, ch) && (first == 0 <==> ch == []) && (ch != [] ==> first == ch[0])
      modifies this`cache, this`dirty, this`used, this`freeClusters
      ensures Valid() && Building(b, files, [])
    {
      hide SectorOf, Synced, ValidDisk, ValidGeometry, FreeCells, Clean, IsChain, Owned, CacheKeeps, IsEnd;
      ghost var rest := ch;
      var cur := first;
      while cur != 0
        invariant Valid() && Building(b, files, rest) && (cur == 0 <==> rest == []) && (rest != [] ==> cur == rest[0])
        decreases |rest|
      {
        UnlinkKept(g, cache, used, b, files, rest);
        var next := cache[cur].value;
        FreeGiven(g, cache, cur, Cell(cache[cur].high, 0));
        CacheSet(cur, 0);
        used := used - {cur};
        freeClusters := freeClusters + 1;
        rest := rest[1..];
        if IsEnd(g, next) {
          break;
        }
        cur := next;
      }
    }

    /** fat_entry_write of a whole entry. */
    method EntryWrite(r: Ref, entry: seq<byte>) returns (e: Error)
      requires Valid() && HasEntry(g, disk, r) && |entry| == 32
      modifies this`disk, this`history, this`writeFailed
      ensures Valid() && disk.fat == old(disk).fat
      ensures disk == old(disk) || disk == WithEntry(g, old(disk), r, entry)
      ensures history == if disk == old(disk) && |history| == |old(history)| then old(history) else old(history) + [disk]
      ensures e == Ok ==> disk == WithEntry(g, old(disk), r, entry) && history == old(history) + [disk]
      ensures if e == Ok then (writeFailed ==> old(writeFailed)) else writeFailed || e == EIO
      ensures e in {Ok, EIO, EROFS} && (e == EROFS ==> old(writeFailed)) && (healthy && !old(writeFailed) ==> e == Ok)
    {
      hide Synced, Patched;
      var readable := Answers(healthy);
      if !readable {
        return EIO;
      }
      WithEntrySectors(g, disk, r, entry);
      ghost var before := disk;
      e := VolumeWrite(SectorWrite(r.addr, Patched(SectorBytes(g, disk, r.addr), r.at, entry)));
      SyncedAfter(before);
    }

    /** Set the clean bit again, or freeze the volume after a failure. */
    method FinishWrite(failed: Error, ghost b: Disk, ghost files: map<Ref, seq<nat>>) returns (e: Error)
      requires Valid() && (failed == Ok ==> !writeFailed)
      requires failed == Ok ==> Consistent(g, b, files) && Phase(g, b, files, disk) && Building(b, files, []) && dirty == {}
      modifies this`disk, this`history, this`writeFailed, this`dirty, this`cache
      ensures Valid() && (e == Ok <==> !writeFailed) && (failed != Ok ==> e == failed && history == old(history) && disk == old(disk))
      ensures failed == Ok ==> Phase(g, b, files, disk) && Trail(g, old(history), history, b, files)
      ensures e == Ok ==> failed == Ok && Idle(files)
      ensures e in {failed, Ok, EIO} && (healthy && failed == Ok ==> e == Ok)
    {
      hide Phase, Clean, SectorOf, Synced, ValidDisk, FreeCells, IsChain, Owned, MarkClean, Consistent;
      if failed != Ok {
        writeFailed := true;
        return failed;
      }
      CleanMarks(g, cache[1].value);
      FirstSector(g);
      CacheKeepsMark(g, b, files, cache, cache[1 := Cell(cache[1].high, MarkClean(g, cache[1].value))]);
      FreeSame(g, cache, 1, Cell(cache[1].high, MarkClean(g, cache[1].value)));
      PhaseUnfold(g, b, files, disk);
      assert Elements([]) == {};
      CacheSet(1, MarkClean(g, cache[1].value));
      e := FlushCache(b, files);
      PhaseConsistent(g, b, files, disk);
    }

    /** The first half of a replacement: dirty mark, data and FAT. Nothing that counts is touched. */
    method Stage(data: seq<byte>, count: nat, ghost files: map<Ref, seq<nat>>) returns (e: Error, first: nat, ghost ch: seq<nat>)
      requires Idle(files) && !writeFailed && count == Needed(g, |data|) && count <= freeClusters
      modifies this`disk, this`history, this`writeFailed, this`cache, this`dirty, this`used, this`freeClusters, this`allocHint
      ensures Valid() && Phase(g, old(disk), files, disk) && Trail(g, old(history), history, old(disk), files)
      ensures e in {Ok, EIO} && (healthy ==> e == Ok)
      ensures e == Ok ==> !writeFailed && dirty == {} && Building(old(disk), files, ch) && |ch| == count
      ensures e == Ok ==> data <= ChainBytes(g, disk, ch) && first == if ch == [] then 0 else ch[0]
    {
      hide Phase, Clean, SectorOf, Synced, ValidDisk, FreeCells, IsChain, Owned, MarkDirty, Consistent, ChainBytes, Needed,
        NothingLost;
      ghost var b := disk;
      IdlePhase(files);
      CleanMarks(g, cache[1].value);
      FreeSame(g, cache, 1, Cell(cache[1].high, MarkDirty(g, cache[1].value)));
      CacheKeepsMark(g, b, files, cache, cache[1 := Cell(cache[1].high, MarkDirty(g, cache[1].value))]);
      assert Elements([]) == {};
      e := BeginWrite(b, files);
      first, ch := 0, [];
      if e != Ok {
        return;
      }
      assert Building(b, files, []);
      hide Building, Idle;
      ghost var h := history;
      e, first, ch := Fill(data, count, b, files);
      TrailJoin(g, old(history), h, history, b, files);
      if e != Ok {
        return;
      }
      e := VolumeFlush();
      if e != Ok {
        return;
      }
      h := history;
      ghost var mid := disk;
      BuildingFlushes(b, files, ch);
      e := FlushCache(b, files);
      TrailJoin(g, old(history), h, history, b, files);
      ChainBytesSame(g, mid, disk, ch);
    }

    lemma BuildingFlushes(b: Disk, files: map<Ref, seq<nat>>, ch: seq<nat>)
      requires Valid() && Building(b, files, ch)
      ensures FlushSafe(files) && CacheKeeps(g, b, files, cache)
    {
      hide Clean;
      FirstSector(g);
      if 0 !in dirty {
        GeometryCopies(g);
        assert Fat(g, disk)[1] == cache[1];
      }
    }

    /** The second half: the entry points to the new chain, the old one is freed, the volume is clean. */
    method Release(oldFirst: nat, ghost b: Disk, ghost files: map<Ref, seq<nat>>, ghost gone: seq<nat>) returns (e: Error)
      requires Valid() && Consistent(g, b, files) && Phase(g, b, files, disk) && Building(b, files, gone) && !writeFailed
      requires (oldFirst == 0 <==> gone == []) && (gone != [] ==> oldFirst == gone[0])
      modifies this`disk, this`history, this`writeFailed, this`cache, this`dirty, this`used, this`freeClusters
      ensures Valid() && Phase(g, b, files, disk) && Trail(g, old(history), history, b, files)
      ensures if e == Ok then Idle(files) && !writeFailed else writeFailed
      ensures e in {Ok, EIO} && (healthy ==> e == Ok)
    {
      hide Phase, Synced, ValidDisk, Consistent, Building, Idle;
      FreeChain(oldFirst, b, files, gone);
      BuildingFlushes(b, files, []);
      e := FlushCache(b, files);
      ghost var h := history;
      e := FinishWrite(e, b, files);
      TrailJoin(g, old(history), h, history, b, files);
    }

    /** Once the entry is written, the new chain is the object and the old one is what is left to free. */
    lemma Swapped(b: Disk, files: map<Ref, seq<nat>>, r: Ref, ch: seq<nat>, entry: seq<byte>, d: Disk)
      requires Valid() && dirty == {} && Building(b, files, ch)
      requires Consistent(g, b, files) && Phase(g, b, files, d) && Replaceable(g, d, files, r, ch, entry)
      requires disk == WithEntry(g, d, r, entry) && |ch| <= 65536
      ensures Building(disk, files[r := ch], files[r]) && Phase(g, disk, files[r := ch], disk)
      ensures Consistent(g, disk, files[r := ch])
    {
      hide Phase, Clean, SectorOf, FreeCells, IsChain, IsDirectory, FirstCluster, FileSize, LiveEntry, WithEntry, EntryOk,
        Housed, EntryBytes, HasEntry;
      PhaseConsistent(g, b, files, d);
      WithEntryConsistent(g, d, files, r, ch, entry);
      SyncedFat();
      OwnedSwap(files, r, ch);
      if files[r] != [] {
        KeptChain(g, b, files, cache, files[r]);
      }
      UncleanPhase(g, disk, files[r := ch]);
    }

    lemma SyncedFat()
      requires Valid() && dirty == {}
      ensures Fat(g, disk) == cache
    {
      hide SectorOf;
      GeometryCopies(g);
    }

    /** What stands at the entry write. */
    lemma Ready(b: Disk, files: map<Ref, seq<nat>>, r: Ref, ch: seq<nat>, data: seq<byte>)
      requires Valid() && dirty == {} && Consistent(g, b, files) && Phase(g, b, files, disk) && Building(b, files, ch)
      requires r in files && r.Entry? && HasEntry(g, b, r) && !IsDirectory(EntryBytes(g, b, r))
      requires |data| <= WRITE_MAX && |ch| == Needed(g, |data|)
      ensures HasEntry(g, disk, r) && EntryBytes(g, disk, r) == EntryBytes(g, b, r) && |ch| <= 65536
      ensures var entry := NewEntry(EntryBytes(g, b, r), if ch == [] then 0 else ch[0], |data|);
        Replaceable(g, disk, files, r, ch, entry) && FileSize(entry) == |data| && entry[..11] == EntryBytes(g, b, r)[..11]
    {
      hide Phase, Clean, SectorOf, FreeCells, IsChain, Needed, NewEntry, FirstCluster, FileSize, LiveEntry, EntryBytes,
        IsDirectory, Housed, ClusterSize;
      EntrySame(g, b, files, disk, r);
      SyncedFat();
      NeededBound(g, |data|);
      NeededHolds(g, |data|);
      if ch != [] {
        InChain(g, cache, ch, 0);
      }
      NewEntryFields(g, EntryBytes(g, b, r), if ch == [] then 0 else ch[0], |data|);
      NewEntryBytes(EntryBytes(g, b, r), if ch == [] then 0 else ch[0], |data|);
    }

    /** fat_replace_locked. */
    method Replace(r: Ref, data: seq<byte>, ghost files: map<Ref, seq<nat>>) returns (e: Error, ghost now: map<Ref, seq<nat>>)
      requires Valid() && (writeFailed || Idle(files)) && r in files && HasEntry(g, disk, r)
      modifies this`disk, this`history, this`writeFailed, this`cache, this`dirty, this`used, this`freeClusters, this`allocHint
      ensures Valid() && old(history) <= history
      ensures forall k :: |old(history)| <= k < |history| ==> CrashSafe(g, old(disk), history[k], files, r, data)
      ensures e == Ok ==> Idle(now) && !writeFailed && SameButFor(files, now, r) && ReadFile(g, disk, r) == Some(data)
      ensures e == Ok ==> StaysClosed(g, old(disk), files, disk, now) && SameListings(g, old(disk), files, disk)
      ensures e == Ok ==> HasEntry(g, disk, r) && Rewritten(EntryBytes(g, old(disk), r), EntryBytes(g, disk, r))
      ensures e != Ok && !writeFailed ==> Idle(files) && disk == old(disk) && history == old(history)
      ensures old(writeFailed) ==> e != Ok && disk == old(disk) && history == old(history)
      ensures e == E2BIG <==> |data| > WRITE_MAX
      ensures var entry := EntryBytes(g, old(disk), r); var fits, kept := |data| <= WRITE_MAX, Protected(entry);
        && (e == Ok ==> LiveEntry(entry) && !kept && !old(writeFailed))
        && (e == ENOENT ==> fits && !LiveEntry(entry)) && (healthy && fits && !LiveEntry(entry) ==> e == ENOENT)
        && (e == EROFS ==> fits && LiveEntry(entry) && (kept || old(writeFailed)))
        && (healthy && fits && LiveEntry(entry) && EntryFollows(g, entry) ==>
             (e == EROFS <==> kept || old(writeFailed)) && (e == ENOSPC <==> !kept && !old(writeFailed) && Needed(g, |data|) > old(freeClusters))
             && (e == Ok <==> !kept && !old(writeFailed) && Needed(g, |data|) <= old(freeClusters)))
      ensures e == ENOSPC ==> Needed(g, |data|) > old(freeClusters) && history == old(history)
      ensures Needed(g, |data|) > old(freeClusters) ==> e != Ok
      ensures e != ENOMEM
    {
      hide Phase, Building, Idle, Synced, ValidDisk, Consistent, NewEntry, Needed, CrashSafe, WithEntry, ReadFile, EntryBytes,
        FirstCluster, FileSize, LiveEntry, IsDirectory, Trail, HasEntry, Protected, Replaceable, ChainBytes, ValidGeometry, StaysClosed, SameListings, Rewritten;
      now := files;
      if |data| > WRITE_MAX {
        return E2BIG, now;
      }
      var readable := Answers(healthy);
      if !readable {
        return EIO, now;
      }
      var entry := EntryBytes(g, disk, r);
      if !LiveEntry(entry) {
        return ENOENT, now;
      }
      if !EntryFollows(g, entry) {
        return EIO, now;
      }
      ProtectedIs(entry);
      if entry[11] % 2 == 1 || IsDirectory(entry) || writeFailed {
        return EROFS, now;
      }
      var count := Needed(g, |data|);
      if count > freeClusters {
        return ENOSPC, now;
      }
      readable := Answers(healthy);
      if !readable {
        return EIO, now;
      }
      e, now := Exchange(r, entry, data, count, files);
    }

    /** The part of fat_replace_locked that writes. */
    method Exchange(r: Ref, entry: seq<byte>, data: seq<byte>, count: nat, ghost files: map<Ref, seq<nat>>)
      returns (e: Error, ghost now: map<Ref, seq<nat>>)
      requires Idle(files) && !writeFailed && r in files && HasEntry(g, disk, r) && entry == EntryBytes(g, disk, r)
      requires !IsDirectory(entry) && |data| <= WRITE_MAX && count == Needed(g, |data|) && count <= freeClusters
      modifies this`disk, this`history, this`writeFailed, this`cache, this`dirty, this`used, this`freeClusters, this`allocHint
      ensures Valid() && old(history) <= history
      ensures forall k :: |old(history)| <= k < |history| ==> CrashSafe(g, old(disk), history[k], files, r, data)
      ensures e == Ok ==> Idle(now) && SameButFor(files, now, r) && ReadFile(g, disk, r) == Some(data)
      ensures e == Ok ==> StaysClosed(g, old(disk), files, disk, now) && SameListings(g, old(disk), files, disk)
      ensures e == Ok <==> !writeFailed
      ensures e in {Ok, EIO} && (healthy ==> e == Ok)
      ensures e == Ok ==> HasEntry(g, disk, r) && Rewritten(EntryBytes(g, old(disk), r), EntryBytes(g, disk, r))
    {
      hide Phase, Building, Synced, ValidDisk, NewEntry, Needed, CrashSafe, WithEntry, ReadFile, EntryBytes,
        FirstCluster, FileSize, LiveEntry, IsDirectory, Trail, Replaceable, ChainBytes, ValidGeometry,
        EntryOk, Housed, IsChain, Disjoint, Accounted, Owned, Clean, StaysClosed, SameListings, Rewritten;
      ghost var b := disk;
      now := files;
      var first: nat;
      ghost var ch: seq<nat>;
      OldChain(g, b, files, r);
      var oldFirst := FirstCluster(g, entry);
      assert Consistent(g, b, files);
      hide Idle, Consistent, HasEntry;
      e, first, ch := Stage(data, count, files);
      ghost var d, h1 := disk, history;
      TrailBefore(g, b, files, old(history), h1, r, data);
      if e != Ok {
        writeFailed := true;
        return;
      }
      Ready(b, files, r, ch, data);
      NewEntryRewrites(entry, first, |data|);
      e := Publish(r, NewEntry(entry, first, |data|), oldFirst, data, b, files, ch, old(history));
      now := files[r := ch];
    }

    /** The entry write and what follows it. */
    method Publish(r: Ref, entry: seq<byte>, oldFirst: nat, data: seq<byte>,
                   ghost b: Disk, ghost files: map<Ref, seq<nat>>, ghost ch: seq<nat>, ghost start: seq<Disk>)
      returns (e: Error)
      requires Valid() && dirty == {} && !writeFailed && Building(b, files, ch) && |ch| <= 65536
      requires Consistent(g, b, files) && Phase(g, b, files, disk) && Replaceable(g, disk, files, r, ch, entry)
      requires |data| == FileSize(entry) && data <= ChainBytes(g, disk, ch) && Trail(g, start, history, b, files)
      requires entry[..11] == EntryBytes(g, disk, r)[..11]
      requires (oldFirst == 0 <==> files[r] == []) && (files[r] != [] ==> oldFirst == files[r][0])
      modifies this`disk, this`history, this`writeFailed, this`cache, this`dirty, this`used, this`freeClusters
      ensures Valid() && start <= history
      ensures forall k :: |start| <= k < |history| ==> CrashSafe(g, b, history[k], files, r, data)
      ensures e == Ok ==> Idle(files[r := ch]) && ReadFile(g, disk, r) == Some(data)
      ensures e == Ok ==> StaysClosed(g, b, files, disk, files[r := ch]) && SameListings(g, b, files, disk)
      ensures (e == Ok <==> !writeFailed) && e in {Ok, EIO} && (healthy ==> e == Ok)
      ensures e == Ok ==> HasEntry(g, disk, r) && EntryBytes(g, disk, r) == entry
    {
      hide Phase, Building, Synced, ValidDisk, CrashSafe, WithEntry, ReadFile, EntryBytes, FirstCluster, FileSize, LiveEntry,
        IsDirectory, Trail, ChainBytes, ValidGeometry, IsChain, Consistent, HasEntry, Idle, StaysClosed, SameListings;
      ghost var d, h1 := disk, history;
      e := EntryWrite(r, entry);
      if disk == WithEntry(g, d, r, entry) {
        Swapped(b, files, r, ch, entry, d);
      }
      ghost var h2 := history;
      if e == Ok {
        e := VolumeFlush();
      }
      if e == Ok {
        e := Release(oldFirst, WithEntry(g, d, r, entry), files[r := ch], files[r]);
      } else {
        writeFailed := true;
      }
      AllSafe(g, b, files, d, r, ch, entry, data, start, h1, h2, history);
      if e == Ok {
        EntryThere(g, d, files[r := ch], r, entry, disk);
        CrashAfter(g, b, d, disk, files, r, ch, entry, data);
        ReplacedClosed(g, b, files, d, r, ch, entry, disk);
        ReplacedListings(g, b, files, d, r, ch, entry, disk);
      }
    }

    // -------------------------------------------------------------- directory growth and creation

    /** Something is being added to the objects of d0; ch is a chain that no object has yet. */
    ghost predicate Adding(d0: Disk, files: map<Ref, seq<nat>>, now: map<Ref, seq<nat>>, ch: seq<nat>)
      reads this`cache, this`disk, this`dirty, this`allocHint, this`history, this`used, this`freeClusters
    {
      Valid() && Upheld(g, d0, files, disk, now) && Building(disk, now, ch) && !Clean(g, Fat(g, disk)[1].value)
    }

    lemma AddingBase(d0: Disk, files: map<Ref, seq<nat>>, now: map<Ref, seq<nat>>, ch: seq<nat>)
      requires Adding(d0, files, now, ch)
      ensures Phase(g, disk, now, disk) && CacheKeeps(g, disk, now, cache) && FlushSafe(now)
    {
      hide Clean, Upheld;
      BuildingFlushes(disk, now, ch);
      UncleanPhase(g, disk, now);
    }

    lemma Rebased(d0: Disk, files: map<Ref, seq<nat>>, b: Disk, now: map<Ref, seq<nat>>, ch: seq<nat>)
      requires Valid() && Upheld(g, d0, files, b, now) && Building(b, now, ch) && Phase(g, b, now, disk)
      requires !Clean(g, Fat(g, disk)[1].value)
      ensures Adding(d0, files, now, ch)
    {
      hide Clean, NothingLost, IsChain, Consistent, Stays;
      UpheldPhase(g, d0, files, b, now, disk);
    }

    method FlushAdding(ghost d0: Disk, ghost files: map<Ref, seq<nat>>, ghost now: map<Ref, seq<nat>>, ghost ch: seq<nat>)
      returns (e: Error)
      requires Adding(d0, files, now, ch)
      modifies this`disk, this`history, this`writeFailed, this`dirty
      ensures Valid() && AddTrail(g, d0, files, old(history), history)
      ensures if e == Ok then Adding(d0, files, now, ch) && dirty == {} && (writeFailed ==> old(writeFailed)) else writeFailed
      ensures DirsKept(g, old(disk), disk, now) && disk.sectors == old(disk).sectors && ListsKept(g, old(disk), disk, now)
      ensures e in {Ok, EIO, EROFS} && (e == EROFS ==> old(writeFailed)) && (healthy && !old(writeFailed) ==> e == Ok)
    {
      hide Clean, Upheld, Phase, CacheKeeps, IsChain, Accounted, Trail, AddTrail, Synced, ValidDisk, ValidGeometry, FlushSafe, DirsKept,
        ListsKept;
      AddingBase(d0, files, now, ch);
      ghost var b := disk;
      e := FlushCache(b, now);
      TrailAdds(g, d0, files, b, now, old(history), history);
      UpheldDirs(g, d0, files, b, now, disk);
      SectorsLists(g, b, disk, now);
      if e == Ok {
        SyncedFat();
        PhaseUnfold(g, b, now, disk);
        Rebased(d0, files, b, now, ch);
      }
    }

    /** Zeros in a cluster that no object has. */
    method ZeroAdding(c: nat, ghost d0: Disk, ghost files: map<Ref, seq<nat>>, ghost now: map<Ref, seq<nat>>, ghost ch: seq<nat>)
      returns (e: Error)
      requires Adding(d0, files, now, ch) && c !in Owned(now)
      modifies this`disk, this`history, this`writeFailed
      ensures Valid() && AddTrail(g, d0, files, old(history), history)
      ensures if e == Ok then Adding(d0, files, now, ch) && (writeFailed ==> old(writeFailed)) else writeFailed
      ensures e == Ok ==> disk.fat == old(disk).fat && ClusterBytes(g, disk, c) == Zeros(ClusterSize(g))
      ensures DirsKept(g, old(disk), disk, now) && ListsKept(g, old(disk), disk, now)
      ensures e in {Ok, EIO, EROFS} && (e == EROFS ==> old(writeFailed)) && (healthy && !old(writeFailed) ==> e == Ok)
    {
      hide Clean, Upheld, Phase, CacheKeeps, IsChain, Accounted, Trail, AddTrail, Synced, ValidDisk, FlushSafe, ClusterBytes, Owned,
        DirsKept, ListsKept;
      AddingBase(d0, files, now, ch);
      ghost var b := disk;
      e := WriteData(c, [], b, now);
      TrailAdds(g, d0, files, b, now, old(history), history);
      UpheldDirs(g, d0, files, b, now, disk);
      PhaseLists(g, b, now, disk);
      if e == Ok {
        Rebased(d0, files, b, now, ch);
        assert [] + Zeros(ClusterSize(g)) == Zeros(ClusterSize(g));
      }
    }

    /** An entry in a free place, where it hides nothing. */
    method PlaceEntry(r: Ref, entry: seq<byte>, ghost d0: Disk, ghost files: map<Ref, seq<nat>>, ghost now: map<Ref, seq<nat>>, ghost ch: seq<nat>)
      returns (e: Error)
      requires Adding(d0, files, now, ch) && FreePlace(g, disk, now, r) && |entry| == 32 && Harmless(g, disk, now, r, entry)
      modifies this`disk, this`history, this`writeFailed
      ensures Valid() && AddTrail(g, d0, files, old(history), history)
      ensures if e == Ok then Adding(d0, files, now, ch) && (writeFailed ==> old(writeFailed)) else writeFailed || e == EIO
      ensures e == Ok ==> disk == WithEntry(g, old(disk), r, entry) && history == old(history) + [disk]
      ensures e in {Ok, EIO, EROFS} && (e == EROFS ==> old(writeFailed)) && (healthy && !old(writeFailed) ==> e == Ok)
    {
      hide Clean, Upheld, CacheKeeps, IsChain, Accounted, AddTrail, Synced, FlushSafe, WithEntry, HasEntry, InDirectory, AddSafe, Harmless;
      ghost var d := disk;
      UpheldFree(g, d0, files, d, now, r, entry);
      e := EntryWrite(r, entry);
      SameFat(d, now, ch);
      UncleanAdds(g, d0, files, disk, now);
      OneMoreState(g, d0, files, old(history), history, disk);
    }

    /** The accounting depends on the disk only through its active FAT. */
    lemma SameFat(d: Disk, now: map<Ref, seq<nat>>, ch: seq<nat>)
      requires disk.fat == d.fat
      ensures Building(d, now, ch) <==> Building(disk, now, ch)
    {
      hide Clean, IsChain, Accounted;
    }

    /** A new cluster at the end of a directory: flushed before it is linked. */
    method Grow(q: Ref, last: nat, ghost d0: Disk, ghost files: map<Ref, seq<nat>>, ghost now: map<Ref, seq<nat>>)
      returns (e: Error, c: nat, ghost next: map<Ref, seq<nat>>)
      requires Adding(d0, files, now, []) && dirty == {} && q in now && now[q] != [] && |now[q]| < 65536 && DirectoryRef(g, disk, q)
      requires last == now[q][|now[q]| - 1]
      modifies this`disk, this`history, this`writeFailed, this`cache, this`dirty, this`used, this`freeClusters, this`allocHint
      ensures Valid() && AddTrail(g, d0, files, old(history), history)
      ensures e == Ok ==>
        && Adding(d0, files, next, []) && dirty == {} && next == now[q := now[q] + [c]] && freeClusters == old(freeClusters) - 1
        && (writeFailed ==> old(writeFailed)) && DirectoryRef(g, disk, q)
        && ListsKept(g, old(disk), disk, now) && SectorBytes(g, disk, Data(c, 0)) == Zeros(g.sector)
      ensures e == ENOSPC <==> old(freeClusters) == 0
      ensures e in {Ok, EIO, EROFS, ENOSPC} && (e == EROFS ==> old(writeFailed))
      ensures healthy && !old(writeFailed) && old(freeClusters) > 0 ==> e == Ok
    {
      hide Clean, Upheld, Phase, CacheKeeps, IsChain, AddTrail, Synced, FlushSafe, Owned, DirectoryRef, ClusterBytes,
        DirsKept, CanGrow, FreeCells, ValidDisk, ValidGeometry, Accounted, ListsKept, SectorBytes;
      next := now;
      AddTrailNone(g, d0, files, history);
      assert Building(disk, now, []);
      c := Append(0, disk, now, []);
      if c == 0 {
        return ENOSPC, 0, now;
      }
      assert [] + [c] == [c];
      e := ZeroAdding(c, d0, files, now, [c]);
      if e != Ok {
        return;
      }
      ghost var d1 := disk;
      ZeroCluster(g, disk, c);
      e := VolumeFlush();
      if e != Ok {
        return;
      }
      ghost var h := history;
      e := FlushAdding(d0, files, now, [c]);
      SameSector(g, d1, disk, Data(c, 0));
      AddTrailJoin(g, d0, files, old(history), h, history);
      if e != Ok {
        return;
      }
      DirsJoin(g, old(disk), d1, disk, now);
      DirAt(g, old(disk), disk, now, q);
      Growable(now, q, c);
      h := history;
      ghost var d2 := disk;
      e := Link(q, last, c, d0, files, now);
      if e == Ok {
        SectorsDirs(g, d2, disk, q);
        SameSector(g, d2, disk, Data(c, 0));
        SectorsLists(g, d1, disk, now);
        ListsJoin(g, old(disk), d1, disk, now);
      }
      AddTrailJoin(g, d0, files, old(history), h, history);
      next := now[q := now[q] + [c]];
    }

    lemma Growable(now: map<Ref, seq<nat>>, q: Ref, c: nat)
      requires Valid() && Building(disk, now, [c]) && dirty == {} && q in now && now[q] != [] && |now[q]| < 65536 && DirectoryRef(g, disk, q)
      ensures CanGrow(g, disk, now, q, c)
    {
      hide Clean, DirectoryRef, Accounted;
      SyncedFat();
      assert IsChain(g, cache, [c]) && [c][0] == c;
    }

    /** The write that links: one sector of the active FAT, then its mirror. */
    method Link(q: Ref, last: nat, c: nat, ghost d0: Disk, ghost files: map<Ref, seq<nat>>, ghost now: map<Ref, seq<nat>>)
      returns (e: Error)
      requires Adding(d0, files, now, [c]) && dirty == {} && q in now && now[q] != [] && last == now[q][|now[q]| - 1]
      requires CanGrow(g, disk, now, q, c)
      modifies this`disk, this`history, this`writeFailed, this`cache, this`dirty
      ensures Valid() && AddTrail(g, d0, files, old(history), history)
      ensures if e == Ok then Adding(d0, files, now[q := now[q] + [c]], []) && dirty == {} && (writeFailed ==> old(writeFailed)) else writeFailed
      ensures e == Ok ==> disk.sectors == old(disk).sectors
      ensures e in {Ok, EIO, EROFS} && (e == EROFS ==> old(writeFailed)) && (healthy && !old(writeFailed) ==> e == Ok)
    {
      hide Clean, Upheld, Phase, CacheKeeps, AddTrail, FlushSafe, SectorOf, CanGrow, Trail, Building, Synced, SectorSynced,
        ValidDisk, ValidGeometry;
      ghost var next := now[q := now[q] + [c]];
      e := LinkFirst(q, last, c, d0, files, now);
      if e != Ok {
        return;
      }
      var s := SectorOf(g, last);
      ghost var h, b2 := history, disk;
      AddingBase(d0, files, next, []);
      e := FlushSector(s, 1, b2, next);
      TrailAdds(g, d0, files, b2, next, h, history);
      AddTrailJoin(g, d0, files, old(history), h, history);
      if e != Ok {
        return;
      }
      assert dirty == {};
      SyncedFat();
      PhaseUnfold(g, b2, next, disk);
      BuildingUnclean(b2, next);
      Rebased(d0, files, b2, next, []);
      e := VolumeFlush();
    }

    lemma BuildingUnclean(b: Disk, now: map<Ref, seq<nat>>)
      requires Building(b, now, [])
      ensures |cache| == Limit(g) && !Clean(g, cache[1].value)
    {
      hide Clean, IsChain;
    }

    /** The sector of the active FAT: from one write to the next the directory is longer. */
    method LinkFirst(q: Ref, last: nat, c: nat, ghost d0: Disk, ghost files: map<Ref, seq<nat>>, ghost now: map<Ref, seq<nat>>)
      returns (e: Error)
      requires Adding(d0, files, now, [c]) && dirty == {} && q in now && now[q] != [] && last == now[q][|now[q]| - 1]
      requires CanGrow(g, disk, now, q, c)
      modifies this`disk, this`history, this`writeFailed, this`cache, this`dirty
      ensures Valid() && AddTrail(g, d0, files, old(history), history)
      ensures if e == Ok then
          && Adding(d0, files, now[q := now[q] + [c]], []) && dirty == {SectorOf(g, last)} && SectorSynced(g.active, SectorOf(g, last))
          && (writeFailed ==> old(writeFailed)) && disk.sectors == old(disk).sectors
        else writeFailed
      ensures e in {Ok, EIO, EROFS} && (e == EROFS ==> old(writeFailed)) && (healthy && !old(writeFailed) ==> e == Ok)
    {
      hide Clean, Upheld, CacheKeeps, IsChain, AddTrail, Owned, SectorOf, CanGrow, AddSafe, Spliced, Accounted;
      ghost var d, next := disk, now[q := now[q] + [c]];
      SyncedFat();
      LastCell(d0, files, now, q, c);
      AccountLink(g, cache, used, freeClusters, last, c);
      CacheSet(last, c);
      var s := SectorOf(g, last);
      ghost var b2 := Apply(g, d, FatWrite(g.active, s, cache));
      GeometryCopies(g);
      LinkedCells(g, d, cache, last, s);
      assert Elements([c]) == {c};
      LinkedNow(d0, files, d, b2, now, q, c, last);
      UncleanAdds(g, d0, files, b2, next);
      UncleanAdds(g, d0, files, d, now);
      e := VolumeWrite(FatWrite(g.active, s, cache));
      OneMoreState(g, d0, files, old(history), history, disk);
    }

    lemma LastCell(d0: Disk, files: map<Ref, seq<nat>>, now: map<Ref, seq<nat>>, q: Ref, c: nat)
      requires Adding(d0, files, now, [c]) && Fat(g, disk) == cache && CanGrow(g, disk, now, q, c)
      ensures var last := now[q][|now[q]| - 1];
        InRange(g, last) && cache[last].value != 0 && last != c && 2 <= c <= Eoc(g) && last in used && last != 1
    {
      hide Clean, EntryOk, Housed, Stays, Accounted;
      var last := now[q][|now[q]| - 1];
      assert last in now[q];
      LastUsed(g, cache, now[q]);
    }

    /** After the link the new cluster is the directory's and nothing is in between. */
    lemma LinkedNow(d0: Disk, files: map<Ref, seq<nat>>, d: Disk, b2: Disk, now: map<Ref, seq<nat>>, q: Ref, c: nat, last: nat)
      requires Upheld(g, d0, files, d, now) && CanGrow(g, d, now, q, c) && last == now[q][|now[q]| - 1]
      requires ValidDisk(g, d) && ValidDisk(g, b2) && b2.sectors == d.sectors && Fat(g, b2) == cache
      requires last < Limit(g) && cache == Fat(g, d)[last := Cell(Fat(g, d)[last].high, c)] && last != 1
      requires Accounted(g, cache, used, freeClusters) && used == Owned(now) + {c}
      requires !Clean(g, Fat(g, d)[1].value) && cache[1].value <= Eoc(g)
      ensures Upheld(g, d0, files, b2, now[q := now[q] + [c]]) && Building(b2, now[q := now[q] + [c]], [])
      ensures !Clean(g, Fat(g, b2)[1].value)
    {
      hide Clean, Accounted, Stays, IsChain, EntryOk, Housed;
      UpheldGrown(g, d0, files, d, now, q, c, b2);
      GrownDisjoint(now, q, c);
      assert Elements([]) == {};
    }

    /** Entries in free places, one after the other. */
    method PlaceEntries(rs: seq<Ref>, entries: seq<seq<byte>>, ghost q: Ref, ghost base: nat, ghost d0: Disk, ghost files: map<Ref, seq<nat>>,
                        ghost now: map<Ref, seq<nat>>, ghost ch: seq<nat>)
      returns (e: Error)
      requires Adding(d0, files, now, ch) && |entries| <= |rs| && AllFree(g, disk, now, rs) && !writeFailed
      requires Laid(g, disk, now, q, base, rs)
      requires forall i :: 0 <= i < |entries| ==> |entries[i]| == 32 && entries[i][0] != 0
      modifies this`disk, this`history, this`writeFailed
      ensures Valid() && AddTrail(g, d0, files, old(history), history)
      ensures e == Ok ==> Adding(d0, files, now, ch) && AllFree(g, disk, now, rs) && !writeFailed && disk.fat == old(disk).fat
      ensures e == Ok ==> Laid(g, disk, now, q, base, rs) && Holds(g, disk, rs, entries)
      ensures e == Ok ==> FillStates(g, old(disk), rs, entries, old(history), history, |entries|)
      ensures e == Ok ==> OnlyPlaces(g, old(disk), disk, now, rs[..|entries|])
      ensures e in {Ok, EIO} && (healthy ==> e == Ok)
    {
      hide Upheld, Building, AddTrail, Synced, AllFree, FreePlace, WithEntry, Clean, DirsKept, Laid, Holds, NoNewEnd, OnlyPlaces, FillStates,
        Filled, HasEntry;
      AddTrailNone(g, d0, files, history);
      FillStart(g, disk, rs, entries, history);
      OnlyNone(g, disk, now, rs[..|entries|]);
      HoldsNone(g, disk, rs);
      assert entries[..0] == [];
      var i := 0;
      while i < |entries|
        invariant 0 <= i <= |entries| && Adding(d0, files, now, ch) && AllFree(g, disk, now, rs) && !writeFailed
        invariant AddTrail(g, d0, files, old(history), history) && disk.fat == old(disk).fat
        invariant Laid(g, disk, now, q, base, rs) && Holds(g, disk, rs, entries[..i])
        invariant FillStates(g, old(disk), rs, entries, old(history), history, i) && disk == Filled(g, old(disk), rs, entries, i)
        invariant OnlyPlaces(g, old(disk), disk, now, rs[..|entries|])
      {
        ghost var h, d := history, disk;
        assert rs[i] == rs[..|entries|][i];
        FreeAt(g, disk, now, rs, i);
        UpheldEntry(g, d0, files, d, now, rs[i], entries[i]);
        LaidWritten(g, d, now, q, base, rs, entries[..i], entries[i]);
        assert entries[..i] + [entries[i]] == entries[..i + 1];
        e := PlaceEntry(rs[i], entries[i], d0, files, now, ch);
        AddTrailJoin(g, d0, files, old(history), h, history);
        if e != Ok {
          return;
        }
        AllFreeStay(g, d, disk, now, rs);
        FillStep(g, old(disk), rs, entries, old(history), h, i, disk);
        EntryOnly(g, d, rs[i], entries[i], now, rs[..|entries|]);
        OnlyJoin(g, old(disk), d, disk, now, rs[..|entries|]);
        i := i + 1;
      }
      assert entries[..i] == entries;
      return Ok;
    }

    /** The first cluster of a new directory: zeros, then its two dot entries. */
    method NewDirectory(parent: nat, ghost d0: Disk, ghost files: map<Ref, seq<nat>>, ghost now: map<Ref, seq<nat>>)
      returns (e: Error, first: nat)
      requires Adding(d0, files, now, []) && !writeFailed
      modifies this`disk, this`history, this`writeFailed, this`cache, this`dirty, this`used, this`freeClusters, this`allocHint
      ensures Valid() && AddTrail(g, d0, files, old(history), history)
      ensures e == Ok ==> InRange(g, first) && Adding(d0, files, now, [first]) && !writeFailed && DirsKept(g, old(disk), disk, now)
      ensures e == Ok ==> ListsKept(g, old(disk), disk, now) && Dots(g, disk, first, DotBytes(1, first), DotBytes(2, parent))
      ensures e == ENOMEM <==> old(freeClusters) == 0
      ensures e in {Ok, EIO, ENOMEM} && (healthy && old(freeClusters) > 0 ==> e == Ok)
    {
      hide Upheld, AddTrail, Synced, Clean, DirsKept, CacheKeeps, IsChain, Accounted, Owned, ClusterBytes, ListsKept;
      AddTrailNone(g, d0, files, history);
      assert Building(disk, now, []);
      first := Append(0, disk, now, []);
      if first == 0 {
        return ENOMEM, 0;
      }
      assert [] + [first] == [first];
      e := ZeroAdding(first, d0, files, now, [first]);
      if e != Ok {
        return;
      }
      ghost var h, d1 := history, disk;
      ghost var zero := disk;
      ZeroCluster(g, disk, first);
      hide Building, Dots, WithEntry, HasEntry, DotBytes;
      e := DotEntry(first, 0, DotBytes(1, first), d0, files, now);
      AddTrailJoin(g, d0, files, old(history), h, history);
      DirsJoin(g, old(disk), d1, disk, now);
      ListsJoin(g, old(disk), d1, disk, now);
      if e != Ok {
        return;
      }
      h, d1 := history, disk;
      e := DotEntry(first, 32, DotBytes(2, parent), d0, files, now);
      AddTrailJoin(g, d0, files, old(history), h, history);
      DirsJoin(g, old(disk), d1, disk, now);
      ListsJoin(g, old(disk), d1, disk, now);
      if e == Ok {
        DotsWritten(g, zero, first, DotBytes(1, first), d1, DotBytes(2, parent), disk);
      }
    }

    /** An entry in a cluster that no object has. */
    method DotEntry(c: nat, at: nat, entry: seq<byte>, ghost d0: Disk, ghost files: map<Ref, seq<nat>>, ghost now: map<Ref, seq<nat>>)
      returns (e: Error)
      requires Adding(d0, files, now, [c]) && !writeFailed && |entry| == 32 && (at == 0 || at == 32)
      modifies this`disk, this`history, this`writeFailed
      ensures Valid() && AddTrail(g, d0, files, old(history), history) && DirsKept(g, old(disk), disk, now)
      ensures ListsKept(g, old(disk), disk, now)
      ensures e == Ok ==> Adding(d0, files, now, [c]) && !writeFailed
      ensures e == Ok ==> HasEntry(g, old(disk), Entry(Data(c, 0), at)) && disk == WithEntry(g, old(disk), Entry(Data(c, 0), at), entry)
      ensures e in {Ok, EIO} && (healthy ==> e == Ok)
    {
      hide Upheld, AddTrail, Synced, Clean, DirsKept, CacheKeeps, IsChain, Accounted, Owned, Phase, AddSafe, FlushSafe, ListsKept;
      ghost var d, r := disk, Entry(Data(c, 0), at);
      assert |SectorBytes(g, disk, Data(c, 0))| == g.sector;
      AddingBase(d0, files, now, [c]);
      assert c in [c];
      var sector := Patched(SectorBytes(g, disk, Data(c, 0)), at, entry);
      SectorWriteKeeps(g, d, now, d, Data(c, 0), sector);
      e := EntryWrite(Entry(Data(c, 0), at), entry);
      UpheldDirs(g, d0, files, d, now, disk);
      PhaseLists(g, d, now, disk);
      Rebased(d0, files, d, now, [c]);
      UncleanAdds(g, d0, files, disk, now);
      OneMoreState(g, d0, files, old(history), history, disk);
    }

    /** The entry that makes a new object, with the chain made for it. */
    method PlaceObject(r: Ref, name: seq<byte>, directory: bool, first: nat, ghost q: Ref, ghost k: nat, ghost d0: Disk,
                       ghost files: map<Ref, seq<nat>>, ghost now: map<Ref, seq<nat>>, ghost ch: seq<nat>)
      returns (e: Error)
      requires Adding(d0, files, now, ch) && dirty == {} && !writeFailed && FreePlace(g, disk, now, r) && Reached(g, disk, now, q, k, r)
      requires |name| == 11 && name[0] != 0 && name[0] != 0xe5
      requires if directory then ch == [first] && InRange(g, first) else ch == [] && first == 0
      modifies this`disk, this`history, this`writeFailed
      ensures Valid() && AddTrail(g, d0, files, old(history), history)
      ensures e == Ok ==> Adding(d0, files, now[r := ch], []) && !writeFailed
      ensures e == Ok ==> HasEntry(g, old(disk), r) && disk == WithEntry(g, old(disk), r, ShortEntry(name, directory, first))
      ensures e in {Ok, EIO} && (healthy ==> e == Ok)
    {
      hide Upheld, AddTrail, Synced, Clean, IsChain, Accounted, AddSafe, WithEntry, FreePlace, ShortEntry, LiveEntry, IsDirectory,
        FirstCluster, FileSize, Reached, HasEntry;
      var entry := ShortEntry(name, directory, first);
      ShortFields(g, name, directory, first);
      ghost var d := disk;
      SyncedFat();
      assert NewObject(g, d, now, ch, entry);
      UpheldNew(g, d0, files, d, now, r, ch, entry, q, k);
      FreeHas(g, d, now, r);
      e := EntryWrite(r, entry);
      UncleanAdds(g, d0, files, disk, if disk == d then now else now[r := ch]);
      OneMoreState(g, d0, files, old(history), history, disk);
      if e == Ok {
        NewOwned(d0, files, d, now, r, ch);
      }
    }

    /** The bitmap already counts the chain of the new object. */
    lemma NewOwned(d0: Disk, files: map<Ref, seq<nat>>, d: Disk, now: map<Ref, seq<nat>>, r: Ref, ch: seq<nat>)
      requires Valid() && dirty == {} && Building(d, now, ch) && disk.fat == d.fat && r !in now && Upheld(g, d0, files, d, now)
      ensures Building(disk, now[r := ch], [])
    {
      hide Clean, IsChain, Accounted, Stays, EntryOk, Housed;
      SyncedFat();
      AddedDisjoint(now, r, ch);
      assert Elements([]) == {};
      assert Owned(now[r := ch]) == Owned(now) + Elements(ch);
    }

    /** Number k of the chain of q is next; seen are the places before it; what was added starts with an end mark. */
    ghost predicate Walking(d0: Disk, files: map<Ref, seq<nat>>, now: map<Ref, seq<nat>>, q: Ref, k: nat, cluster: nat,
                            seen: seq<Ref>, x: Search, need: nat, grow: bool)
      reads this`cache, this`disk, this`dirty, this`allocHint, this`history, this`used, this`freeClusters, this`writeFailed
    {
      && Valid() && dirty == {} && Consistent(g, disk, now) && Longer(files, now, q) && DirectoryRef(g, disk, q)
      && k < |now[q]| && cluster == now[q][k] && seen == ChainSlots(g, now[q][..k])
      && Searching(g, disk, seen, x, need) && !Enough(x, need)
      && Marked(g, disk, files[q], now[q]) && (|now[q]| > |files[q]| ==> k == |now[q]| - 1)
      && (grow ==> Adding(d0, files, now, []) && !writeFailed)
    }

    lemma LinkAt(now: map<Ref, seq<nat>>, q: Ref, k: nat)
      requires Valid() && dirty == {} && Consistent(g, disk, now) && q in now && k < |now[q]|
      ensures |cache| == Limit(g) && now[q][k] < |cache|
      ensures k + 1 == |now[q]| ==> IsEnd(g, cache[now[q][k]].value)
      ensures k + 1 < |now[q]| ==> cache[now[q][k]].value == now[q][k + 1] && InRange(g, now[q][k + 1]) && !IsEnd(g, now[q][k + 1])
    {
      hide EntryOk, Housed, SectorOf;
      SyncedFat();
      if k + 1 < |now[q]| {
        EndMeansOut(g, now[q][k + 1]);
      }
    }

    /** What a walk over the chain stands on. */
    lemma WalkFacts(d0: Disk, files: map<Ref, seq<nat>>, now: map<Ref, seq<nat>>, q: Ref, k: nat, cluster: nat, seen: seq<Ref>, x: Search,
                    need: nat, grow: bool)
      requires Walking(d0, files, now, q, k, cluster, seen, x, need, grow)
      ensures Valid() && ValidDisk(g, disk) && Searching(g, disk, seen, x, need) && !Enough(x, need) && Longer(files, now, q)
      ensures k < |now[q]| && cluster == now[q][k] && |cache| == Limit(g) && cluster < |cache| && |now[q]| <= |files[q]| + 2
      ensures k + 1 == |now[q]| ==> IsEnd(g, cache[cluster].value)
      ensures k + 1 < |now[q]| ==> cache[cluster].value == now[q][k + 1] && InRange(g, now[q][k + 1]) && !IsEnd(g, now[q][k + 1])
      ensures seen == ChainSlots(g, now[q][..k])
    {
      hide Consistent, Searching, ChainSlots, DirectoryRef, Synced, ValidGeometry, EndMark, Adding;
      LinkAt(now, q, k);
    }

    lemma WalkStart(d0: Disk, files: map<Ref, seq<nat>>, q: Ref, need: nat, grow: bool)
      requires Valid() && dirty == {} && Consistent(g, disk, files) && q in files && DirectoryRef(g, disk, q) && files[q] != [] && need > 0
      requires grow ==> Adding(d0, files, files, []) && !writeFailed
      ensures Walking(d0, files, files, q, 0, files[q][0], [], Search([], 0, false), need, grow)
    {
      hide Consistent, Searching, ChainSlots, DirectoryRef, Synced, ValidGeometry, ValidDisk, EndMark, Adding;
      SearchStart(g, disk, need);
      NoSlots(g, files[q]);
      assert files[q := files[q]] == files;
    }

    /** The next cluster of the chain. */
    lemma WalkOn(d0: Disk, files: map<Ref, seq<nat>>, now: map<Ref, seq<nat>>, q: Ref, k: nat, cluster: nat, seen: seq<Ref>, x: Search,
                 seen': seq<Ref>, x': Search, need: nat, grow: bool)
      requires Walking(d0, files, now, q, k, cluster, seen, x, need, grow) && k + 1 < |now[q]|
      requires seen' == seen + ClusterSlots(g, cluster, g.spc) && Searching(g, disk, seen', x', need) && !Enough(x', need)
      ensures Walking(d0, files, now, q, k + 1, now[q][k + 1], seen', x', need, grow)
    {
      hide Consistent, Searching, ChainSlots, ClusterSlots, DirectoryRef, Synced, ValidGeometry, ValidDisk, EndMark, Adding;
      NextSlots(g, now[q], k);
    }

    /** A walk that has come to the end without growing. */
    lemma NoRoomLeft(d0: Disk, files: map<Ref, seq<nat>>, q: Ref, k: nat, cluster: nat, before: seq<Ref>, x0: Search, seen: seq<Ref>, x: Search, need: nat)
      requires Walking(d0, files, files, q, k, cluster, before, x0, need, false) && IsEnd(g, cache[cluster].value)
      requires seen == before + ClusterSlots(g, cluster, g.spc) && Searching(g, disk, seen, x, need) && !Enough(x, need)
      ensures !Roomy(g, disk, Slots(g, files[q]), need)
    {
      hide Roomy, ClusterSlots, Consistent, DirectoryRef, Synced, ValidGeometry, ValidDisk, EndMark, Vacant, Open;
      WalkFacts(d0, files, files, q, k, cluster, before, x0, need, false);
      NextSlots(g, files[q], k);
      ChainSlotsAre(g, files[q]);
    }

    /** A walk that has found enough. */
    lemma WalkFound(d0: Disk, files: map<Ref, seq<nat>>, now: map<Ref, seq<nat>>, q: Ref, k: nat, cluster: nat, seen: seq<Ref>, x: Search,
                    seen': seq<Ref>, x': Search, need: nat, grow: bool)
      requires q in files && q in now && Walking(d0, files, now, q, k, cluster, seen, x, need, grow)
      requires seen' <= seen + ClusterSlots(g, cluster, g.spc) && Searching(g, disk, seen', x', need) && Enough(x', need)
      ensures |x'.run| <= |seen'| && Room(g, disk, now, q, |seen'| - |x'.run|, x'.run, need, x'.ended)
      ensures |x'.run| == need + (if x'.ended then 1 else 0)
      ensures (grow ==> Adding(d0, files, now, []) && dirty == {} && !writeFailed) && Marked(g, disk, files[q], now[q])
    {
      hide Consistent, ChainSlots, ClusterSlots, DirectoryRef, Synced, ValidGeometry, ValidDisk, EndMark, Adding, Room, Vacant, Open, Slots;
      NextSlots(g, now[q], k);
      ChainSlotsGrow(g, now[q], k + 1);
      ChainSlotsAre(g, now[q]);
      FoundRoom(g, disk, now, q, seen', x', need);
    }

    /** The chain of q ends and the places in it are not enough: one more cluster. */
    method Extend(q: Ref, last: nat, ghost k: nat, ghost d0: Disk, ghost files: map<Ref, seq<nat>>, ghost now: map<Ref, seq<nat>>,
                  ghost before: seq<Ref>, ghost x0: Search, ghost seen: seq<Ref>, ghost x: Search, ghost need: nat)
      returns (e: Error, c: nat, ghost next: map<Ref, seq<nat>>)
      requires Walking(d0, files, now, q, k, last, before, x0, need, true) && k + 1 == |now[q]| && files[q] != []
      requires seen == before + ClusterSlots(g, last, g.spc) && Searching(g, disk, seen, x, need) && !Enough(x, need) && need <= 21
      requires freeClusters + (|now[q]| - |files[q]|) >= 2
      modifies this`disk, this`history, this`writeFailed, this`cache, this`dirty, this`used, this`freeClusters, this`allocHint
      ensures Valid() && AddTrail(g, d0, files, old(history), history)
      ensures e == Ok ==> next == now[q := now[q] + [c]] && freeClusters == old(freeClusters) - 1
      ensures e == Ok ==> Walking(d0, files, next, q, k + 1, c, seen, x, need, true) && InRange(g, c) && ListsKept(g, old(disk), disk, files)
      ensures e in {Ok, EIO} && (healthy ==> e == Ok)
    {
      hide Upheld, AddTrail, Synced, Clean, Building, DirectoryRef, ValidDisk, Searching, ChainSlots, ClusterSlots, Slots, SectorBytes, Marked,
        ListsKept, Adding, ValidGeometry, Consistent;
      AddingConsistent(d0, files, now, []);
      NextSlots(g, now[q], k);
      ChainSlotsAre(g, now[q]);
      ValidSector(g);
      SearchScanned(g, disk, seen, x, need);
      ChainCount(g, now[q]);
      MarkedRoom(g, disk, files[q], now[q], x, need);
      ghost var d := disk;
      e, c, next := Grow(q, last, d0, files, now);
      if e == Ok {
        AddingConsistent(d0, files, next, []);
        ListAt(g, d, disk, now, q);
        SearchingSame(g, d, disk, seen, x, need);
        MarkedMore(g, d, disk, files[q], now[q], c);
        LongerMore(files, now, q, c);
        ListsShorter(g, d, disk, files, now, q);
        InNow(next, q);
        assert next[q][..k + 1] == now[q];
      }
    }

    lemma InNow(now: map<Ref, seq<nat>>, q: Ref)
      requires Consistent(g, disk, now) && q in now && now[q] != []
      ensures InRange(g, now[q][|now[q]| - 1])
    {
      hide EntryOk, Housed;
    }

    lemma AddingUpheld(d0: Disk, files: map<Ref, seq<nat>>, now: map<Ref, seq<nat>>, ch: seq<nat>)
      requires Adding(d0, files, now, ch)
      ensures Upheld(g, d0, files, disk, now)
    {
      hide Clean, Building, Upheld;
    }

    lemma AddingConsistent(d0: Disk, files: map<Ref, seq<nat>>, now: map<Ref, seq<nat>>, ch: seq<nat>)
      requires Adding(d0, files, now, ch)
      ensures Valid() && Consistent(g, disk, now) && ValidGeometry(g) && ValidDisk(g, disk)
    {
      hide Clean, Building, Stays;
    }

    /** Nothing has changed. */
    twostate predicate Untouched()
      reads this
    {
      && disk == old(disk) && history == old(history) && writeFailed == old(writeFailed) && cache == old(cache)
      && dirty == old(dirty) && used == old(used) && freeClusters == old(freeClusters) && allocHint == old(allocHint)
    }

    /**
     fat_slots: from the first cluster of directory q, consecutive free places; with grow set the directory gets
     another cluster where its chain ends.
     */
    method FindSlots(q: Ref, first: nat, need: nat, grow: bool, ghost d0: Disk, ghost files: map<Ref, seq<nat>>)
      returns (e: Error, places: seq<Ref>, end: bool, ghost now: map<Ref, seq<nat>>, ghost base: nat)
      requires Valid() && dirty == {} && Consistent(g, disk, files) && q in files && DirectoryRef(g, disk, q) && 2 <= need <= 21
      requires first == if files[q] == [] then 0 else files[q][0]
      requires grow ==> Adding(d0, files, files, []) && !writeFailed && freeClusters >= 2
      modifies this`disk, this`history, this`writeFailed, this`cache, this`dirty, this`used, this`freeClusters, this`allocHint
      ensures Valid() && (!grow ==> Untouched()) && (grow ==> AddTrail(g, d0, files, old(history), history))
      ensures e == Ok ==> Room(g, disk, now, q, base, places, need, end) && |places| <= 22
      ensures e == Ok ==> Longer(files, now, q) && Marked(g, disk, files[q], now[q]) && (!grow || files[q] == [] ==> now == files)
      ensures e == Ok ==> ListsKept(g, old(disk), disk, files)
      ensures e == Ok && grow ==> Adding(d0, files, now, []) && dirty == {} && !writeFailed && freeClusters + 2 >= old(freeClusters)
      ensures e == EAGAIN ==> !grow && files[q] != [] && !Roomy(g, disk, Slots(g, files[q]), need)
      ensures e == ENOSPC ==> files[q] == []
      ensures e in {ENOSPC, E2BIG} ==> !Spacious(g, old(disk), files[q], need)
      ensures e in {Ok, EIO, ENOSPC, E2BIG, EAGAIN} && (e == EIO ==> !healthy)
    {
      hide Upheld, AddTrail, Synced, Clean, Building, DirectoryRef, ValidDisk, ValidGeometry, Adding, Searching, Room, Consistent,
        ClusterSlots, IsEnd, Slots, ChainSlots, Walking, ListsKept, Marked, Roomy, Spacious;
      SectorsLists(g, disk, disk, files);
      MarkedSame(g, disk, files[q]);
      e, places, end, now, base := EIO, [], false, files, 0;
      AddTrailNone(g, d0, files, history);
      ConsistentDisk(g, disk, files);
      ghost var seen: seq<Ref> := [];
      var x := Search([], 0, false);
      if files[q] != [] {
        FirstIsCluster(g, disk, files, q);
      }
      if first == 0 {
        e, x, seen := SearchRoot(g, disk, healthy, need);
        if e != Ok {
          if e != EIO {
            NotSpaciousRoot(g, disk, need);
          }
          return;
        }
        SearchScanned(g, disk, seen, x, need);
        FoundRoom(g, disk, now, q, seen, x, need);
        RoomSize(g, disk, now, q, |seen| - |x.run|, x.run, need, x.ended);
        assert files[q := files[q]] == files;
        return Ok, x.run, x.ended, now, |seen| - |x.run|;
      }
      WalkStart(d0, files, q, need, grow);
      var cluster, visited := first, 0;
      while visited < 65536
        invariant 0 <= visited <= 65536 && Valid() && Walking(d0, files, now, q, visited, cluster, seen, x, need, grow)
        invariant AddTrail(g, d0, files, old(history), history) && q in now
        invariant if grow then freeClusters + (|now[q]| - |files[q]|) == old(freeClusters) else Untouched() && now == files
        invariant ListsKept(g, old(disk), disk, files)
        decreases 65536 - visited
      {
        ghost var before, x0 := seen, x;
        WalkFacts(d0, files, now, q, visited, cluster, seen, x, need, grow);
        e, x, seen := SearchCluster(g, disk, healthy, cluster, x, need, before);
        if e != Ok {
          if e == E2BIG {
            NotSpacious(g, old(disk), files[q], now[q], visited, need);
          }
          return;
        }
        if Enough(x, need) {
          WalkFound(d0, files, now, q, visited, cluster, before, x0, seen, x, need, grow);
          return Ok, x.run, x.ended, now, |seen| - |x.run|;
        }
        var next := cache[cluster].value;
        if IsEnd(g, next) {
          if !grow {
            NoRoomLeft(d0, files, q, visited, cluster, before, x0, seen, x, need);
            return EAGAIN, [], false, now, 0;
          }
          ghost var h, more, mid := history, now, disk;
          e, next, more := Extend(q, cluster, visited, d0, files, now, before, x0, seen, x, need);
          AddTrailJoin(g, d0, files, old(history), h, history);
          if e != Ok {
            return;
          }
          ListsJoin(g, old(disk), mid, disk, files);
          now := more;
        } else {
          WalkOn(d0, files, now, q, visited, cluster, before, x0, seen, x, need, grow);
        }
        if !InRange(g, next) {
          assert false;
        }
        cluster := next;
        visited := visited + 1;
      }
      WalkFacts(d0, files, now, q, visited, cluster, seen, x, need, grow);
      NotSpacious(g, old(disk), files[q], now[q], visited, need);
      return E2BIG, [], false, now, 0;
    }

    /**
     fat_create_locked once the parent directory q is open: cluster is the first one of the directory, or 0 for the
     fixed root area.
     */
    method Create(q: Ref, cluster: nat, name: seq<byte>, directory: bool, ghost files: map<Ref, seq<nat>>)
      returns (e: Error, place: Ref, short: seq<byte>, ghost now: map<Ref, seq<nat>>, ghost base: nat)
      requires Idle(files) && !writeFailed && q in files && DirectoryRef(g, disk, q)
      requires cluster == if files[q] == [] then 0 else files[q][0]
      modifies this`disk, this`history, this`writeFailed, this`cache, this`dirty, this`used, this`freeClusters, this`allocHint
      ensures Valid() && AddTrail(g, old(disk), files, old(history), history)
      ensures e == Ok ==> Idle(now) && !writeFailed && Upheld(g, old(disk), files, disk, now)
      ensures e == Ok ==> place !in files && place in now && q in now && now == files[q := now[q]][place := now[place]]
      ensures e == Ok ==> files[q] <= now[q] && |now[q]| <= |files[q]| + 2 && (if directory then |now[place]| == 1 else now[place] == [])
      ensures e == Ok ==> FatNames.ValidName(name) && |short| == 11 && Named(g, disk, Slots(g, now[q]), base, name, short, directory, now[place], place)
      ensures e == Ok ==> Quiet(g, old(disk), files, disk, now) && Retained(g, old(disk), files, disk, now)
      ensures e == Ok ==> NameAdded(g, old(disk), files[q], disk, now[q], name, place) && OnlyShort(g, disk, Slots(g, now[q]), short, place)
      ensures e == Ok ==> forall p :: p in files && DirectoryRef(g, old(disk), p) && p != q ==>
        FatListing.Directory(g, disk, Slots(g, files[p])) == FatListing.Directory(g, old(disk), Slots(g, files[p]))
      ensures e == Ok && directory ==>
        && Dots(g, disk, now[place][0], DotBytes(1, now[place][0]), DotBytes(2, if cluster == g.rootCluster then 0 else cluster))
        && FatListing.Directory(g, disk, Slots(g, now[place])) == []
      ensures e == Ok ==> forall skip :: Closed(g, old(disk), skip, files) ==> Closed(g, disk, WithDots(skip, now[place]), now)
      ensures e == EINVAL <==> !FatNames.ValidName(name)
      ensures e == EEXIST ==> FatListing.Find(FatListing.Directory(g, old(disk), Slots(g, files[q])), name).Some?
      ensures FatListing.Find(FatListing.Directory(g, old(disk), Slots(g, files[q])), name).Some? ==> e != Ok
      ensures e == Ok ==> old(freeClusters) >= 4
      ensures e == ENOSPC ==> old(freeClusters) < 4 || files[q] == []
      ensures e != Ok ==> writeFailed || (history == old(history) && disk == old(disk) && Idle(files))
      ensures var slots, need := Slots(g, files[q]), FatNames.Entries(|name|) + 1;
        healthy && FatNames.ValidName(name) && !FatLookup.Blocked(g, old(disk), slots) && (g.wide ==> files[q] != []) && |slots| <= LIMIT ==>
          && (e == EEXIST <==> FatListing.Find(FatListing.Directory(g, old(disk), slots), name).Some?)
          && (e != EEXIST && old(freeClusters) < 4 ==> e == ENOSPC)
          && (e != EEXIST && old(freeClusters) >= 4 && !NoShort(g, old(disk), slots) && Spacious(g, old(disk), files[q], need) ==> e == Ok)
      ensures e in {Ok, EINVAL, EEXIST, EIO, ENOSPC, E2BIG}
    {
      hide Upheld, AddTrail, Synced, Clean, Building, DirectoryRef, ValidDisk, ValidGeometry, Adding, Idle, AllFree, FreePlace,
        AddSafe, Phase, Consistent, Room, Named, Slots, ListsKept, DirsKept, Marked, OnlyPlaces, EndMark, Quiet, Retained,
        Closed, Dots, DotBytes, WithDots, FatListing.Find, FatListing.Directory, FatListing.View, FatLookup.Taken, IsChain, NameAdded, OnlyShort,
        FatListing.Adds, FatLookup.Blocked, NoShort, Spacious;
      now, place, base := files, RootDir, 0;
      IdleStart(files);
      AddTrailNone(g, disk, files, history);
      e, short := Admit(q, cluster, name, files);
      if e != Ok {
        return;
      }
      ghost var d0 := disk;
      NameEntries(name);
      var places, end;
      e, places, end, now, base := Locate(q, cluster, FatNames.Entries(|name|) + 1, files);
      if e != Ok {
        return;
      }
      ghost var h, start, mid := history, now, disk;
      AddingUpheld(d0, files, start, []);
      MarkedSize(g, disk, files[q], start[q]);
      var parent := if cluster == g.rootCluster then 0 else cluster;
      e, place, now := FillPlaces(places, end, name, short, directory, parent, q, base, d0, files, now);
      AddTrailJoin(g, d0, files, old(history), h, history);
      if e != Ok {
        writeFailed := true;
        return;
      }
      IdleStart(now);
      CreatedNow(g, d0, files, mid, start, q, base, places, end, disk, name, short, directory, now[place], place);
      if directory {
        IdleGeometry(now);
        DotsEmpty(g, disk, now[place][0], parent);
        assert now[place] == [now[place][0]];
      }
      ClosedNow(g, d0, files, disk, now, place, directory);
    }

    /** The checks before anything is written: the name is valid and not there, there is space, and a short name is free. */
    method Admit(q: Ref, cluster: nat, name: seq<byte>, ghost files: map<Ref, seq<nat>>) returns (e: Error, short: seq<byte>)
      requires Idle(files) && q in files && cluster == if files[q] == [] then 0 else files[q][0]
      ensures e == Ok ==> FatNames.ValidName(name) && freeClusters >= 4 && FatListing.Find(FatListing.Directory(g, disk, Slots(g, files[q])), name).None?
      ensures e == Ok ==> |short| == 11 && short[0] == 75 && !FatLookup.Taken(FatListing.View(g, disk, Slots(g, files[q])), short)
      ensures e == EINVAL <==> !FatNames.ValidName(name)
      ensures e == EEXIST ==> FatListing.Find(FatListing.Directory(g, disk, Slots(g, files[q])), name).Some?
      ensures e == ENOSPC ==> freeClusters < 4 && FatListing.Find(FatListing.Directory(g, disk, Slots(g, files[q])), name).None?
      ensures e == EIO ==> !healthy || FatLookup.Blocked(g, disk, Slots(g, files[q])) || (g.wide && files[q] == [])
      ensures e == E2BIG && |Slots(g, files[q])| <= LIMIT ==>
        NoShort(g, disk, Slots(g, files[q])) && freeClusters >= 4 && FatListing.Find(FatListing.Directory(g, disk, Slots(g, files[q])), name).None?
      ensures e in {Ok, EINVAL, EEXIST, EIO, ENOSPC, E2BIG}
    {
      hide Idle, ValidDisk, ValidGeometry, Slots, FatListing.Find, FatListing.Directory, FatListing.View, FatLookup.Taken, IsChain, FatNames.ValidName;
      short := [];
      IdleChain(files, q);
      if !FatNames.ValidName(name) {
        return EINVAL, short;
      }
      var hit;
      e, hit := FatLookup.LookUp(g, disk, healthy, cluster, name, files[q]);
      if e != Ok || hit.Some? {
        return if e == Ok then EEXIST else e, short;
      }
      if freeClusters < 4 {
        return ENOSPC, short;
      }
      e, short := FatLookup.PickShort(g, disk, healthy, cache, cluster, files[q]);
    }

    lemma IdleChain(files: map<Ref, seq<nat>>, q: Ref)
      requires Idle(files) && q in files
      ensures ValidGeometry(g) && ValidDisk(g, disk) && |cache| == Limit(g) && Fat(g, disk) == cache
      ensures files[q] != [] ==> IsChain(g, cache, files[q]) && |files[q]| <= 65536
    {
      hide Clean, Accounted, EntryOk, Housed, IsChain;
      SyncedFat();
    }

    /** The search without growth, the dirty mark, and the search with growth if that is needed. */
    method Locate(q: Ref, cluster: nat, need: nat, ghost files: map<Ref, seq<nat>>)
      returns (e: Error, places: seq<Ref>, end: bool, ghost now: map<Ref, seq<nat>>, ghost base: nat)
      requires Idle(files) && !writeFailed && q in files && DirectoryRef(g, disk, q) && freeClusters >= 4 && 2 <= need <= 21
      requires cluster == if files[q] == [] then 0 else files[q][0]
      modifies this`disk, this`history, this`writeFailed, this`cache, this`dirty, this`used, this`freeClusters, this`allocHint
      ensures Valid() && AddTrail(g, old(disk), files, old(history), history)
      ensures e == Ok ==> Adding(old(disk), files, now, []) && dirty == {} && !writeFailed && freeClusters > 0
      ensures e == Ok ==> Room(g, disk, now, q, base, places, need, end) && Longer(files, now, q) && Marked(g, disk, files[q], now[q])
      ensures e == Ok ==> (files[q] == [] ==> now == files) && ListsKept(g, old(disk), disk, files)
      ensures e == ENOSPC ==> files[q] == []
      ensures e in {ENOSPC, E2BIG} ==> !Spacious(g, old(disk), files[q], need)
      ensures e != Ok ==> writeFailed || (history == old(history) && disk == old(disk) && Idle(files))
      ensures e in {Ok, EIO, ENOSPC, E2BIG} && (e == EIO ==> !healthy)
    {
      hide Upheld, AddTrail, Synced, Clean, Building, DirectoryRef, ValidDisk, ValidGeometry, Adding, Idle, Consistent, Room, Slots, ListsKept,
        DirsKept, Marked, Spacious, Roomy;
      ghost var d0 := disk;
      IdleStart(files);
      AddTrailNone(g, disk, files, history);
      e, places, end, now, base := FindSlots(q, cluster, need, false, d0, files);
      IdleStays(files);
      if e != Ok && e != EAGAIN {
        return;
      }
      var grow := e == EAGAIN;
      e := BeginAdding(files);
      if e != Ok {
        writeFailed := true;
        return;
      }
      AddingConsistent(d0, files, files, []);
      if !grow {
        RoomSame(g, d0, disk, now, q, base, places, need, end);
        MarkedSame(g, disk, files[q]);
        return;
      }
      DirAt(g, d0, disk, files, q);
      ghost var h, mid := history, disk;
      SpaciousChain(g, d0, disk, files[q], need);
      e, places, end, now, base := FindSlots(q, cluster, need, true, d0, files);
      AddTrailJoin(g, d0, files, old(history), h, history);
      if e != Ok {
        writeFailed := true;
        return;
      }
      ListsJoin(g, d0, mid, disk, files);
    }

    twostate lemma IdleStays(files: map<Ref, seq<nat>>)
      requires old(Idle(files)) && Untouched()
      ensures Idle(files)
    {
      hide Consistent, Clean, Accounted, ValidDisk, ValidGeometry, SectorOf;
    }

    lemma IdleStart(files: map<Ref, seq<nat>>)
      requires Idle(files)
      ensures Valid() && Consistent(g, disk, files) && ValidDisk(g, disk) && dirty == {}
    {
      hide Clean, Accounted;
    }

    /** The dirty mark, before anything is added. */
    method BeginAdding(ghost files: map<Ref, seq<nat>>) returns (e: Error)
      requires Idle(files) && !writeFailed
      modifies this`disk, this`history, this`writeFailed, this`dirty, this`cache
      ensures Valid() && AddTrail(g, old(disk), files, old(history), history)
      ensures e == Ok ==> Adding(old(disk), files, files, []) && dirty == {} && !writeFailed && DirsKept(g, old(disk), disk, files)
      ensures e == Ok ==> ListsKept(g, old(disk), disk, files) && freeClusters == old(freeClusters)
      ensures e in {Ok, EIO} && (healthy ==> e == Ok)
    {
      hide Clean, Phase, CacheKeeps, SectorOf, Synced, FreeCells, IsChain, Owned, MarkDirty, NothingLost, Trail, AddTrail, EntryOk, Housed,
        Disjoint, Upheld, DirsKept, ListsKept;
      ghost var b := disk;
      IdlePhase(files);
      UpheldStart(g, b, files);
      CleanMarks(g, cache[1].value);
      FreeSame(g, cache, 1, Cell(cache[1].high, MarkDirty(g, cache[1].value)));
      CacheKeepsMark(g, b, files, cache, cache[1 := Cell(cache[1].high, MarkDirty(g, cache[1].value))]);
      assert Elements([]) == {};
      e := BeginWrite(b, files);
      TrailAdds(g, b, files, b, files, old(history), history);
      if e == Ok {
        PhaseDirs(g, b, files, disk);
        PhaseLists(g, b, files, disk);
        assert Building(b, files, []);
        SyncedFat();
        Rebased(b, files, b, files, []);
      }
    }

    /** The entries of a new object: placeholders, its first cluster, its long name, and last its short entry. */
    method FillPlaces(places: seq<Ref>, end: bool, name: seq<byte>, short: seq<byte>, directory: bool, parent: nat, ghost q: Ref, ghost base: nat,
                      ghost d0: Disk, ghost files: map<Ref, seq<nat>>, ghost start: map<Ref, seq<nat>>)
      returns (e: Error, place: Ref, ghost now: map<Ref, seq<nat>>)
      requires Adding(d0, files, start, []) && dirty == {} && !writeFailed && freeClusters > 0 && FatNames.ValidName(name)
      requires Room(g, disk, start, q, base, places, FatNames.Entries(|name|) + 1, end)
      requires |short| == 11 && short[0] != 0 && short[0] != 0xe5
      modifies this`disk, this`history, this`writeFailed, this`cache, this`dirty, this`used, this`freeClusters, this`allocHint
      ensures Valid() && AddTrail(g, d0, files, old(history), history)
      ensures e == Ok ==> Idle(now) && !writeFailed && Upheld(g, d0, files, disk, now)
      ensures e == Ok ==> place !in start && place in now && now == start[place := now[place]] && (if directory then |now[place]| == 1 else now[place] == [])
      ensures e == Ok ==> q in now && Named(g, disk, Slots(g, now[q]), base, name, short, directory, now[place], place)
      ensures e == Ok && directory ==> Dots(g, disk, now[place][0], DotBytes(1, now[place][0]), DotBytes(2, parent))
      ensures e == Ok ==> OnlyPlaces(g, old(disk), disk, start, places) && FatNames.Entries(|name|) + 1 <= |places|
      ensures e == Ok && end ==> FatNames.Entries(|name|) + 1 < |places| && EndMark(g, disk, places[FatNames.Entries(|name|) + 1])
      ensures e in {Ok, EIO} && (healthy ==> e == Ok)
    {
      hide Upheld, AddTrail, Clean, Building, Synced, Adding, Idle, AllFree, FreePlace, DirsKept, ListsKept, ValidDisk, ValidGeometry, Consistent,
        Phase, Room, Laid, Holds, Named, Slots, WithEntry, Reached, FatNames.ValidName, FatNames.Written, DirectoryRef, OnlyPlaces, EndMark,
        FillStates, Dots, DotBytes, SectorBytes;
      var n := FatNames.Entries(|name|);
      NameEntries(name);
      RoomPlaces(g, disk, start, q, base, places, n + 1, end);
      var longs := FatNames.Written(name, FatNames.Checksum(short, 11), n, n);
      FatListing.WrittenHeads(name, FatNames.Checksum(short, 11), n, n);
      now, place := start, places[n];
      ghost var ended;
      e, ended := Reserve(places, end, n + 1, q, base, d0, files, start);
      if e != Ok {
        return;
      }
      ghost var reserved := disk;
      AddingConsistent(d0, files, start, []);
      ghost var h, d := history, disk;
      var first;
      ghost var ch;
      e, first, ch := NewChain(places, directory, parent, n + 1, q, base, d0, files, start);
      AddTrailJoin(g, d0, files, old(history), h, history);
      if e != Ok {
        return;
      }
      h, d := history, disk;
      ghost var made := disk;
      if directory {
        AddingApart(d0, files, start, ch, first);
        FreeApart(g, disk, start, places, first);
      }
      e := PlaceEntries(places, longs, q, base, d0, files, start, ch);
      AddTrailJoin(g, d0, files, old(history), h, history);
      if e != Ok {
        return;
      }
      FillEnd(made, places, longs, h);
      if directory {
        FilledApart(g, made, places, longs, n, Data(first, 0));
      }
      OnlyMore(g, d, disk, start, places[..n], places[..n + 1]);
      OnlyJoin(g, reserved, d, disk, start, places[..n + 1]);
      e := VolumeFlush();
      if e != Ok {
        return;
      }
      h, d := history, disk;
      e, now := Finish(places, name, short, directory, first, longs, q, base, d0, files, start, ch);
      AddTrailJoin(g, d0, files, old(history), h, history);
      if e == Ok {
        OnlyJoin(g, reserved, d, disk, start, places[..n + 1]);
        OnlyMore(g, reserved, disk, start, places[..n + 1], places);
        OnlyJoin(g, old(disk), reserved, disk, start, places);
        if directory {
          DotsKept(g, made, disk, first, DotBytes(1, first), DotBytes(2, parent));
        }
        if end {
          LastKept(g, reserved, disk, start, q, base, places, n + 1);
        }
      }
    }

    lemma FillEnd(d: Disk, rs: seq<Ref>, entries: seq<seq<byte>>, h: seq<Disk>)
      requires Valid() && |entries| <= |rs| && h != [] && h[|h| - 1] == d && FillStates(g, d, rs, entries, h, history, |entries|)
      ensures disk == Filled(g, d, rs, entries, |entries|)
    {
      hide Synced, ValidDisk, ValidGeometry, WithEntry, HasEntry;
      assert |entries| == 0 ==> history == h;
    }

    /** The chain of the new object: one cluster for a directory, none for a file; on the disk before any entry names it. */
    method NewChain(places: seq<Ref>, directory: bool, parent: nat, ghost m: nat, ghost q: Ref, ghost base: nat, ghost d0: Disk,
                    ghost files: map<Ref, seq<nat>>, ghost start: map<Ref, seq<nat>>)
      returns (e: Error, first: nat, ghost ch: seq<nat>)
      requires Adding(d0, files, start, []) && !writeFailed && AllFree(g, disk, start, places) && Laid(g, disk, start, q, base, places)
      requires m <= |places| && freeClusters > 0
      modifies this`disk, this`history, this`writeFailed, this`cache, this`dirty, this`used, this`freeClusters, this`allocHint
      ensures Valid() && AddTrail(g, d0, files, old(history), history)
      ensures e == Ok ==> Adding(d0, files, start, ch) && dirty == {} && !writeFailed
      ensures e == Ok ==> AllFree(g, disk, start, places) && Laid(g, disk, start, q, base, places) && OnlyPlaces(g, old(disk), disk, start, places[..m])
      ensures e == Ok ==> if directory then ch == [first] && InRange(g, first) else ch == [] && first == 0
      ensures e == Ok && directory ==> Dots(g, disk, first, DotBytes(1, first), DotBytes(2, parent))
      ensures e in {Ok, EIO} && (healthy ==> e == Ok)
    {
      hide Upheld, AddTrail, Clean, Building, Synced, Adding, AllFree, DirsKept, ListsKept, ValidDisk, ValidGeometry, Laid, Holds, OnlyPlaces,
        Consistent, Dots, DotBytes;
      first, ch := 0, [];
      AddTrailNone(g, d0, files, history);
      AddingConsistent(d0, files, start, []);
      OnlyNone(g, disk, start, places[..m]);
      HoldsNone(g, disk, places);
      if directory {
        e, first := NewDirectory(parent, d0, files, start);
        if e != Ok {
          return;
        }
        ch := [first];
        AddingConsistent(d0, files, start, ch);
        AllFreeStay(g, old(disk), disk, start, places);
        LaidSame(g, old(disk), disk, start, q, base, places, []);
        ListsOnly(g, old(disk), disk, start, places[..m]);
      }
      e := VolumeFlush();
      if e != Ok {
        return;
      }
      ghost var h, d := history, disk;
      e := FlushAdding(d0, files, start, ch);
      AddTrailJoin(g, d0, files, old(history), h, history);
      if e != Ok {
        return;
      }
      AddingConsistent(d0, files, start, ch);
      AllFreeStay(g, d, disk, start, places);
      LaidSame(g, d, disk, start, q, base, places, []);
      ListsOnly(g, d, disk, start, places[..m]);
      OnlyJoin(g, old(disk), d, disk, start, places[..m]);
      if directory {
        SameSector(g, d, disk, Data(first, 0));
        DotsKept(g, d, disk, first, DotBytes(1, first), DotBytes(2, parent));
      }
    }

    lemma AddingApart(d0: Disk, files: map<Ref, seq<nat>>, now: map<Ref, seq<nat>>, ch: seq<nat>, c: nat)
      requires Adding(d0, files, now, ch) && c in ch
      ensures c !in Owned(now)
    {
      hide Clean, IsChain, Accounted, CacheKeeps, Upheld, Synced;
    }

    lemma IdleGeometry(files: map<Ref, seq<nat>>)
      requires Idle(files)
      ensures ValidGeometry(g)
    {
      hide Clean, Accounted, Consistent;
    }

    /** The short entry in the last place, and the clean mark. */
    method Finish(places: seq<Ref>, name: seq<byte>, short: seq<byte>, directory: bool, first: nat, ghost longs: seq<seq<byte>>, ghost q: Ref,
                  ghost base: nat, ghost d0: Disk, ghost files: map<Ref, seq<nat>>, ghost start: map<Ref, seq<nat>>, ghost ch: seq<nat>)
      returns (e: Error, ghost now: map<Ref, seq<nat>>)
      requires Adding(d0, files, start, ch) && dirty == {} && !writeFailed && AllFree(g, disk, start, places)
      requires FatNames.ValidName(name) && FatNames.Entries(|name|) <= 20 && FatNames.Entries(|name|) < |places|
      requires |short| == 11 && short[0] != 0 && short[0] != 0xe5
      requires longs == FatNames.Written(name, FatNames.Checksum(short, 11), FatNames.Entries(|name|), FatNames.Entries(|name|))
      requires Laid(g, disk, start, q, base, places) && Holds(g, disk, places, longs)
      requires if directory then ch == [first] && InRange(g, first) else ch == [] && first == 0
      modifies this`disk, this`history, this`writeFailed, this`dirty, this`cache
      ensures Valid() && AddTrail(g, d0, files, old(history), history)
      ensures var place := places[FatNames.Entries(|name|)];
        e == Ok ==> place !in start && now == start[place := ch] && Idle(now) && !writeFailed && Upheld(g, d0, files, disk, now)
                    && q in now && Named(g, disk, Slots(g, now[q]), base, name, short, directory, ch, place)
                    && OnlyPlaces(g, old(disk), disk, start, places[..FatNames.Entries(|name|) + 1])
                    && (directory ==> SectorBytes(g, disk, Data(first, 0)) == SectorBytes(g, old(disk), Data(first, 0)))
      ensures e in {Ok, EIO} && (healthy ==> e == Ok)
    {
      hide SectorBytes, OnlyPlaces, Upheld, AddTrail, Clean, Building, Synced, Adding, Idle, AllFree, FreePlace, DirsKept, ListsKept, ValidDisk, ValidGeometry, Consistent,
        Phase, Laid, Holds, Named, Slots, WithEntry, Reached, FatNames.ValidName, FatNames.Written, DirectoryRef;
      var n := FatNames.Entries(|name|);
      FatListing.WrittenHeads(name, FatNames.Checksum(short, 11), n, n);
      var place := places[n];
      now := start;
      AddingConsistent(d0, files, start, ch);
      FreeAt(g, disk, start, places, n);
      FreeHas(g, disk, start, place);
      FilledReach(g, disk, start, q, base, places, longs);
      ghost var d := disk;
      ghost var last := ShortEntry(short, directory, first);
      assert last[0] == short[0];
      LaidDirectory(g, d, start, q, base, places, n);
      LaidWritten(g, d, start, q, base, places, longs, last);
      WithEntrySectors(g, d, place, last);
      if directory {
        AddingApart(d0, files, start, ch, first);
        FreeApart(g, d, start, places, first);
      }
      e := PlaceObject(place, short, directory, first, q, base + n, d0, files, start, ch);
      if e != Ok {
        return;
      }
      now := start[place := ch];
      LaidMore(g, disk, start, q, base, places, place, ch);
      AddingConsistent(d0, files, now, []);
      assert place == places[..n + 1][n];
      EntryOnly(g, d, place, last, start, places[..n + 1]);
      ghost var h, d2 := history, disk;
      e := Settle(d0, files, now);
      AddTrailJoin(g, d0, files, old(history), h, history);
      if e == Ok {
        LaidSame(g, d2, disk, now, q, base, places, longs + [last]);
        NamedNow(g, disk, now, q, base, places, name, short, directory, ch, longs);
        IdleStart(now);
        if directory {
          IdleGeometry(now);
          ListsHead(g, d2, disk, now, place, first);
        }
        ListsFewer(g, d2, disk, start, place, ch);
        ListsOnly(g, d2, disk, start, places[..n + 1]);
        OnlyJoin(g, d, d2, disk, start, places[..n + 1]);
      }
    }

    /** The end mark behind the places, then deleted entries in all of them. */
    method Reserve(places: seq<Ref>, end: bool, need: nat, ghost q: Ref, ghost base: nat, ghost d0: Disk, ghost files: map<Ref, seq<nat>>,
                   ghost now: map<Ref, seq<nat>>)
      returns (e: Error, ghost ended: Disk)
      requires Adding(d0, files, now, []) && !writeFailed && Room(g, disk, now, q, base, places, need, end)
      modifies this`disk, this`history, this`writeFailed
      ensures Valid() && AddTrail(g, d0, files, old(history), history)
      ensures e == Ok ==> Adding(d0, files, now, []) && !writeFailed && AllFree(g, disk, now, places) && Laid(g, disk, now, q, base, places)
      ensures e == Ok ==> |places| == need + (if end then 1 else 0) && OnlyPlaces(g, old(disk), disk, now, places)
      ensures e == Ok ==> if end then EndMark(g, disk, places[need]) && |history| > |old(history)| && history[|old(history)|] == ended else ended == old(disk)
      ensures e == Ok ==> Laid(g, ended, now, q, base, places) && Consistent(g, ended, now)
      ensures e == Ok ==>
        && |history| == |old(history)| + need + (if end then 1 else 0)
        && FillStates(g, ended, places, Placeholders(need), history[..|history| - need], history, need)
      ensures e in {Ok, EIO} && (healthy ==> e == Ok)
    {
      hide Upheld, AddTrail, Clean, Building, Synced, AllFree, FreePlace, DirsKept, WithEntry, Room, Laid, Holds, Consistent, Harmless,
        OnlyPlaces, FillStates, EndMark;
      AddTrailNone(g, d0, files, history);
      RoomPlaces(g, disk, now, q, base, places, need, end);
      AddingConsistent(d0, files, now, []);
      OnlyNone(g, disk, now, places);
      ended := disk;
      if end {
        ghost var d := disk;
        LaidEnded(g, disk, now, q, base, places, need, Zeros(32));
        UpheldEntry(g, d0, files, d, now, places[need], Zeros(32));
        EntryOnly(g, d, places[need], Zeros(32), now, places);
        ZeroIsEnd(g, d, places[need]);
        e := PlaceEntry(places[need], Zeros(32), d0, files, now, []);
        if e != Ok {
          return;
        }
        AllFreeStay(g, d, disk, now, places);
        e := VolumeFlush();
        if e != Ok {
          return;
        }
        ended := disk;
        AddingConsistent(d0, files, now, []);
      }
      ghost var h := history;
      e := PlaceEntries(places, Placeholders(need), q, base, d0, files, now, []);
      AddTrailJoin(g, d0, files, old(history), h, history);
      if e != Ok {
        return;
      }
      FillPrefix(g, ended, places, Placeholders(need), h, history, need);
      OnlyMore(g, ended, disk, now, places[..need], places);
      OnlyJoin(g, old(disk), ended, disk, now, places);
      if end {
        LastKept(g, ended, disk, now, q, base, places, need);
      }
      e := VolumeFlush();
    }

    /** The end of an addition: everything is on the disk, the volume is marked clean. */
    method Settle(ghost d0: Disk, ghost files: map<Ref, seq<nat>>, ghost now: map<Ref, seq<nat>>) returns (e: Error)
      requires Adding(d0, files, now, []) && dirty == {} && !writeFailed
      modifies this`disk, this`history, this`writeFailed, this`dirty, this`cache
      ensures Valid() && AddTrail(g, d0, files, old(history), history)
      ensures e == Ok ==> Idle(now) && !writeFailed && Upheld(g, d0, files, disk, now)
      ensures ListsKept(g, old(disk), disk, now) && DirsKept(g, old(disk), disk, now)
      ensures e in {Ok, EIO} && (healthy ==> e == Ok)
    {
      hide AddTrail, Clean, Building, Synced, Stays, Phase, Trail, Idle, Consistent, CacheKeeps, FlushSafe, ListsKept, DirsKept;
      ghost var b := disk;
      AddingBase(d0, files, now, []);
      AddTrailNone(g, d0, files, history);
      PhaseLists(g, b, now, disk);
      PhaseDirs(g, b, now, disk);
      e := VolumeFlush();
      if e != Ok {
        return;
      }
      e := FinishWrite(Ok, b, now);
      TrailAdds(g, d0, files, b, now, old(history), history);
      UpheldPhase(g, d0, files, b, now, disk);
      PhaseLists(g, b, now, disk);
      PhaseDirs(g, b, now, disk);
    }
  }
}
