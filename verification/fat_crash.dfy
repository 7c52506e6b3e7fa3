/**
 What a volume promises while it is being changed. A phase of an operation has
 a reference disk and the objects that count; every sector write of the phase
 keeps those objects exactly as they are on the reference disk, and a FAT marked
 clean has no lost cluster. The directory-entry write of a replacement is the
 one step that moves from a phase to the next.
 */
module FatCrash {
  import opened Basics
  import opened FatDisk
  import opened FatSlots
  import opened FatChains

  /** The FAT copies that the cache is written to. */
  predicate Written(g: Geometry, f: nat) { f < g.copies && (g.mirrored || f == g.active) }

  ghost predicate Phase(g: Geometry, b: Disk, files: map<Ref, seq<nat>>, d: Disk) {
    && ValidGeometry(g) && ValidDisk(g, d) && SameOn(g, b, d, Owned(files))
    && (forall i :: SectorBytes(g, d, Root(i)) == SectorBytes(g, b, Root(i)))
    && (Clean(g, Fat(g, d)[1].value) ==> NothingLost(g, Fat(g, d), files))
  }

  // ---------------------------------------------------------------- consequences of a phase

  lemma EntryOwned(g: Geometry, d: Disk, files: map<Ref, seq<nat>>, r: Ref)
    requires Consistent(g, d, files) && r in files && r.Entry?
    ensures HasEntry(g, d, r)
    ensures r.addr.Root? || (r.addr.Data? && r.addr.cluster in Owned(files))
  {
    hide Housed, IsChain, DirectoryRef;
    HousedPlace(g, d, files, r);
  }

  lemma EntrySame(g: Geometry, b: Disk, files: map<Ref, seq<nat>>, d: Disk, r: Ref)
    requires Consistent(g, b, files) && Phase(g, b, files, d) && r in files && r.Entry?
    ensures SectorBytes(g, d, r.addr) == SectorBytes(g, b, r.addr)
    ensures HasEntry(g, d, r) && HasEntry(g, b, r) && EntryBytes(g, d, r) == EntryBytes(g, b, r)
  {
    EntryOwned(g, b, files, r);
  }

  lemma PhaseChain(g: Geometry, b: Disk, files: map<Ref, seq<nat>>, d: Disk, r: Ref)
    requires Consistent(g, b, files) && Phase(g, b, files, d) && r in files
    ensures files[r] != [] ==> IsChain(g, Fat(g, d), files[r]) && |files[r]| <= 65536
    ensures ChainBytes(g, d, files[r]) == ChainBytes(g, b, files[r])
  {
    hide IsChain, ChainBytes;
    if files[r] != [] {
      ChainSame(g, b, d, files[r], Owned(files));
    }
    ChainBytesSame(g, b, d, files[r]);
  }

  /** Directories are written by no phase. */
  lemma PhaseEnds(g: Geometry, b: Disk, files: map<Ref, seq<nat>>, d: Disk, q: Ref)
    requires Phase(g, b, files, d) && q in files
    ensures NoNewEnd(g, b, d, Slots(g, files[q]))
  {
    hide Slots, SectorBytes, NoNewEnd, NothingLost;
    var slots := Slots(g, files[q]);
    forall j | 0 <= j < |slots| && slots[j].Entry?
      ensures SectorBytes(g, d, slots[j].addr) == SectorBytes(g, b, slots[j].addr)
    {
      SlotHome(g, files[q], slots[j]);
      assert files[q] != [] ==> slots[j].addr.cluster in Owned(files);
    }
    SameEnds(g, b, d, slots);
  }

  lemma PhaseDirectory(g: Geometry, b: Disk, files: map<Ref, seq<nat>>, d: Disk, q: Ref)
    requires Consistent(g, b, files) && Phase(g, b, files, d) && q in files && DirectoryRef(g, b, q)
    ensures DirectoryRef(g, d, q)
  {
    hide Consistent, Phase, EntryBytes, IsDirectory;
    if q.Entry? {
      EntrySame(g, b, files, d, q);
    }
  }

  lemma PhaseEntry(g: Geometry, b: Disk, files: map<Ref, seq<nat>>, d: Disk, r: Ref)
    requires Consistent(g, b, files) && Phase(g, b, files, d) && r in files && r.Entry?
    ensures EntryOk(g, d, r, files[r]) && Housed(g, d, files, r)
  {
    hide EntryBytes, FileSize, FirstCluster, LiveEntry, IsDirectory, IsChain, Phase, SameOn, DirectoryRef, Shown, NoNewEnd, Slots;
    EntrySame(g, b, files, d, r);
    var q :| q in files && DirectoryRef(g, b, q) && Shown(g, b, Slots(g, files[q]), r);
    PhaseEnds(g, b, files, d, q);
    ShownStays(g, b, d, Slots(g, files[q]), r);
    PhaseDirectory(g, b, files, d, q);
  }

  /** Throughout a phase the volume stays consistent ... */
  lemma PhaseConsistent(g: Geometry, b: Disk, files: map<Ref, seq<nat>>, d: Disk)
    requires Consistent(g, b, files) && Phase(g, b, files, d)
    ensures Consistent(g, d, files)
  {
    hide EntryOk, Housed, IsChain;
    assert ValidGeometry(g) && ValidDisk(g, d) && Disjoint(files);
    forall r | r in files && files[r] != []
      ensures IsChain(g, Fat(g, d), files[r]) && |files[r]| <= 65536
    {
      PhaseChain(g, b, files, d, r);
    }
    forall r | r in files && r.Entry?
      ensures EntryOk(g, d, r, files[r]) && Housed(g, d, files, r)
    {
      PhaseEntry(g, b, files, d, r);
    }
  }

  /** ... and every object reads as it does on the reference disk. */
  lemma PhaseReads(g: Geometry, b: Disk, files: map<Ref, seq<nat>>, d: Disk, r: Ref)
    requires Consistent(g, b, files) && Phase(g, b, files, d) && r in files && r.Entry?
    ensures ReadFile(g, d, r) == ReadFile(g, b, r)
  {
    hide ReadFile, EntryBytes, ChainBytes, FileSize, IsChain;
    EntrySame(g, b, files, d, r);
    PhaseChain(g, b, files, d, r);
    PhaseConsistent(g, b, files, d);
    ReadObject(g, d, r, files[r]);
    ReadObject(g, b, r, files[r]);
  }

  // ---------------------------------------------------------------- writes that keep a phase

  /** The cache agrees with the reference disk on every owned cluster. */
  ghost predicate CacheKeeps(g: Geometry, b: Disk, files: map<Ref, seq<nat>>, cache: seq<Cell>) {
    |cache| == Limit(g) && g.active < |b.fat| && |Fat(g, b)| == Limit(g) &&
    forall c :: c in Owned(files) && c < Limit(g) ==> cache[c].value == Fat(g, b)[c].value
  }

  lemma FatWriteKeeps(g: Geometry, b: Disk, files: map<Ref, seq<nat>>, d: Disk, f: nat, s: nat, cache: seq<Cell>)
    requires Phase(g, b, files, d) && CacheKeeps(g, b, files, cache) && f < g.copies
    requires f == g.active ==>
      var fat := Spliced(g, Fat(g, d), s, cache); Clean(g, fat[1].value) ==> NothingLost(g, fat, files)
    ensures Phase(g, b, files, Apply(g, d, FatWrite(f, s, cache)))
  {
    hide Clean, NothingLost;
    var d' := Apply(g, d, FatWrite(f, s, cache));
    assert d'.sectors == d.sectors;
    assert Fat(g, d') == if f == g.active then Spliced(g, Fat(g, d), s, cache) else Fat(g, d);
  }

  lemma SectorWriteKeeps(g: Geometry, b: Disk, files: map<Ref, seq<nat>>, d: Disk, a: Addr, bytes: seq<byte>)
    requires Phase(g, b, files, d) && |bytes| == g.sector
    requires a.Info? || (a.Data? && a.cluster !in Owned(files))
    ensures Phase(g, b, files, Apply(g, d, SectorWrite(a, bytes)))
  {
    hide Clean, NothingLost;
    var d' := Apply(g, d, SectorWrite(a, bytes));
    assert Fat(g, d') == Fat(g, d);
    assert forall x :: x != a ==> SectorBytes(g, d', x) == SectorBytes(g, d, x);
  }

  /** Every disk state added to a history belongs to the phase. */
  ghost predicate Trail(g: Geometry, h0: seq<Disk>, h: seq<Disk>, b: Disk, files: map<Ref, seq<nat>>) {
    h0 <= h && forall k :: |h0| <= k < |h| ==> Phase(g, b, files, h[k])
  }

  lemma TrailJoin(g: Geometry, h0: seq<Disk>, h1: seq<Disk>, h2: seq<Disk>, b: Disk, files: map<Ref, seq<nat>>)
    requires Trail(g, h0, h1, b, files) && Trail(g, h1, h2, b, files)
    ensures Trail(g, h0, h2, b, files)
  {
    hide Phase;
    forall k | |h0| <= k < |h2|
      ensures Phase(g, b, files, h2[k])
    {
      if k < |h1| {
        assert h2[k] == h1[k];
      }
    }
  }

  // ---------------------------------------------------------------- the directory-entry write

  function Patched(s: seq<byte>, at: nat, e: seq<byte>): (r: seq<byte>)
    requires at + |e| <= |s|
    ensures |r| == |s|
  {
    s[..at] + e + s[at + |e|..]
  }

  lemma PatchedSlices(s: seq<byte>, at: nat, e: seq<byte>, x: nat)
    requires at + 32 <= |s| && |e| == 32 && x + 32 <= |s| && at % 32 == 0 && x % 32 == 0
    ensures Patched(s, at, e)[x..x + 32] == if x == at then e else s[x..x + 32]
  {
    var p := Patched(s, at, e);
    if x == at {
      assert p[at..at + 32] == e;
    } else {
      assert x + 32 <= at || at + 32 <= x;
      assert p[x..x + 32] == s[x..x + 32];
    }
  }

  /** The disk after the entry of r is overwritten with e. */
  function WithEntry(g: Geometry, d: Disk, r: Ref, e: seq<byte>): Disk
    requires HasEntry(g, d, r) && |e| == 32
  {
    Apply(g, d, SectorWrite(r.addr, Patched(SectorBytes(g, d, r.addr), r.at, e)))
  }

  lemma WithEntrySectors(g: Geometry, d: Disk, r: Ref, e: seq<byte>)
    requires ValidDisk(g, d) && HasEntry(g, d, r) && |e| == 32
    ensures ValidDisk(g, WithEntry(g, d, r, e)) && WithEntry(g, d, r, e).fat == d.fat
    ensures SectorBytes(g, WithEntry(g, d, r, e), r.addr) == Patched(SectorBytes(g, d, r.addr), r.at, e)
    ensures forall a :: a != r.addr ==> SectorBytes(g, WithEntry(g, d, r, e), a) == SectorBytes(g, d, a)
  {
    hide Patched;
    assert |SectorBytes(g, d, r.addr)| == g.sector;
  }

  /** Overwriting one entry leaves every other entry alone. */
  lemma WithEntryOthers(g: Geometry, d: Disk, r: Ref, e: seq<byte>, q: Ref)
    requires ValidDisk(g, d) && HasEntry(g, d, r) && |e| == 32 && HasEntry(g, d, q)
    ensures HasEntry(g, WithEntry(g, d, r, e), q)
    ensures EntryBytes(g, WithEntry(g, d, r, e), q) == if q == r then e else EntryBytes(g, d, q)
  {
    hide WithEntry, Patched, SectorBytes;
    WithEntrySectors(g, d, r, e);
    if q.addr == r.addr {
      PatchedSlices(SectorBytes(g, d, r.addr), r.at, e, q.at);
    }
  }

  /** e may become the entry of r with the chain ch, which no other object owns. */
  ghost predicate Replaceable(g: Geometry, d: Disk, files: map<Ref, seq<nat>>, r: Ref, ch: seq<nat>, e: seq<byte>) {
    && r in files && r.Entry? && HasEntry(g, d, r) && !IsDirectory(EntryBytes(g, d, r))
    && |e| == 32 && LiveEntry(e) && !IsDirectory(e) && FileSize(e) <= |ch| * ClusterSize(g)
    && FirstCluster(g, e) == (if ch == [] then 0 else ch[0])
    && (forall c :: c in ch ==> c !in Owned(files))
    && (ch != [] ==> g.active < |d.fat| && IsChain(g, Fat(g, d), ch) && |ch| <= 65536)
  }

  lemma WithEntryDisjoint(files: map<Ref, seq<nat>>, r: Ref, ch: seq<nat>)
    requires Disjoint(files) && r in files && (forall c :: c in ch ==> c !in Owned(files))
    ensures Disjoint(files[r := ch])
  {
    var f1 := files[r := ch];
    forall p, q, c | p in f1 && q in f1 && p != q && c in f1[p]
      ensures c !in f1[q]
    {
      assert p != r ==> c in Owned(files);
      assert q != r && c in f1[q] ==> c in Owned(files);
    }
  }

  /** An entry that is no end mark hides nothing. */
  lemma WithEntryEnds(g: Geometry, d: Disk, r: Ref, e: seq<byte>, slots: seq<Ref>)
    requires ValidDisk(g, d) && HasEntry(g, d, r) && |e| == 32 && e[0] != 0
    ensures NoNewEnd(g, d, WithEntry(g, d, r, e), slots)
  {
    hide WithEntry, EntryBytes;
    var d1 := WithEntry(g, d, r, e);
    forall j | 0 <= j < |slots| && EndMark(g, d1, slots[j])
      ensures EndMark(g, d, slots[j])
    {
      WithEntryHas(g, d, r, e, slots[j]);
      WithEntryOthers(g, d, r, e, slots[j]);
    }
  }

  lemma WithEntryHas(g: Geometry, d: Disk, r: Ref, e: seq<byte>, q: Ref)
    requires ValidDisk(g, d) && HasEntry(g, d, r) && |e| == 32
    ensures HasEntry(g, WithEntry(g, d, r, e), q) <==> HasEntry(g, d, q)
  {
    hide WithEntry, Patched, SectorBytes;
    WithEntrySectors(g, d, r, e);
  }

  lemma ObjectOk(g: Geometry, d: Disk, files: map<Ref, seq<nat>>, q: Ref)
    requires Consistent(g, d, files) && q in files && q.Entry?
    ensures ValidGeometry(g) && ValidDisk(g, d) && EntryOk(g, d, q, files[q]) && Housed(g, d, files, q) && HasEntry(g, d, q)
  {
    hide IsChain, Housed;
  }

  lemma WithEntryOk(g: Geometry, d: Disk, files: map<Ref, seq<nat>>, r: Ref, ch: seq<nat>, e: seq<byte>, q: Ref)
    requires Consistent(g, d, files) && Replaceable(g, d, files, r, ch, e) && q in files && q.Entry?
    ensures EntryOk(g, WithEntry(g, d, r, e), q, files[r := ch][q])
  {
    hide Consistent, WithEntry, EntryBytes, FileSize, FirstCluster, LiveEntry, IsDirectory, IsChain, HasEntry;
    ObjectOk(g, d, files, q);
    WithEntryOthers(g, d, r, e, q);
  }

  lemma WithEntryDirectory(g: Geometry, d: Disk, r: Ref, e: seq<byte>, p: Ref)
    requires ValidDisk(g, d) && HasEntry(g, d, r) && |e| == 32 && DirectoryRef(g, d, p) && p != r
    ensures DirectoryRef(g, WithEntry(g, d, r, e), p)
  {
    hide WithEntry, EntryBytes, IsDirectory;
    if p.Entry? {
      WithEntryOthers(g, d, r, e, p);
    }
  }

  lemma WithEntryHoused(g: Geometry, d: Disk, files: map<Ref, seq<nat>>, r: Ref, ch: seq<nat>, e: seq<byte>, q: Ref)
    requires Consistent(g, d, files) && Replaceable(g, d, files, r, ch, e) && q in files && q.Entry?
    ensures Housed(g, WithEntry(g, d, r, e), files[r := ch], q)
  {
    hide Consistent, WithEntry, EntryBytes, FileSize, FirstCluster, IsDirectory, IsChain, HasEntry, Slots, Shown, NoNewEnd, EntryOk;
    ObjectOk(g, d, files, q);
    var p :| p in files && DirectoryRef(g, d, p) && Shown(g, d, Slots(g, files[p]), q);
    WithEntryDirectory(g, d, r, e, p);
    WithEntryEnds(g, d, r, e, Slots(g, files[p]));
    ShownStays(g, d, WithEntry(g, d, r, e), Slots(g, files[p]), q);
    assert files[r := ch][p] == files[p];
  }

  /** The entry write takes a consistent volume to a consistent volume with the new chain. */
  lemma WithEntryConsistent(g: Geometry, d: Disk, files: map<Ref, seq<nat>>, r: Ref, ch: seq<nat>, e: seq<byte>)
    requires Consistent(g, d, files) && Replaceable(g, d, files, r, ch, e)
    ensures Consistent(g, WithEntry(g, d, r, e), files[r := ch])
  {
    hide WithEntry, EntryBytes, FileSize, FirstCluster, LiveEntry, IsDirectory, IsChain, EntryOk, Housed;
    var d1, f1 := WithEntry(g, d, r, e), files[r := ch];
    WithEntrySectors(g, d, r, e);
    WithEntryDisjoint(files, r, ch);
    forall q | q in f1 && q.Entry?
      ensures EntryOk(g, d1, q, f1[q]) && Housed(g, d1, f1, q)
    {
      WithEntryOk(g, d, files, r, ch, e, q);
      WithEntryHoused(g, d, files, r, ch, e, q);
    }
  }

  // ---------------------------------------------------------------- crash safety of a replacement

  /** A sector is what it was, outside the entry of r. */
  ghost predicate SectorKept(g: Geometry, d0: Disk, d: Disk, r: Ref, a: Addr) {
    && |SectorBytes(g, d, a)| == |SectorBytes(g, d0, a)|
    && forall x :: 0 <= x < |SectorBytes(g, d, a)| && !(r.Entry? && a == r.addr && r.at <= x < r.at + 32) ==>
         SectorBytes(g, d, a)[x] == SectorBytes(g, d0, a)[x]
  }

  /** Another object keeps its entry, its chain and its sectors; a file reads as before. */
  ghost predicate Kept(g: Geometry, d0: Disk, d: Disk, r: Ref, q: Ref, ch: seq<nat>) {
    && g.active < |d0.fat| && g.active < |d.fat|
    && (q.Entry? ==> HasEntry(g, d0, q) && HasEntry(g, d, q) && EntryBytes(g, d, q) == EntryBytes(g, d0, q))
    && (ch != [] ==> IsChain(g, Fat(g, d), ch))
    && (forall c, i :: c in ch ==> SectorKept(g, d0, d, r, Data(c, i)))
    && (q.Entry? && !IsDirectory(EntryBytes(g, d0, q)) ==> ReadFile(g, d, q) == ReadFile(g, d0, q))
  }

  ghost predicate OthersKept(g: Geometry, d0: Disk, d: Disk, files: map<Ref, seq<nat>>, r: Ref) {
    && (forall q :: q in files && q != r ==> Kept(g, d0, d, r, q, files[q]))
    && (forall i :: SectorKept(g, d0, d, r, Root(i)))
  }

  /** The same objects, of which only r may have another chain. */
  ghost predicate SameButFor(files: map<Ref, seq<nat>>, now: map<Ref, seq<nat>>, r: Ref) {
    now.Keys == files.Keys && forall q :: q in files && q != r ==> now[q] == files[q]
  }

  /** A FAT marked clean accounts for every cluster in use, on a volume whose other objects are unchanged. */
  ghost predicate CleanIsComplete(g: Geometry, d: Disk, files: map<Ref, seq<nat>>, r: Ref) {
    && g.active < |d.fat| && 1 < |Fat(g, d)|
    && (Clean(g, Fat(g, d)[1].value) ==>
          exists now :: SameButFor(files, now, r) && Consistent(g, d, now) && NothingLost(g, Fat(g, d), now))
  }

  /** What a crash may leave when the contents of r are being replaced by data. */
  ghost predicate CrashSafe(g: Geometry, d0: Disk, d: Disk, files: map<Ref, seq<nat>>, r: Ref, data: seq<byte>) {
    && g.active < |d0.fat| && g.active < |d.fat|
    && (ReadFile(g, d, r) == ReadFile(g, d0, r) || ReadFile(g, d, r) == Some(data))
    && OthersKept(g, d0, d, files, r)
    && CleanIsComplete(g, d, files, r)
  }

  lemma SectorSame(g: Geometry, d0: Disk, d: Disk, r: Ref, a: Addr)
    requires SectorBytes(g, d, a) == SectorBytes(g, d0, a)
    ensures SectorKept(g, d0, d, r, a)
  {
  }

  lemma PhaseKept(g: Geometry, b: Disk, files: map<Ref, seq<nat>>, d: Disk, r: Ref, q: Ref)
    requires Consistent(g, b, files) && Phase(g, b, files, d) && q in files
    ensures Kept(g, b, d, r, q, files[q])
  {
    hide SectorKept, ReadFile, IsChain, EntryBytes, IsDirectory, EntryOk, Housed;
    if q.Entry? {
      EntrySame(g, b, files, d, q);
      PhaseReads(g, b, files, d, q);
    }
    PhaseChain(g, b, files, d, q);
    forall c, i | c in files[q]
      ensures SectorKept(g, b, d, r, Data(c, i))
    {
      assert c in Owned(files);
      SectorSame(g, b, d, r, Data(c, i));
    }
  }

  lemma PhaseOthers(g: Geometry, b: Disk, files: map<Ref, seq<nat>>, d: Disk, r: Ref)
    requires Consistent(g, b, files) && Phase(g, b, files, d)
    ensures OthersKept(g, b, d, files, r)
  {
    hide Kept, Consistent, SectorKept;
    forall q | q in files && q != r
      ensures Kept(g, b, d, r, q, files[q])
    {
      PhaseKept(g, b, files, d, r, q);
    }
    forall i: nat
      ensures SectorKept(g, b, d, r, Root(i))
    {
      SectorSame(g, b, d, r, Root(i));
    }
  }

  lemma PhaseClean(g: Geometry, b: Disk, files: map<Ref, seq<nat>>, d: Disk, r: Ref)
    requires Consistent(g, b, files) && Phase(g, b, files, d) && r in files
    ensures CleanIsComplete(g, d, files, r)
  {
    hide Consistent, NothingLost, SameOn;
    PhaseConsistent(g, b, files, d);
    assert SameButFor(files, files, r);
  }

  /** Before the entry write a crash leaves the old contents. */
  lemma CrashBefore(g: Geometry, b: Disk, files: map<Ref, seq<nat>>, d: Disk, r: Ref, data: seq<byte>)
    requires Consistent(g, b, files) && Phase(g, b, files, d) && r in files && r.Entry?
    ensures CrashSafe(g, b, d, files, r, data)
  {
    hide OthersKept, CleanIsComplete, ReadFile, SameOn, Disjoint, IsChain, EntryOk, Housed;
    PhaseReads(g, b, files, d, r);
    PhaseOthers(g, b, files, d, r);
    PhaseClean(g, b, files, d, r);
  }

  lemma PatchedKept(g: Geometry, d: Disk, r: Ref, e: seq<byte>, a: Addr)
    requires ValidDisk(g, d) && HasEntry(g, d, r) && |e| == 32
    ensures SectorKept(g, d, WithEntry(g, d, r, e), r, a)
  {
    hide WithEntry;
    WithEntrySectors(g, d, r, e);
  }

  /** The cluster of an entry belongs to a directory and to nothing else. */
  lemma HomeIsDirectory(g: Geometry, d: Disk, files: map<Ref, seq<nat>>, r: Ref, q: Ref)
    requires Consistent(g, d, files) && r in files && r.Entry? && q in files && !DirectoryRef(g, d, q)
    ensures r.addr.Data? ==> r.addr.cluster !in files[q] && r.addr.cluster in Owned(files)
  {
    hide EntryOk, IsChain, DirectoryRef, Housed;
    HousedPlace(g, d, files, r);
    if r.addr.Data? {
      var p :| p in files && DirectoryRef(g, d, p) && r.addr.cluster in files[p];
    }
  }

  lemma WithEntryBytes(g: Geometry, d: Disk, r: Ref, e: seq<byte>, ch: seq<nat>)
    requires ValidDisk(g, d) && HasEntry(g, d, r) && |e| == 32
    requires r.addr.Data? ==> r.addr.cluster !in ch
    ensures ChainBytes(g, WithEntry(g, d, r, e), ch) == ChainBytes(g, d, ch)
  {
    hide WithEntry, Patched, ChainBytes;
    WithEntrySectors(g, d, r, e);
    ChainBytesSame(g, d, WithEntry(g, d, r, e), ch);
  }

  lemma WithEntryFile(g: Geometry, d: Disk, files: map<Ref, seq<nat>>, r: Ref, ch: seq<nat>, e: seq<byte>, q: Ref)
    requires Consistent(g, d, files) && Replaceable(g, d, files, r, ch, e)
    requires q in files && q != r && q.Entry? && !IsDirectory(EntryBytes(g, d, q))
    ensures ReadFile(g, WithEntry(g, d, r, e), q) == ReadFile(g, d, q)
  {
    hide WithEntry, ReadFile, IsChain, ChainBytes, FileSize, FirstCluster, LiveEntry, SectorBytes, Patched;
    var d1, f1 := WithEntry(g, d, r, e), files[r := ch];
    assert Replaceable(g, d, files, r, ch, e);
    WithEntryConsistent(g, d, files, r, ch, e);
    WithEntryOthers(g, d, r, e, q);
    HomeIsDirectory(g, d, files, r, q);
    WithEntryBytes(g, d, r, e, files[q]);
    ReadObject(g, d, q, files[q]);
    ReadObject(g, d1, q, f1[q]);
  }

  lemma WithEntryKept(g: Geometry, d: Disk, files: map<Ref, seq<nat>>, r: Ref, ch: seq<nat>, e: seq<byte>, q: Ref)
    requires Consistent(g, d, files) && Replaceable(g, d, files, r, ch, e) && q in files && q != r
    ensures Kept(g, d, WithEntry(g, d, r, e), r, q, files[q])
  {
    hide WithEntry, ReadFile, IsChain, FileSize, FirstCluster, LiveEntry, SectorKept, EntryBytes, IsDirectory;
    var d1 := WithEntry(g, d, r, e);
    WithEntrySectors(g, d, r, e);
    if q.Entry? {
      WithEntryOthers(g, d, r, e, q);
      if !IsDirectory(EntryBytes(g, d, q)) {
        WithEntryFile(g, d, files, r, ch, e, q);
      }
    }
    forall c, i | c in files[q]
      ensures SectorKept(g, d, d1, r, Data(c, i))
    {
      PatchedKept(g, d, r, e, Data(c, i));
    }
  }

  /** The replaced file reads as its new chain. */
  lemma WithEntryReads(g: Geometry, d: Disk, files: map<Ref, seq<nat>>, r: Ref, ch: seq<nat>, e: seq<byte>)
    requires Consistent(g, d, files) && Replaceable(g, d, files, r, ch, e)
    ensures FileSize(e) <= |ChainBytes(g, d, ch)|
    ensures ReadFile(g, WithEntry(g, d, r, e), r) == Some(ChainBytes(g, d, ch)[..FileSize(e)])
  {
    hide WithEntry, ReadFile, IsChain, ChainBytes, FileSize, FirstCluster, LiveEntry, SectorBytes, Patched, Housed;
    var d1, f1 := WithEntry(g, d, r, e), files[r := ch];
    WithEntryConsistent(g, d, files, r, ch, e);
    WithEntryOthers(g, d, r, e, r);
    EntryOwned(g, d, files, r);
    WithEntryBytes(g, d, r, e, ch);
    assert f1[r] == ch;
    ReadObject(g, d1, r, ch);
  }

  lemma SectorKeptJoin(g: Geometry, d0: Disk, d1: Disk, d2: Disk, r: Ref, a: Addr)
    requires SectorKept(g, d0, d1, r, a) && SectorKept(g, d1, d2, r, a)
    ensures SectorKept(g, d0, d2, r, a)
  {
    hide SectorBytes;
  }

  lemma KeptJoin(g: Geometry, d0: Disk, d1: Disk, d2: Disk, r: Ref, q: Ref, ch: seq<nat>)
    requires Kept(g, d0, d1, r, q, ch) && Kept(g, d1, d2, r, q, ch)
    ensures Kept(g, d0, d2, r, q, ch)
  {
    hide SectorKept, ReadFile, IsChain, EntryBytes, IsDirectory, HasEntry;
    forall c, i | c in ch
      ensures SectorKept(g, d0, d2, r, Data(c, i))
    {
      SectorKeptJoin(g, d0, d1, d2, r, Data(c, i));
    }
  }

  /** After the entry write a crash leaves the new contents, whatever is still written in the next phase. */
  lemma CrashAfter(g: Geometry, d0: Disk, d: Disk, d2: Disk, files: map<Ref, seq<nat>>, r: Ref, ch: seq<nat>, e: seq<byte>,
                   data: seq<byte>)
    requires Consistent(g, d0, files) && Phase(g, d0, files, d) && Replaceable(g, d, files, r, ch, e)
    requires |data| == FileSize(e) && data <= ChainBytes(g, d, ch)
    requires Phase(g, WithEntry(g, d, r, e), files[r := ch], d2)
    ensures ReadFile(g, d2, r) == Some(data) && CrashSafe(g, d0, d2, files, r, data)
    ensures Consistent(g, d2, files[r := ch])
  {
    hide Consistent, Phase, Kept, SectorKept, ReadFile, WithEntry, ChainBytes, FileSize, NothingLost, IsChain,
      LiveEntry, IsDirectory, FirstCluster;
    PhaseConsistent(g, d0, files, d);
    var b1, f1 := WithEntry(g, d, r, e), files[r := ch];
    WithEntryConsistent(g, d, files, r, ch, e);
    PhaseConsistent(g, b1, f1, d2);
    ReplacedRead(g, d, d2, files, r, ch, e, data);
    forall q | q in files && q != r
      ensures Kept(g, d0, d2, r, q, files[q])
    {
      PhaseKept(g, d0, files, d, r, q);
      WithEntryKept(g, d, files, r, ch, e, q);
      PhaseKept(g, b1, f1, d2, r, q);
      KeptJoin(g, d0, d, b1, r, q, files[q]);
      KeptJoin(g, d0, b1, d2, r, q, files[q]);
    }
    forall i: nat
      ensures SectorKept(g, d0, d2, r, Root(i))
    {
      RootKept(g, d0, d, d2, files, r, ch, e, i);
    }
    PhaseUnfold(g, b1, f1, d2);
    PhaseUnfold(g, d0, files, d);
    assert SameButFor(files, f1, r);
    assert CleanIsComplete(g, d2, files, r);
    assert OthersKept(g, d0, d2, files, r);
  }

  lemma PhaseUnfold(g: Geometry, b: Disk, files: map<Ref, seq<nat>>, d: Disk)
    requires Phase(g, b, files, d)
    ensures g.active < |d.fat| && g.active < |b.fat| && 1 < |Fat(g, d)|
    ensures Clean(g, Fat(g, d)[1].value) ==> NothingLost(g, Fat(g, d), files)
  {
  }

  lemma ReplacedRead(g: Geometry, d: Disk, d2: Disk, files: map<Ref, seq<nat>>, r: Ref, ch: seq<nat>, e: seq<byte>,
                     data: seq<byte>)
    requires Consistent(g, d, files) && Replaceable(g, d, files, r, ch, e)
    requires |data| == FileSize(e) && data <= ChainBytes(g, d, ch)
    requires Phase(g, WithEntry(g, d, r, e), files[r := ch], d2)
    ensures g.active < |d2.fat| && ReadFile(g, d2, r) == Some(data)
  {
    hide Consistent, Phase, ReadFile, WithEntry, ChainBytes, FileSize, LiveEntry, IsDirectory, FirstCluster, IsChain;
    WithEntryConsistent(g, d, files, r, ch, e);
    WithEntryReads(g, d, files, r, ch, e);
    PhaseReads(g, WithEntry(g, d, r, e), files[r := ch], d2, r);
    assert ChainBytes(g, d, ch)[..FileSize(e)] == data;
    PhaseUnfold(g, WithEntry(g, d, r, e), files[r := ch], d2);
  }

  lemma RootKept(g: Geometry, d0: Disk, d: Disk, d2: Disk, files: map<Ref, seq<nat>>, r: Ref, ch: seq<nat>, e: seq<byte>, i: nat)
    requires Phase(g, d0, files, d) && Replaceable(g, d, files, r, ch, e)
    requires Phase(g, WithEntry(g, d, r, e), files[r := ch], d2)
    ensures SectorKept(g, d0, d2, r, Root(i))
  {
    hide SectorKept, WithEntry, SectorBytes, SameOn, NothingLost, IsChain;
    var b1 := WithEntry(g, d, r, e);
    SectorSame(g, d0, d, r, Root(i));
    PatchedKept(g, d, r, e, Root(i));
    SectorSame(g, b1, d2, r, Root(i));
    SectorKeptJoin(g, d0, d, b1, r, Root(i));
    SectorKeptJoin(g, d0, b1, d2, r, Root(i));
  }
}
