/**
 Directory growth and creation: while entries are written into free places and a
 directory gets another cluster, every object that was there keeps its entry,
 its chain as far as it went, and what it reads as.
 */
module FatGrowth {
  import opened Basics
  import opened FatDisk
  import opened FatSlots
  import opened FatChains
  import opened FatCrash

  /** The objects of files are all on disk b, whose objects are now; other objects and longer directories are new. */
  ghost predicate Upheld(g: Geometry, d0: Disk, files: map<Ref, seq<nat>>, b: Disk, now: map<Ref, seq<nat>>) {
    && Consistent(g, b, now) && g.active < |d0.fat|
    && forall q :: q in files ==> Stays(g, d0, files[q], b, now, q)
  }

  ghost predicate Stays(g: Geometry, d0: Disk, ch: seq<nat>, b: Disk, now: map<Ref, seq<nat>>, q: Ref)
    requires g.active < |d0.fat| && g.active < |b.fat|
  {
    && q in now && ch <= now[q]
    && (q.Entry? ==> HasEntry(g, d0, q) && HasEntry(g, b, q) && EntryBytes(g, b, q) == EntryBytes(g, d0, q))
    && (q.Entry? && !IsDirectory(EntryBytes(g, d0, q)) ==> now[q] == ch && ReadFile(g, b, q) == ReadFile(g, d0, q))
  }

  /** What a crash may leave while something is being added. */
  ghost predicate AddSafe(g: Geometry, d0: Disk, files: map<Ref, seq<nat>>, d: Disk) {
    exists now :: Upheld(g, d0, files, d, now) && (Clean(g, Fat(g, d)[1].value) ==> NothingLost(g, Fat(g, d), now))
  }

  lemma UpheldStart(g: Geometry, d: Disk, files: map<Ref, seq<nat>>)
    requires Consistent(g, d, files)
    ensures Upheld(g, d, files, d, files)
  {
    hide ReadFile, IsChain, IsDirectory, Housed;
    forall q | q in files
      ensures Stays(g, d, files[q], d, files, q)
    {
    }
  }

  lemma UpheldPhase(g: Geometry, d0: Disk, files: map<Ref, seq<nat>>, b: Disk, now: map<Ref, seq<nat>>, d: Disk)
    requires Upheld(g, d0, files, b, now) && Phase(g, b, now, d)
    ensures Upheld(g, d0, files, d, now) && AddSafe(g, d0, files, d)
  {
    hide Consistent, Phase, ReadFile, IsDirectory, NothingLost, Clean;
    PhaseConsistent(g, b, now, d);
    PhaseUnfold(g, b, now, d);
    forall q | q in files
      ensures Stays(g, d0, files[q], d, now, q)
    {
      assert Stays(g, d0, files[q], b, now, q);
      if q.Entry? {
        EntrySame(g, b, now, d, q);
        PhaseReads(g, b, now, d, q);
      }
    }
  }

  // ---------------------------------------------------------------- entries in free places

  /** A place for an entry that no object has, in the root area or in a cluster of a directory. */
  ghost predicate FreePlace(g: Geometry, d: Disk, now: map<Ref, seq<nat>>, r: Ref) {
    HasEntry(g, d, r) && r !in now && InDirectory(g, d, now, r)
  }

  lemma FreeHome(g: Geometry, d: Disk, now: map<Ref, seq<nat>>, r: Ref, q: Ref)
    requires Consistent(g, d, now) && FreePlace(g, d, now, r) && q in now && !DirectoryRef(g, d, q)
    ensures r.addr.Data? ==> r.addr.cluster !in now[q]
  {
    hide EntryOk, IsChain, DirectoryRef;
    if r.addr.Data? {
      var p :| p in now && DirectoryRef(g, d, p) && r.addr.cluster in now[p];
    }
  }

  /** A place that listing its directory comes to only after an end mark, or at one. */
  ghost predicate Behind(g: Geometry, d: Disk, now: map<Ref, seq<nat>>, q: Ref, k: nat, r: Ref) {
    && q in now && DirectoryRef(g, d, q) && k < |Slots(g, now[q])| && Slots(g, now[q])[k] == r
    && !Open(g, d, Slots(g, now[q]), k + 1)
  }

  /** Writing e at the place hides no object: it is no end mark, or one behind an end mark. */
  ghost predicate Harmless(g: Geometry, d: Disk, now: map<Ref, seq<nat>>, r: Ref, e: seq<byte>) {
    e != [] && (e[0] != 0 || exists q, k: nat :: Behind(g, d, now, q, k, r))
  }

  lemma DirectoryChain(g: Geometry, d: Disk, now: map<Ref, seq<nat>>, q: Ref)
    requires Consistent(g, d, now) && q in now && DirectoryRef(g, d, q)
    ensures now[q] == [] ==> q.RootDir?
    ensures forall x, y :: 0 <= x < y < |now[q]| ==> now[q][x] != now[q][y]
  {
    hide FirstCluster, FileSize, LiveEntry, IsDirectory, Housed, IsChain;
    if now[q] != [] {
      forall x, y | 0 <= x < y < |now[q]|
        ensures now[q][x] != now[q][y]
      {
        ChainDistinct(g, Fat(g, d), now[q], x, y);
      }
    }
  }

  lemma ObjectsApart(g: Geometry, d: Disk, now: map<Ref, seq<nat>>, a: Ref, b: Ref, c: nat)
    requires Consistent(g, d, now) && a in now && b in now && c in now[a] && c in now[b]
    ensures a == b
  {
    hide IsChain, EntryOk, Housed;
  }

  /** A place belongs to one directory, and comes once in it. */
  lemma PlaceOwner(g: Geometry, d: Disk, now: map<Ref, seq<nat>>, p: Ref, i: nat, q: Ref, k: nat)
    requires Consistent(g, d, now) && p in now && DirectoryRef(g, d, p) && q in now && DirectoryRef(g, d, q)
    requires i < |Slots(g, now[p])| && k < |Slots(g, now[q])| && Slots(g, now[p])[i] == Slots(g, now[q])[k]
    ensures p == q && i == k
  {
    hide Consistent, DirectoryRef, Slots;
    var r := Slots(g, now[q])[k];
    SlotHome(g, now[p], r);
    SlotHome(g, now[q], r);
    DirectoryChain(g, d, now, p);
    DirectoryChain(g, d, now, q);
    if now[p] != [] {
      ObjectsApart(g, d, now, p, q, r.addr.cluster);
    }
    SlotsDistinct(g, now[p], i, k);
  }

  lemma EndsElsewhere(g: Geometry, d: Disk, r: Ref, e: seq<byte>, slots: seq<Ref>, n: nat)
    requires ValidDisk(g, d) && HasEntry(g, d, r) && |e| == 32 && Open(g, d, slots, n) && forall j :: 0 <= j < n ==> slots[j] != r
    ensures Open(g, WithEntry(g, d, r, e), slots, n)
  {
    hide WithEntry, EntryBytes;
    forall j | 0 <= j < n
      ensures !EndMark(g, WithEntry(g, d, r, e), slots[j])
    {
      WithEntryHas(g, d, r, e, slots[j]);
      if HasEntry(g, d, slots[j]) {
        WithEntryOthers(g, d, r, e, slots[j]);
      }
    }
  }

  lemma FreeListed(g: Geometry, d: Disk, now: map<Ref, seq<nat>>, r: Ref, e: seq<byte>, p: Ref, q: Ref)
    requires Consistent(g, d, now) && FreePlace(g, d, now, r) && |e| == 32 && Harmless(g, d, now, r, e)
    requires p in now && DirectoryRef(g, d, p) && ValidDisk(g, d) && Shown(g, d, Slots(g, now[p]), q)
    ensures Shown(g, WithEntry(g, d, r, e), Slots(g, now[p]), q)
  {
    hide Consistent, WithEntry, Slots, DirectoryRef, NoNewEnd, EndMark, HasEntry, InDirectory;
    var slots := Slots(g, now[p]);
    if e[0] != 0 {
      WithEntryEnds(g, d, r, e, slots);
      ShownStays(g, d, WithEntry(g, d, r, e), slots, q);
    } else {
      var home, k: nat :| Behind(g, d, now, home, k, r);
      var i :| 0 <= i < |slots| && slots[i] == q && Open(g, d, slots, i + 1);
      forall j | 0 <= j < i + 1
        ensures slots[j] != r
      {
        if slots[j] == r {
          PlaceOwner(g, d, now, p, j, home, k);
          assert false;
        }
      }
      EndsElsewhere(g, d, r, e, slots, i + 1);
    }
  }

  lemma FreeKept(g: Geometry, d: Disk, now: map<Ref, seq<nat>>, r: Ref, e: seq<byte>, q: Ref)
    requires Consistent(g, d, now) && FreePlace(g, d, now, r) && |e| == 32 && q in now && q.Entry?
    ensures EntryOk(g, WithEntry(g, d, r, e), q, now[q])
    ensures HasEntry(g, d, q) && HasEntry(g, WithEntry(g, d, r, e), q)
    ensures EntryBytes(g, WithEntry(g, d, r, e), q) == EntryBytes(g, d, q)
  {
    hide Consistent, WithEntry, EntryBytes, FileSize, FirstCluster, LiveEntry, IsDirectory, InDirectory, HasEntry;
    ObjectOk(g, d, now, q);
    WithEntryOthers(g, d, r, e, q);
  }

  lemma FreeWritten(g: Geometry, d: Disk, now: map<Ref, seq<nat>>, r: Ref, e: seq<byte>, q: Ref)
    requires Consistent(g, d, now) && FreePlace(g, d, now, r) && |e| == 32 && Harmless(g, d, now, r, e) && q in now && q.Entry?
    ensures EntryOk(g, WithEntry(g, d, r, e), q, now[q]) && Housed(g, WithEntry(g, d, r, e), now, q)
    ensures HasEntry(g, d, q) && HasEntry(g, WithEntry(g, d, r, e), q)
    ensures EntryBytes(g, WithEntry(g, d, r, e), q) == EntryBytes(g, d, q)
  {
    hide Consistent, WithEntry, EntryOk, EntryBytes, InDirectory, Harmless, Shown, Slots, HasEntry, DirectoryRef;
    var d1 := WithEntry(g, d, r, e);
    ObjectOk(g, d, now, q);
    FreeKept(g, d, now, r, e, q);
    var p :| p in now && DirectoryRef(g, d, p) && Shown(g, d, Slots(g, now[p]), q);
    assert p != r;
    WithEntryDirectory(g, d, r, e, p);
    FreeListed(g, d, now, r, e, p, q);
  }

  lemma FreeConsistent(g: Geometry, d: Disk, now: map<Ref, seq<nat>>, r: Ref, e: seq<byte>)
    requires Consistent(g, d, now) && FreePlace(g, d, now, r) && |e| == 32 && Harmless(g, d, now, r, e)
    ensures Consistent(g, WithEntry(g, d, r, e), now)
  {
    hide WithEntry, EntryBytes, IsChain, EntryOk, Housed, Harmless, InDirectory;
    WithEntrySectors(g, d, r, e);
    forall q | q in now && q.Entry?
      ensures EntryOk(g, WithEntry(g, d, r, e), q, now[q]) && Housed(g, WithEntry(g, d, r, e), now, q)
    {
      FreeWritten(g, d, now, r, e, q);
    }
  }

  lemma FreeReads(g: Geometry, d: Disk, now: map<Ref, seq<nat>>, r: Ref, e: seq<byte>, q: Ref)
    requires Consistent(g, d, now) && FreePlace(g, d, now, r) && |e| == 32 && Harmless(g, d, now, r, e)
    requires q in now && q.Entry? && HasEntry(g, d, q) && !IsDirectory(EntryBytes(g, d, q))
    ensures ReadFile(g, WithEntry(g, d, r, e), q) == ReadFile(g, d, q)
  {
    hide WithEntry, ReadFile, IsChain, ChainBytes, FileSize, FirstCluster, LiveEntry, SectorBytes, Patched, Housed, Harmless, InDirectory;
    var d1 := WithEntry(g, d, r, e);
    FreeConsistent(g, d, now, r, e);
    FreeWritten(g, d, now, r, e, q);
    FreeHome(g, d, now, r, q);
    WithEntryBytes(g, d, r, e, now[q]);
    ReadObject(g, d, q, now[q]);
    ReadObject(g, d1, q, now[q]);
  }

  /** Writing into a free place leaves every object alone. */
  lemma UpheldFree(g: Geometry, d0: Disk, files: map<Ref, seq<nat>>, d: Disk, now: map<Ref, seq<nat>>, r: Ref, e: seq<byte>)
    requires Upheld(g, d0, files, d, now) && FreePlace(g, d, now, r) && |e| == 32 && Harmless(g, d, now, r, e)
    ensures Upheld(g, d0, files, WithEntry(g, d, r, e), now)
  {
    hide Consistent, ReadFile, WithEntry, EntryBytes, IsDirectory, HasEntry, Housed, Harmless, InDirectory;
    FreeConsistent(g, d, now, r, e);
    WithEntryFat(g, d, now, r, e);
    forall q | q in files
      ensures Stays(g, d0, files[q], WithEntry(g, d, r, e), now, q)
    {
      assert Stays(g, d0, files[q], d, now, q);
      if q.Entry? {
        FreeWritten(g, d, now, r, e, q);
        if !IsDirectory(EntryBytes(g, d, q)) {
          FreeReads(g, d, now, r, e, q);
        }
      }
    }
  }

  lemma WithEntryFat(g: Geometry, d: Disk, now: map<Ref, seq<nat>>, r: Ref, e: seq<byte>)
    requires Consistent(g, d, now) && HasEntry(g, d, r) && |e| == 32
    ensures WithEntry(g, d, r, e).fat == d.fat && g.active < |d.fat|
  {
    hide WithEntry, EntryOk, Housed, IsChain;
    WithEntrySectors(g, d, r, e);
  }

  // ---------------------------------------------------------------- a new object

  /** The entry of a new object: live, and with a chain that nothing owns. */
  ghost predicate NewObject(g: Geometry, d: Disk, now: map<Ref, seq<nat>>, ch: seq<nat>, e: seq<byte>) {
    && |e| == 32 && LiveEntry(e) && FileSize(e) == 0 && g.active < |d.fat|
    && (if ch == [] then FirstCluster(g, e) == 0 && !IsDirectory(e) else FirstCluster(g, e) == ch[0])
    && (ch != [] ==> IsChain(g, Fat(g, d), ch) && |ch| <= 65536)
    && (forall c :: c in ch ==> c !in Owned(now))
  }

  lemma AddedDisjoint(now: map<Ref, seq<nat>>, r: Ref, ch: seq<nat>)
    requires Disjoint(now) && r !in now && (forall c :: c in ch ==> c !in Owned(now))
    ensures Disjoint(now[r := ch])
    ensures forall c :: c in Owned(now[r := ch]) <==> c in Owned(now) || c in ch
  {
    var f1 := now[r := ch];
    forall p, q, c | p in f1 && q in f1 && p != q && c in f1[p]
      ensures c !in f1[q]
    {
      assert p != r ==> c in Owned(now);
      assert q != r && c in f1[q] ==> c in Owned(now);
    }
    forall c | c in Owned(now) || c in ch
      ensures c in Owned(f1)
    {
      if c in ch {
        assert c in f1[r];
      } else {
        var p :| p in now && c in now[p];
        assert c in f1[p];
      }
    }
  }

  lemma MoreHoused(g: Geometry, d: Disk, now: map<Ref, seq<nat>>, r: Ref, ch: seq<nat>, p: Ref)
    requires Housed(g, d, now, p) && r !in now
    ensures Housed(g, d, now[r := ch], p)
  {
    hide DirectoryRef, Shown, Slots;
    var home :| home in now && DirectoryRef(g, d, home) && Shown(g, d, Slots(g, now[home]), p);
    assert home in now[r := ch] && now[r := ch][home] == now[home];
  }

  /** Place number k of directory q, with no end mark before it. */
  ghost predicate Reached(g: Geometry, d: Disk, now: map<Ref, seq<nat>>, q: Ref, k: nat, r: Ref) {
    q in now && DirectoryRef(g, d, q) && k < |Slots(g, now[q])| && Slots(g, now[q])[k] == r && Open(g, d, Slots(g, now[q]), k)
  }

  /** The entry that makes the object appear. */
  lemma UpheldNew(g: Geometry, d0: Disk, files: map<Ref, seq<nat>>, d: Disk, now: map<Ref, seq<nat>>, r: Ref, ch: seq<nat>, e: seq<byte>,
                  q: Ref, k: nat)
    requires Upheld(g, d0, files, d, now) && FreePlace(g, d, now, r) && NewObject(g, d, now, ch, e) && Reached(g, d, now, q, k, r)
    ensures Upheld(g, d0, files, WithEntry(g, d, r, e), now[r := ch])
    ensures ch == [] ==> ReadFile(g, WithEntry(g, d, r, e), r) == Some([])
  {
    hide Consistent, ReadFile, WithEntry, EntryBytes, IsDirectory, HasEntry, FirstCluster, FileSize, IsChain, Patched, Reached,
      InDirectory;
    var d1, f1 := WithEntry(g, d, r, e), now[r := ch];
    assert Harmless(g, d, now, r, e);
    UpheldFree(g, d0, files, d, now, r, e);
    WithEntryFat(g, d, now, r, e);
    NewConsistent(g, d, now, r, ch, e, q, k);
    forall p | p in files
      ensures Stays(g, d0, files[p], d1, f1, p)
    {
      assert Stays(g, d0, files[p], d1, now, p);
    }
    if ch == [] {
      HasPlace(g, d1, r);
      EmptyReads(g, d1, f1, r, e);
    }
  }

  lemma EmptyReads(g: Geometry, d1: Disk, f1: map<Ref, seq<nat>>, r: Ref, e: seq<byte>)
    requires Consistent(g, d1, f1) && r in f1 && r.Entry? && f1[r] == [] && HasEntry(g, d1, r) && EntryBytes(g, d1, r) == e
    requires |e| == 32 && FileSize(e) == 0
    ensures ReadFile(g, d1, r) == Some([])
  {
    hide ReadFile, EntryBytes, FirstCluster, LiveEntry, FileSize, IsChain, ChainBytes;
    ReadObject(g, d1, r, []);
  }

  lemma NewConsistent(g: Geometry, d: Disk, now: map<Ref, seq<nat>>, r: Ref, ch: seq<nat>, e: seq<byte>, q: Ref, k: nat)
    requires Consistent(g, d, now) && FreePlace(g, d, now, r) && NewObject(g, d, now, ch, e) && Reached(g, d, now, q, k, r)
    ensures Consistent(g, WithEntry(g, d, r, e), now[r := ch])
    ensures HasEntry(g, WithEntry(g, d, r, e), r) && EntryBytes(g, WithEntry(g, d, r, e), r) == e
  {
    hide WithEntry, EntryBytes, IsDirectory, HasEntry, FirstCluster, FileSize, IsChain, Patched, Housed, SectorBytes, Reached,
      InDirectory;
    var d1, f1 := WithEntry(g, d, r, e), now[r := ch];
    assert Harmless(g, d, now, r, e);
    FreeConsistent(g, d, now, r, e);
    WithEntryOthers(g, d, r, e, r);
    WithEntryFat(g, d, now, r, e);
    AddedDisjoint(now, r, ch);
    NewListed(g, d, now, r, e, q, k);
    forall p | p in f1 && p.Entry?
      ensures EntryOk(g, d1, p, f1[p]) && Housed(g, d1, f1, p)
    {
      MoreHoused(g, d1, now, r, ch, p);
    }
  }

  /** Writing an entry right after listed ones lists it. */
  lemma NewListed(g: Geometry, d: Disk, now: map<Ref, seq<nat>>, r: Ref, e: seq<byte>, q: Ref, k: nat)
    requires Consistent(g, d, now) && FreePlace(g, d, now, r) && |e| == 32 && e[0] != 0 && Reached(g, d, now, q, k, r)
    ensures r.Entry? && Housed(g, WithEntry(g, d, r, e), now, r)
  {
    hide Consistent, WithEntry, EntryBytes, InDirectory, Slots, DirectoryRef, NoNewEnd;
    ConsistentDisk(g, d, now);
    var slots, d1 := Slots(g, now[q]), WithEntry(g, d, r, e);
    WithEntryEnds(g, d, r, e, slots);
    OpenStays(g, d, d1, slots, k);
    WithEntryOthers(g, d, r, e, r);
    assert !EndMark(g, d1, slots[k]);
    assert Open(g, d1, slots, k + 1);
    WithEntryDirectory(g, d, r, e, q);
  }

  lemma ConsistentDisk(g: Geometry, d: Disk, now: map<Ref, seq<nat>>)
    requires Consistent(g, d, now)
    ensures ValidGeometry(g) && ValidDisk(g, d)
  {
  }

  // ---------------------------------------------------------------- one more cluster for a directory

  /** d1 is d with cluster c linked behind last in the active FAT. */
  ghost predicate LinkedFat(g: Geometry, d: Disk, d1: Disk, last: nat, c: nat) {
    && ValidDisk(g, d) && ValidDisk(g, d1) && g.active < g.copies && d1.sectors == d.sectors && last < Limit(g)
    && Fat(g, d1)[last].value == c
    && forall x :: 0 <= x < Limit(g) && x != last ==> Fat(g, d1)[x].value == Fat(g, d)[x].value
  }

  /** The directory q may take c as its next cluster. */
  ghost predicate CanGrow(g: Geometry, d: Disk, now: map<Ref, seq<nat>>, q: Ref, c: nat) {
    && q in now && now[q] != [] && |now[q]| < 65536 && DirectoryRef(g, d, q)
    && InRange(g, c) && c !in Owned(now) && ValidDisk(g, d) && g.active < g.copies && IsEnd(g, Fat(g, d)[c].value)
  }

  lemma ChainOf(g: Geometry, d: Disk, now: map<Ref, seq<nat>>, p: Ref)
    requires Consistent(g, d, now) && p in now && now[p] != []
    ensures IsChain(g, Fat(g, d), now[p]) && |now[p]| <= 65536
  {
    hide IsChain, EntryOk, Housed;
  }

  lemma ChainUntouched(g: Geometry, fat: seq<Cell>, fat': seq<Cell>, ch: seq<nat>, last: nat)
    requires IsChain(g, fat, ch) && last !in ch && |fat'| == |fat|
    requires forall x :: 0 <= x < |fat| && x != last ==> fat'[x].value == fat[x].value
    ensures IsChain(g, fat', ch)
  {
    forall i | 0 <= i < |ch|
      ensures fat'[ch[i]].value == fat[ch[i]].value
    {
      assert ch[i] in ch;
    }
  }

  lemma GrownChain(g: Geometry, d: Disk, now: map<Ref, seq<nat>>, q: Ref, c: nat, d1: Disk, p: Ref)
    requires Consistent(g, d, now) && CanGrow(g, d, now, q, c) && LinkedFat(g, d, d1, now[q][|now[q]| - 1], c) && p in now
    ensures var f1 := now[q := now[q] + [c]];
      f1[p] != [] ==> IsChain(g, Fat(g, d1), f1[p]) && |f1[p]| <= 65536
  {
    hide Consistent, IsChain, DirectoryRef, IsEnd;
    var last := now[q][|now[q]| - 1];
    assert last in now[q];
    if p == q {
      ChainOf(g, d, now, q);
      assert c in now[q] ==> c in Owned(now);
      ConsistentDisk(g, d, now);
      EndOfNew(g, d, d1, c, last, now[q]);
      ChainExtends(g, Fat(g, d), Fat(g, d1), now[q], c);
    } else if now[p] != [] {
      ChainOf(g, d, now, p);
      if last in now[p] {
        ObjectsApart(g, d, now, p, q, last);
      }
      ChainUntouched(g, Fat(g, d), Fat(g, d1), now[p], last);
    }
  }

  lemma EndOfNew(g: Geometry, d: Disk, d1: Disk, c: nat, last: nat, ch: seq<nat>)
    requires LinkedFat(g, d, d1, last, c) && InRange(g, c) && IsEnd(g, Fat(g, d)[c].value) && c != last && IsChain(g, Fat(g, d), ch)
    ensures IsEnd(g, Fat(g, d1)[c].value)
    ensures forall x :: x in ch && x != last ==> Fat(g, d1)[x].value == Fat(g, d)[x].value
  {
  }

  lemma GrownEntry(g: Geometry, d: Disk, now: map<Ref, seq<nat>>, q: Ref, c: nat, d1: Disk, p: Ref)
    requires Consistent(g, d, now) && CanGrow(g, d, now, q, c) && LinkedFat(g, d, d1, now[q][|now[q]| - 1], c) && p in now && p.Entry?
    ensures var f1 := now[q := now[q] + [c]];
      && HasEntry(g, d, p) && HasEntry(g, d1, p) && EntryBytes(g, d1, p) == EntryBytes(g, d, p)
      && EntryOk(g, d1, p, f1[p]) && Housed(g, d1, f1, p)
  {
    hide Consistent, LiveEntry, FirstCluster, FileSize, IsDirectory, IsChain, Housed;
    ObjectOk(g, d, now, p);
    assert SectorBytes(g, d1, p.addr) == SectorBytes(g, d, p.addr);
    if p == q {
      LongerHolds(g, |now[q]|);
    }
    GrownHoused(g, d, now, q, c, d1, p);
  }

  lemma GrownHoused(g: Geometry, d: Disk, now: map<Ref, seq<nat>>, q: Ref, c: nat, d1: Disk, p: Ref)
    requires CanGrow(g, d, now, q, c) && LinkedFat(g, d, d1, now[q][|now[q]| - 1], c) && Housed(g, d, now, p)
    ensures Housed(g, d1, now[q := now[q] + [c]], p)
  {
    hide Slots, Shown, NoNewEnd, IsDirectory, ClusterSlots, IsEnd;
    var f1 := now[q := now[q] + [c]];
    var home :| home in now && DirectoryRef(g, d, home) && Shown(g, d, Slots(g, now[home]), p);
    var slots := Slots(g, now[home]);
    if home.Entry? {
      assert SectorBytes(g, d1, home.addr) == SectorBytes(g, d, home.addr);
    }
    SameEnds(g, d, d1, slots);
    ShownStays(g, d, d1, slots, p);
    if home == q {
      SlotsLonger(g, now[q], c);
      ShownLonger(g, d1, slots, Slots(g, f1[q]), p);
    }
    assert home in f1 && DirectoryRef(g, d1, home);
  }

  lemma LongerHolds(g: Geometry, n: nat)
    ensures n * ClusterSize(g) <= (n + 1) * ClusterSize(g)
  {
  }

  lemma GrownOwner(now: map<Ref, seq<nat>>, q: Ref, c: nat, a: Ref, x: nat)
    requires q in now && a in now
    ensures x in now[q := now[q] + [c]][a] ==> (a == q && x == c) || x in now[a]
    ensures x in now[a] ==> x in Owned(now)
  {
  }

  lemma GrownDisjoint(now: map<Ref, seq<nat>>, q: Ref, c: nat)
    requires Disjoint(now) && q in now && c !in Owned(now)
    ensures Disjoint(now[q := now[q] + [c]]) && Owned(now[q := now[q] + [c]]) == Owned(now) + {c}
  {
    var f1 := now[q := now[q] + [c]];
    forall a, b, x | a in f1 && b in f1 && a != b && x in f1[a]
      ensures x !in f1[b]
    {
      GrownOwner(now, q, c, a, x);
      GrownOwner(now, q, c, b, x);
    }
    forall x | x in Owned(f1)
      ensures x in Owned(now) + {c}
    {
      var a :| a in f1 && x in f1[a];
      assert x == c || x in now[a];
    }
    forall x | x in Owned(now) + {c}
      ensures x in Owned(f1)
    {
      if x == c {
        assert c in f1[q];
      } else {
        var a :| a in now && x in now[a];
        assert x in f1[a];
      }
    }
  }

  lemma GrownConsistent(g: Geometry, d: Disk, now: map<Ref, seq<nat>>, q: Ref, c: nat, d1: Disk)
    requires Consistent(g, d, now) && CanGrow(g, d, now, q, c) && LinkedFat(g, d, d1, now[q][|now[q]| - 1], c)
    ensures Consistent(g, d1, now[q := now[q] + [c]])
  {
    hide IsChain, EntryOk, Housed, Owned, Disjoint;
    var f1 := now[q := now[q] + [c]];
    GrownDisjoint(now, q, c);
    forall p | p in f1 && f1[p] != []
      ensures IsChain(g, Fat(g, d1), f1[p]) && |f1[p]| <= 65536
    {
      GrownChain(g, d, now, q, c, d1, p);
    }
    forall p | p in f1 && p.Entry?
      ensures EntryOk(g, d1, p, f1[p]) && Housed(g, d1, f1, p)
    {
      GrownEntry(g, d, now, q, c, d1, p);
    }
  }

  /** Linking a cluster to a directory leaves every file alone. */
  lemma UpheldGrown(g: Geometry, d0: Disk, files: map<Ref, seq<nat>>, d: Disk, now: map<Ref, seq<nat>>, q: Ref, c: nat, d1: Disk)
    requires Upheld(g, d0, files, d, now) && CanGrow(g, d, now, q, c) && LinkedFat(g, d, d1, now[q][|now[q]| - 1], c)
    ensures Upheld(g, d0, files, d1, now[q := now[q] + [c]])
  {
    hide Consistent, ReadFile, IsDirectory, EntryBytes, HasEntry, EntryOk, Housed, Owned;
    var f1 := now[q := now[q] + [c]];
    GrownConsistent(g, d, now, q, c, d1);
    forall p | p in files
      ensures Stays(g, d0, files[p], d1, f1, p)
    {
      assert Stays(g, d0, files[p], d, now, p);
      if p.Entry? {
        GrownEntry(g, d, now, q, c, d1, p);
        if !IsDirectory(EntryBytes(g, d, p)) {
          GrownReads(g, d, now, q, c, d1, p);
        }
      }
    }
  }

  lemma GrownReads(g: Geometry, d: Disk, now: map<Ref, seq<nat>>, q: Ref, c: nat, d1: Disk, p: Ref)
    requires Consistent(g, d, now) && CanGrow(g, d, now, q, c) && LinkedFat(g, d, d1, now[q][|now[q]| - 1], c)
    requires p in now && p.Entry? && HasEntry(g, d, p) && !IsDirectory(EntryBytes(g, d, p))
    ensures p != q && ReadFile(g, d1, p) == ReadFile(g, d, p)
  {
    hide ReadFile, ChainBytes, IsChain, IsDirectory, FileSize, FirstCluster, LiveEntry, Housed, Owned;
    GrownEntry(g, d, now, q, c, d1, p);
    GrownChain(g, d, now, q, c, d1, p);
    ChainBytesSame(g, d, d1, now[p]);
    ReadObject(g, d, p, now[p]);
    ReadObject(g, d1, p, now[p]);
  }

  /** Every state added to a history is safe for what was there. */
  ghost predicate AddTrail(g: Geometry, d0: Disk, files: map<Ref, seq<nat>>, h0: seq<Disk>, h: seq<Disk>) {
    h0 <= h && forall k :: |h0| <= k < |h| ==> AddSafe(g, d0, files, h[k])
  }

  lemma AddTrailJoin(g: Geometry, d0: Disk, files: map<Ref, seq<nat>>, h0: seq<Disk>, h1: seq<Disk>, h2: seq<Disk>)
    requires AddTrail(g, d0, files, h0, h1) && AddTrail(g, d0, files, h1, h2)
    ensures AddTrail(g, d0, files, h0, h2)
  {
    hide AddSafe;
    forall k | |h0| <= k < |h2|
      ensures AddSafe(g, d0, files, h2[k])
    {
      if k < |h1| {
        assert h2[k] == h1[k];
      }
    }
  }

  lemma TrailAdds(g: Geometry, d0: Disk, files: map<Ref, seq<nat>>, b: Disk, now: map<Ref, seq<nat>>, h0: seq<Disk>, h: seq<Disk>)
    requires Upheld(g, d0, files, b, now) && Trail(g, h0, h, b, now)
    ensures AddTrail(g, d0, files, h0, h)
  {
    hide Upheld, Phase, AddSafe;
    forall k | |h0| <= k < |h|
      ensures AddSafe(g, d0, files, h[k])
    {
      UpheldPhase(g, d0, files, b, now, h[k]);
    }
  }

  lemma UncleanAdds(g: Geometry, d0: Disk, files: map<Ref, seq<nat>>, d: Disk, now: map<Ref, seq<nat>>)
    requires Upheld(g, d0, files, d, now) && 1 < |Fat(g, d)| && !Clean(g, Fat(g, d)[1].value)
    ensures AddSafe(g, d0, files, d)
  {
    hide Upheld, Clean, NothingLost;
  }

  lemma AddTrailNone(g: Geometry, d0: Disk, files: map<Ref, seq<nat>>, h: seq<Disk>)
    ensures AddTrail(g, d0, files, h, h)
  {
  }

  lemma OneMoreState(g: Geometry, d0: Disk, files: map<Ref, seq<nat>>, h0: seq<Disk>, h: seq<Disk>, d: Disk)
    requires (h == h0 || h == h0 + [d]) && AddSafe(g, d0, files, d)
    ensures AddTrail(g, d0, files, h0, h)
  {
    hide AddSafe;
  }

  /** Directories stay directories. */
  ghost predicate DirsKept(g: Geometry, d: Disk, d1: Disk, now: map<Ref, seq<nat>>) {
    forall q :: q in now && DirectoryRef(g, d, q) ==> DirectoryRef(g, d1, q)
  }

  lemma PhaseDirs(g: Geometry, b: Disk, now: map<Ref, seq<nat>>, d: Disk)
    requires Consistent(g, b, now) && Phase(g, b, now, d)
    ensures DirsKept(g, b, d, now)
  {
    hide Consistent, Phase, IsDirectory, EntryBytes;
    forall q | q in now && DirectoryRef(g, b, q)
      ensures DirectoryRef(g, d, q)
    {
      if q.Entry? {
        EntrySame(g, b, now, d, q);
      }
    }
  }

  lemma UpheldDirs(g: Geometry, d0: Disk, files: map<Ref, seq<nat>>, b: Disk, now: map<Ref, seq<nat>>, d: Disk)
    requires Upheld(g, d0, files, b, now) && Phase(g, b, now, d)
    ensures DirsKept(g, b, d, now)
  {
    hide Consistent, Phase, Stays, DirsKept;
    PhaseDirs(g, b, now, d);
  }

  lemma DirsJoin(g: Geometry, a: Disk, b: Disk, c: Disk, now: map<Ref, seq<nat>>)
    requires DirsKept(g, a, b, now) && DirsKept(g, b, c, now)
    ensures DirsKept(g, a, c, now)
  {
    hide DirectoryRef;
  }

  lemma DirAt(g: Geometry, d: Disk, d1: Disk, now: map<Ref, seq<nat>>, q: Ref)
    requires DirsKept(g, d, d1, now) && q in now && DirectoryRef(g, d, q)
    ensures DirectoryRef(g, d1, q)
  {
    hide DirectoryRef;
  }

  // ---------------------------------------------------------------- free places stay free

  lemma PlaceFits(g: Geometry, d: Disk, d1: Disk, r: Ref)
    requires ValidDisk(g, d) && ValidDisk(g, d1) && HasEntry(g, d, r)
    ensures HasEntry(g, d1, r)
  {
    assert |SectorBytes(g, d, r.addr)| == |SectorBytes(g, d1, r.addr)| == g.sector;
  }

  lemma FreeStays(g: Geometry, d: Disk, d1: Disk, now: map<Ref, seq<nat>>, r: Ref)
    requires ValidDisk(g, d) && ValidDisk(g, d1) && FreePlace(g, d, now, r) && DirsKept(g, d, d1, now)
    ensures FreePlace(g, d1, now, r)
  {
    hide DirectoryRef, HasEntry;
    PlaceFits(g, d, d1, r);
    assert r.Entry? by {
      HasPlace(g, d, r);
    }
    if !r.addr.Root? {
      var p :| p in now && DirectoryRef(g, d, p) && r.addr.cluster in now[p];
      assert DirectoryRef(g, d1, p);
    }
  }

  lemma HasPlace(g: Geometry, d: Disk, r: Ref)
    requires HasEntry(g, d, r)
    ensures r.Entry?
  {
  }

  lemma EntryDirs(g: Geometry, d: Disk, now: map<Ref, seq<nat>>, r: Ref, e: seq<byte>)
    requires Consistent(g, d, now) && FreePlace(g, d, now, r) && |e| == 32
    ensures DirsKept(g, d, WithEntry(g, d, r, e), now)
  {
    hide WithEntry, Consistent, DirectoryRef, HasEntry, InDirectory;
    ConsistentDisk(g, d, now);
    forall q | q in now && DirectoryRef(g, d, q)
      ensures DirectoryRef(g, WithEntry(g, d, r, e), q)
    {
      WithEntryDirectory(g, d, r, e, q);
    }
  }

  ghost predicate AllFree(g: Geometry, d: Disk, now: map<Ref, seq<nat>>, rs: seq<Ref>) {
    forall i :: 0 <= i < |rs| ==> FreePlace(g, d, now, rs[i])
  }

  lemma AllFreeStay(g: Geometry, d: Disk, d1: Disk, now: map<Ref, seq<nat>>, rs: seq<Ref>)
    requires ValidDisk(g, d) && ValidDisk(g, d1) && AllFree(g, d, now, rs) && DirsKept(g, d, d1, now)
    ensures AllFree(g, d1, now, rs)
  {
    hide FreePlace, DirsKept, ValidDisk;
    forall i | 0 <= i < |rs|
      ensures FreePlace(g, d1, now, rs[i])
    {
      FreeStays(g, d, d1, now, rs[i]);
    }
  }

  // ---------------------------------------------------------------- the short entry

  function Low(v: nat, unit: nat): byte
    requires unit > 0
  {
    v / unit % 256
  }

  /** The short entry of an empty file or of a directory with its first cluster; the fixed dates are 0x21. */
  function ShortEntry(name: seq<byte>, directory: bool, first: nat): (e: seq<byte>)
    requires |name| == 11
    ensures |e| == 32
  {
    name + [if directory then 0x10 else 0x20, 0, 0, 0, 0, 0x21, 0, 0x21, 0, Low(first, 0x1_0000), Low(first, 0x100_0000), 0, 0, 0x21, 0,
            Low(first, 1), Low(first, 0x100), 0, 0, 0, 0]
  }

  lemma LowBack(v: nat)
    requires v < 0x1_0000_0000
    ensures Low(v, 1) as int + 256 * (Low(v, 0x100) as int)
         + 0x1_0000 * (Low(v, 0x1_0000) as int + 256 * (Low(v, 0x100_0000) as int)) == v
    ensures v < 0x1_0000 ==> Low(v, 1) as int + 256 * (Low(v, 0x100) as int) == v
  {
    var a, b, c := v / 0x100, v / 0x1_0000, v / 0x100_0000;
    assert b == a / 0x100 && c == b / 0x100 && c < 0x100;
    assert Low(v, 0x100) as int == a - 0x100 * b && Low(v, 0x1_0000) as int == b - 0x100 * c && Low(v, 0x100_0000) as int == c;
  }

  lemma ShortFields(g: Geometry, name: seq<byte>, directory: bool, first: nat)
    requires ValidGeometry(g) && |name| == 11 && name[0] != 0 && name[0] != 0xe5 && (first == 0 || InRange(g, first))
    ensures var e := ShortEntry(name, directory, first);
      LiveEntry(e) && FileSize(e) == 0 && FirstCluster(g, e) == first && IsDirectory(e) == directory
      && e[..11] == name && e[11] == if directory then 0x10 else 0x20
  {
    hide Low;
    LowBack(first);
    var e := ShortEntry(name, directory, first);
    assert e[0] == name[0] && e[11] == (if directory then 0x10 else 0x20);
    assert e[28] == 0 && e[29] == 0 && e[30] == 0 && e[31] == 0;
    assert e[20] == Low(first, 0x1_0000) && e[21] == Low(first, 0x100_0000) && e[26] == Low(first, 1) && e[27] == Low(first, 0x100);
  }
}
