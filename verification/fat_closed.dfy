/**
 The objects stay closed under listing: what the audit before the first write found out about
 every directory is carried through replacements and creations.
 */
module FatClosed {
  import opened Basics
  import opened FatDisk
  import opened FatSlots
  import opened FatChains
  import opened FatCrash
  import opened FatAudit
  import opened FatGrowth
  import opened FatSearch
  import opened FatQuiet

  // ---------------------------------------------------------------- listings without their length

  lemma {:induction false} FirstMark(g: Geometry, d: Disk, slots: seq<Ref>, n: nat) returns (m: nat)
    requires n <= |slots|
    ensures m <= n && Open(g, d, slots, m) && (m == n || EndMark(g, d, slots[m]))
  {
    hide EndMark;
    m := n;
    if n > 0 {
      var k := FirstMark(g, d, slots, n - 1);
      if k < n - 1 || EndMark(g, d, slots[n - 1]) {
        m := k;
      }
    }
  }

  /** Everything that listing shows is known. */
  ghost predicate Known(g: Geometry, d: Disk, skip: Ref -> bool, files: map<Ref, seq<nat>>, slots: seq<Ref>) {
    forall k: nat :: Lists(g, d, slots, k) && !skip(slots[k]) ==> slots[k] in files
  }

  lemma ListedKnown(g: Geometry, d: Disk, skip: Ref -> bool, files: map<Ref, seq<nat>>, slots: seq<Ref>)
    ensures Listed(g, d, skip, files, slots) <==> Known(g, d, skip, files, slots)
  {
    hide EndMark, EntryBytes, HasEntry, LiveEntry;
    if Listed(g, d, skip, files, slots) {
      var n: nat :| n <= |slots| && (n == |slots| || EndMark(g, d, slots[n])) && Seen(g, d, skip, files, slots[..n]);
      forall k: nat | Lists(g, d, slots, k) && !skip(slots[k])
        ensures slots[k] in files
      {
        assert k < n;
        assert slots[..n][k] == slots[k];
      }
    }
    if Known(g, d, skip, files, slots) {
      var m := FirstMark(g, d, slots, |slots|);
      forall i | 0 <= i < m
        ensures !EndMark(g, d, slots[..m][i]) && (Names(g, d, skip, slots[..m][i]) ==> slots[..m][i] in files)
      {
        assert Names(g, d, skip, slots[i]) ==> Lists(g, d, slots, i);
      }
      assert Seen(g, d, skip, files, slots[..m]);
    }
  }

  lemma ClosedKnown(g: Geometry, d: Disk, skip: Ref -> bool, files: map<Ref, seq<nat>>)
    ensures Closed(g, d, skip, files) <==>
      RootDir in files && forall q :: q in files && DirectoryRef(g, d, q) ==> Known(g, d, skip, files, Slots(g, files[q]))
  {
    hide Listed, Known, DirectoryRef, Slots;
    forall q | q in files && DirectoryRef(g, d, q)
      ensures Listed(g, d, skip, files, Slots(g, files[q])) <==> Known(g, d, skip, files, Slots(g, files[q]))
    {
      ListedKnown(g, d, skip, files, Slots(g, files[q]));
    }
  }

  // ---------------------------------------------------------------- replacement

  lemma PhaseClosed(g: Geometry, b: Disk, files: map<Ref, seq<nat>>, d: Disk, skip: Ref -> bool)
    requires Consistent(g, b, files) && Phase(g, b, files, d) && Closed(g, b, skip, files)
    ensures Closed(g, d, skip, files)
  {
    hide Consistent, Phase, Closed, Slots, SameBytes, EntryBytes, IsDirectory, Lists;
    ClosedKnown(g, b, skip, files);
    PhaseLists(g, b, files, d);
    forall q | q in files && DirectoryRef(g, d, q)
      ensures Known(g, d, skip, files, Slots(g, files[q]))
    {
      if q.Entry? {
        EntrySame(g, b, files, d, q);
      }
      var slots := Slots(g, files[q]);
      forall k: nat | Lists(g, d, slots, k)
        ensures Lists(g, b, slots, k)
      {
        ListsSame(g, b, d, slots, k);
      }
    }
    ClosedKnown(g, d, skip, files);
  }

  lemma WithEntryDirectoryBack(g: Geometry, d: Disk, r: Ref, e: seq<byte>, q: Ref)
    requires ValidDisk(g, d) && HasEntry(g, d, r) && |e| == 32 && !IsDirectory(e) && DirectoryRef(g, WithEntry(g, d, r, e), q)
    ensures q != r && DirectoryRef(g, d, q)
  {
    hide WithEntry, EntryBytes, IsDirectory, SectorBytes;
    if q.Entry? {
      WithEntryHas(g, d, r, e, q);
      WithEntryOthers(g, d, r, e, q);
    }
  }

  /** A live entry in the place of a live one: listing comes to the same places. */
  lemma WithEntryLists(g: Geometry, d: Disk, r: Ref, e: seq<byte>, slots: seq<Ref>, k: nat)
    requires ValidDisk(g, d) && HasEntry(g, d, r) && |e| == 32 && LiveEntry(EntryBytes(g, d, r))
    requires Lists(g, WithEntry(g, d, r, e), slots, k)
    ensures Lists(g, d, slots, k)
  {
    hide WithEntry, EntryBytes, HasEntry;
    var d1 := WithEntry(g, d, r, e);
    forall j | 0 <= j < k + 1
      ensures !EndMark(g, d, slots[j])
    {
      if EndMark(g, d, slots[j]) {
        WithEntryHas(g, d, r, e, slots[j]);
        WithEntryOthers(g, d, r, e, slots[j]);
        assert false;
      }
    }
    WithEntryHas(g, d, r, e, slots[k]);
    WithEntryOthers(g, d, r, e, slots[k]);
  }

  lemma WithEntryClosed(g: Geometry, d: Disk, files: map<Ref, seq<nat>>, r: Ref, ch: seq<nat>, e: seq<byte>, skip: Ref -> bool)
    requires Consistent(g, d, files) && Replaceable(g, d, files, r, ch, e) && Closed(g, d, skip, files)
    ensures Closed(g, WithEntry(g, d, r, e), skip, files[r := ch])
  {
    hide Consistent, Closed, Slots, EntryBytes, IsDirectory, Lists, WithEntry, DirectoryRef, LiveEntry, FirstCluster, FileSize, IsChain, HasEntry,
      Housed;
    var d1, f1 := WithEntry(g, d, r, e), files[r := ch];
    ObjectOk(g, d, files, r);
    ClosedKnown(g, d, skip, files);
    forall q | q in f1 && DirectoryRef(g, d1, q)
      ensures Known(g, d1, skip, f1, Slots(g, f1[q]))
    {
      WithEntryDirectoryBack(g, d, r, e, q);
      var slots := Slots(g, files[q]);
      assert f1[q] == files[q];
      forall k: nat | Lists(g, d1, slots, k)
        ensures Lists(g, d, slots, k)
      {
        WithEntryLists(g, d, r, e, slots, k);
      }
    }
    ClosedKnown(g, d1, skip, f1);
  }

  /** Whatever is skipped, objects closed under listing stay so. */
  ghost predicate StaysClosed(g: Geometry, d0: Disk, files: map<Ref, seq<nat>>, d: Disk, now: map<Ref, seq<nat>>) {
    forall skip :: Closed(g, d0, skip, files) ==> Closed(g, d, skip, now)
  }

  lemma ReplacedClosed(g: Geometry, b: Disk, files: map<Ref, seq<nat>>, d: Disk, r: Ref, ch: seq<nat>, e: seq<byte>, d2: Disk)
    requires Consistent(g, b, files) && Phase(g, b, files, d) && Replaceable(g, d, files, r, ch, e)
    requires Phase(g, WithEntry(g, d, r, e), files[r := ch], d2)
    ensures StaysClosed(g, b, files, d2, files[r := ch])
  {
    hide Consistent, Phase, Closed, WithEntry, HasEntry, EntryBytes, LiveEntry, IsDirectory, FileSize, FirstCluster, IsChain;
    PhaseConsistent(g, b, files, d);
    WithEntryConsistent(g, d, files, r, ch, e);
    forall skip | Closed(g, b, skip, files)
      ensures Closed(g, d2, skip, files[r := ch])
    {
      PhaseClosed(g, b, files, d, skip);
      WithEntryClosed(g, d, files, r, ch, e, skip);
      PhaseClosed(g, WithEntry(g, d, r, e), files[r := ch], d2, skip);
    }
  }

  // ---------------------------------------------------------------- creation

  /** What is skipped, and the two places of . and .. in a new directory. */
  function WithDots(skip: Ref -> bool, ch: seq<nat>): Ref -> bool {
    r => skip(r) || (ch != [] && (r == Entry(Data(ch[0], 0), 0) || r == Entry(Data(ch[0], 0), 32)))
  }

  /** A cluster that starts with two given entries and an end mark. */
  ghost predicate Dots(g: Geometry, d: Disk, c: nat, own: seq<byte>, up: seq<byte>) {
    var b := SectorBytes(g, d, Data(c, 0));
    |b| >= 96 && b[0..32] == own && b[32..64] == up && b[64..96] == Zeros(32)
  }

  lemma DotsWritten(g: Geometry, d: Disk, c: nat, own: seq<byte>, d1: Disk, up: seq<byte>, d2: Disk)
    requires ValidGeometry(g) && ValidDisk(g, d) && SectorBytes(g, d, Data(c, 0)) == Zeros(g.sector) && |own| == |up| == 32
    requires HasEntry(g, d, Entry(Data(c, 0), 0)) && d1 == WithEntry(g, d, Entry(Data(c, 0), 0), own)
    requires HasEntry(g, d1, Entry(Data(c, 0), 32)) && d2 == WithEntry(g, d1, Entry(Data(c, 0), 32), up)
    ensures Dots(g, d2, c, own, up)
  {
    hide WithEntry, Patched, ValidDisk, SectorBytes;
    WithEntrySectors(g, d, Entry(Data(c, 0), 0), own);
    WithEntrySectors(g, d1, Entry(Data(c, 0), 32), up);
    var b, b1 := SectorBytes(g, d, Data(c, 0)), SectorBytes(g, d1, Data(c, 0));
    PatchedSlices(b, 0, own, 0);
    PatchedSlices(b, 0, own, 64);
    PatchedSlices(b1, 32, up, 0);
    PatchedSlices(b1, 32, up, 32);
    PatchedSlices(b1, 32, up, 64);
    assert b[64..96] == Zeros(32);
  }

  lemma DotsKept(g: Geometry, d: Disk, d1: Disk, c: nat, own: seq<byte>, up: seq<byte>)
    requires Dots(g, d, c, own, up) && SectorBytes(g, d1, Data(c, 0)) == SectorBytes(g, d, Data(c, 0))
    ensures Dots(g, d1, c, own, up)
  {
    hide SectorBytes;
  }

  /** Free places are in clusters of directories. */
  lemma FreeApart(g: Geometry, d: Disk, now: map<Ref, seq<nat>>, rs: seq<Ref>, c: nat)
    requires AllFree(g, d, now, rs) && c !in Owned(now)
    ensures forall i :: 0 <= i < |rs| ==> rs[i].Entry? && rs[i].addr != Data(c, 0)
  {
    hide DirectoryRef, EntryBytes, HasEntry;
    forall i | 0 <= i < |rs|
      ensures rs[i].Entry? && rs[i].addr != Data(c, 0)
    {
      assert FreePlace(g, d, now, rs[i]);
    }
  }

  lemma {:induction false} FilledApart(g: Geometry, d: Disk, rs: seq<Ref>, entries: seq<seq<byte>>, n: nat, a: Addr)
    requires ValidDisk(g, d) && n <= |entries| <= |rs| && forall i :: 0 <= i < |rs| ==> rs[i].Entry? && rs[i].addr != a
    ensures ValidDisk(g, Filled(g, d, rs, entries, n)) && SectorBytes(g, Filled(g, d, rs, entries, n), a) == SectorBytes(g, d, a)
  {
    hide WithEntry, HasEntry, SectorBytes, ValidDisk;
    if n > 0 {
      FilledApart(g, d, rs, entries, n - 1, a);
      var before := Filled(g, d, rs, entries, n - 1);
      if HasEntry(g, before, rs[n - 1]) && |entries[n - 1]| == 32 {
        WithEntrySectors(g, before, rs[n - 1], entries[n - 1]);
      }
    }
  }

  /** Listing a directory that is one cluster reads its first sector. */
  lemma ListsHead(g: Geometry, d: Disk, d1: Disk, now: map<Ref, seq<nat>>, place: Ref, c: nat)
    requires ValidGeometry(g) && ListsKept(g, d, d1, now) && place in now && now[place] == [c]
    ensures SectorBytes(g, d1, Data(c, 0)) == SectorBytes(g, d, Data(c, 0))
  {
    hide Slots, SectorBytes, ValidGeometry;
    HeadSlots(g, c);
    assert SameBytes(g, d, d1, Slots(g, now[place]));
    assert Slots(g, [c])[0].addr == Data(c, 0);
  }

  lemma HeadSlots(g: Geometry, c: nat)
    requires ValidGeometry(g)
    ensures var s := Slots(g, [c]);
      |s| >= 3 && s[0] == Entry(Data(c, 0), 0) && s[1] == Entry(Data(c, 0), 32) && s[2] == Entry(Data(c, 0), 64)
  {
    var n := g.sector / 32;
    assert ClusterSlots(g, c, 0) == [];
    assert ClusterSlots(g, c, 1) == SectorSlots(g, Data(c, 0), n);
    ClusterSlotsGrow(g, c, 1, g.spc);
    assert [c][..0] == [];
    assert ChainSlots(g, [c]) == ClusterSlots(g, c, g.spc);
  }

  lemma DotsListed(g: Geometry, d: Disk, c: nat, own: seq<byte>, up: seq<byte>, skip: Ref -> bool, now: map<Ref, seq<nat>>)
    requires ValidGeometry(g) && Dots(g, d, c, own, up)
    ensures Known(g, d, WithDots(skip, [c]), now, Slots(g, [c]))
  {
    hide Slots, ValidGeometry;
    HeadSlots(g, c);
    var slots := Slots(g, [c]);
    assert EndMark(g, d, slots[2]);
    forall k: nat | Lists(g, d, slots, k)
      ensures k < 2
    {
      if k >= 2 {
        assert false;
      }
    }
  }

  /** A creation that shows nothing but its own object keeps the objects closed; a new directory lists . and .. . */
  lemma CreatedClosed(g: Geometry, d0: Disk, files: map<Ref, seq<nat>>, d: Disk, now: map<Ref, seq<nat>>, place: Ref, skip: Ref -> bool)
    requires Upheld(g, d0, files, d, now) && Quiet(g, d0, files, d, now) && Closed(g, d0, skip, files)
    requires place in now && forall p :: p in now ==> p in files || p == place
    requires DirectoryRef(g, d, place) && place !in files ==>
      |now[place]| == 1 && exists own, up :: Dots(g, d, now[place][0], own, up)
    ensures Closed(g, d, WithDots(skip, now[place]), now)
  {
    hide Consistent, Closed, Slots, Lists, DirectoryRef, Dots, Stays;
    ClosedKnown(g, d0, skip, files);
    ConsistentDisk(g, d, now);
    var more := WithDots(skip, now[place]);
    forall q | q in now && DirectoryRef(g, d, q)
      ensures Known(g, d, more, now, Slots(g, now[q]))
    {
      if q in files {
        UpheldDirectoryBack(g, d0, files, d, now, q);
        forall k: nat | Lists(g, d, Slots(g, now[q]), k)
          ensures k < |Slots(g, now[q])| && (skip(Slots(g, now[q])[k]) || Slots(g, now[q])[k] in now)
        {
          OldListed(g, d0, files, d, now, q, k, skip);
        }
      } else {
        var own, up :| Dots(g, d, now[place][0], own, up);
        assert now[place] == [now[place][0]];
        DotsListed(g, d, now[place][0], own, up, skip, now);
      }
    }
    UpheldIn(g, d0, files, d, now, RootDir);
    ClosedKnown(g, d, more, now);
  }

  lemma UpheldIn(g: Geometry, d0: Disk, files: map<Ref, seq<nat>>, d: Disk, now: map<Ref, seq<nat>>, p: Ref)
    requires Upheld(g, d0, files, d, now) && p in files
    ensures p in now
  {
    hide Consistent, ReadFile, HasEntry, EntryBytes, IsDirectory;
    ConsistentDisk(g, d, now);
    assert Stays(g, d0, files[p], d, now, p);
  }

  lemma UpheldDirectoryBack(g: Geometry, d0: Disk, files: map<Ref, seq<nat>>, d: Disk, now: map<Ref, seq<nat>>, p: Ref)
    requires Upheld(g, d0, files, d, now) && p in files && DirectoryRef(g, d, p)
    ensures DirectoryRef(g, d0, p)
  {
    hide Consistent, ReadFile, EntryBytes, IsDirectory;
    ConsistentDisk(g, d, now);
    assert Stays(g, d0, files[p], d, now, p);
  }

  lemma OldListed(g: Geometry, d0: Disk, files: map<Ref, seq<nat>>, d: Disk, now: map<Ref, seq<nat>>, q: Ref, k: nat, skip: Ref -> bool)
    requires Upheld(g, d0, files, d, now) && Quiet(g, d0, files, d, now)
    requires q in files && DirectoryRef(g, d0, q) && Known(g, d0, skip, files, Slots(g, files[q]))
    requires q in now && Lists(g, d, Slots(g, now[q]), k)
    ensures k < |Slots(g, now[q])| && (skip(Slots(g, now[q])[k]) || Slots(g, now[q])[k] in now)
  {
    hide Upheld, Slots, DirectoryRef, Open, HasEntry, EntryBytes, LiveEntry;
    var slots := Slots(g, now[q]);
    if !(slots[k] in now && slots[k] !in files) {
      assert Slots(g, files[q]) <= slots && Lists(g, d0, Slots(g, files[q]), k);
      assert Slots(g, files[q])[k] == slots[k];
      if !skip(slots[k]) {
        UpheldIn(g, d0, files, d, now, slots[k]);
      }
    }
  }
}
