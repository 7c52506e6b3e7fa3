/**
 The audit itself: fat_prepare_write's walk over every directory from the root. It accepts exactly the
 intact volumes, and finds every object of one.
 */
module FatAuditor {
  import opened Basics
  import opened FatDisk
  import opened FatSlots
  import opened FatChains
  import opened FatAudit
  import opened FatIntact

  datatype Outcome = Fine | Ended | Broken | TooBig

  class Audit {
    const g: Geometry
    const disk: Disk
    const skip: Ref -> bool
    /** Every request to the device succeeds. */
    const healthy: bool
    /** The objects of the volume, if it is intact. */
    ghost const whole: map<Ref, seq<nat>>
    var used: set<nat>
    var dirs: seq<nat>
    ghost var files: map<Ref, seq<nat>>
    ghost var refs: seq<Ref>
    ghost var done: set<Ref>

    constructor (g: Geometry, disk: Disk, skip: Ref -> bool, healthy: bool, ghost whole: map<Ref, seq<nat>>)
      ensures this.g == g && this.disk == disk && this.skip == skip && this.healthy == healthy && this.whole == whole
      ensures used == {} && dirs == [] && files == map[] && refs == [] && done == {}
    {
      this.g, this.disk, this.skip, this.healthy, this.whole := g, disk, skip, healthy, whole;
      used, dirs, files, refs, done := {}, [], map[], [], {};
    }

    ghost predicate Valid()
      reads this`files, this`refs, this`dirs, this`used
    {
      && ValidGeometry(g) && ValidDisk(g, disk) && Found(g, disk, files, used) && Queued(g, disk, files, refs, dirs) && Sure()
    }

    /** No directory is queued twice, everything is reached from the root, and belongs to the volume if that is intact. */
    ghost predicate Sure()
      reads this`files, this`refs
    {
      Distinct(refs) && FromRoot(g, disk, skip, files) && (Intact(g, disk, skip, whole) ==> Grows(files, whole))
    }

    method MarkChain(first: nat, size: nat) returns (ok: bool, ghost ch: seq<nat>)
      requires ValidGeometry(g) && ValidDisk(g, disk)
      modifies this`used
      ensures ok && first == 0 ==> ch == [] && size == 0 && used == old(used)
      ensures ok && first != 0 ==>
        && ch != [] && IsChain(g, Fat(g, disk), ch) && |ch| <= 65536 && ch[0] == first && size <= |ch| * ClusterSize(g)
        && used == old(used) + Elements(ch) && forall c :: c in ch ==> c !in old(used)
      ensures !ok ==> (first == 0 ==> size != 0) && forall ch :: !Markable(g, disk, old(used), first, size, ch)
    {
      hide IsChain, IsPath, ClusterSize, Markable;
      ch := [];
      NoneMarkable(g, disk, used, first, size);
      if first == 0 {
        return size == 0, [];
      }
      var c, count := first, 0;
      EmptyPath(g, Fat(g, disk), first);
      while true
        invariant |ch| == count <= 65536 && IsPath(g, Fat(g, disk), ch, c) && (if ch == [] then c == first else ch[0] == first)
        invariant used == old(used) + Elements(ch) && forall x :: x in ch ==> x !in old(used)
        invariant forall i :: 0 <= i < |ch| ==> ch[i] < |Fat(g, disk)| && !IsEnd(g, Fat(g, disk)[ch[i]].value)
        decreases 65536 - count
      {
        forall l | Markable(g, disk, old(used), first, size, l)
          ensures InRange(g, c) && |ch| < 65536 && c !in used
        {
          PathFollows(g, disk, old(used), first, size, ch, c, l);
        }
        if !InRange(g, c) {
          return false, ch;
        }
        count := count + 1;
        if count > 65536 || c in used {
          return false, ch;
        }
        used := used + {c};
        PathStep(g, Fat(g, disk), ch, c);
        assert Elements(ch + [c]) == Elements(ch) + {c};
        ch := ch + [c];
        var next := Fat(g, disk)[c].value;
        if IsEnd(g, next) {
          break;
        }
        c := next;
      }
      forall l | Markable(g, disk, old(used), first, size, l)
        ensures size <= count * ClusterSize(g)
      {
        MarkableIs(g, disk, old(used), first, size, l, ch);
      }
      return size <= count * ClusterSize(g), ch;
    }

    /** The checks of fat_directory on a live entry, and fat_audit_entry. */
    method AuditEntry(r: Ref, ghost q: Ref) returns (e: Outcome)
      requires Valid() && Names(g, disk, skip, r) && |dirs| <= 4096 && r !in files
      requires q in files && DirectoryRef(g, disk, q) && Shown(g, disk, Slots(g, files[q]), r)
      modifies this`used, this`files, this`dirs, this`refs
      ensures e == Fine ==> Valid() && r in files && |dirs| <= 4096 && files == old(files)[r := files[r]]
      ensures e == Fine ==> Grows(old(files), files) && old(refs) <= refs && old(dirs) <= dirs
      ensures e in {Fine, Broken, TooBig} && (Intact(g, disk, skip, whole) ==> e == Fine)
    {
      hide IsChain, LiveEntry, IsDirectory, FirstCluster, FileSize, EntryBytes, Consistent, ClusterSize, Found, Queued,
        EntryOk, Grows, DirectoryRef, Shown, Slots, Intact, FromRoot, Markable;
      FoundFacts(g, disk, files, used);
      Expected(q, r);
      var entry := EntryBytes(g, disk, r);
      var child := FirstCluster(g, entry);
      if g.wide && child >= 0x1000_0000 {
        return Broken;
      }
      if (IsDirectory(entry) || FileSize(entry) != 0) && !InRange(g, child) {
        return Broken;
      }
      ghost var before := used;
      var ok;
      ghost var ch;
      ok, ch := MarkChain(child, FileSize(entry));
      if !ok {
        return Broken;
      }
      MarkedOk(g, disk, r, ch);
      assert child == 0 ==> Elements(ch) == {};
      assert used == before + Elements(ch);
      AddObject(g, disk, files, before, q, r, ch);
      QueuedMore(g, disk, files, refs, dirs, r, ch);
      Accepted(q, r, ch);
      QueuedNew(r, ch);
      files := files[r := ch];
      if IsDirectory(entry) {
        if |dirs| == 4096 {
          return TooBig;
        }
        dirs := dirs + [child];
        refs := refs + [r];
      }
      return Fine;
    }

    /** On an intact volume the entry is that of an object, and its chain can be marked. */
    lemma Expected(q: Ref, r: Ref)
      requires Valid() && Names(g, disk, skip, r) && r !in files && q in files && DirectoryRef(g, disk, q) && Shown(g, disk, Slots(g, files[q]), r)
      ensures Intact(g, disk, skip, whole) ==>
        && r in whole && Consistent(g, disk, whole) && r.Entry? && EntryOk(g, disk, r, whole[r])
        && (var e := EntryBytes(g, disk, r);
            && (g.wide ==> FirstCluster(g, e) < 0x1000_0000) && (IsDirectory(e) || FileSize(e) != 0 ==> InRange(g, FirstCluster(g, e)))
            && (FirstCluster(g, e) == 0 ==> whole[r] == [] && FileSize(e) == 0)
            && (FirstCluster(g, e) != 0 ==> Markable(g, disk, used, FirstCluster(g, e), FileSize(e), whole[r])))
    {
      hide Consistent, DirectoryRef, Shown, Slots, Intact, FromRoot, Queued, EntryBytes, LiveEntry, FirstCluster, FileSize, IsDirectory, EntryOk,
        Markable, Closed;
      if Intact(g, disk, skip, whole) {
        IntactFacts(g, disk, skip, whole);
        assert Step(g, disk, skip, whole, q, r);
        ShownKnown(g, disk, skip, whole, q, r);
        FoundFacts(g, disk, files, used);
        ObjectMarkable(g, disk, whole, files, r);
      }
    }

    /** The chain marked is the one the object has. */
    lemma Accepted(q: Ref, r: Ref, ch: seq<nat>)
      requires ValidGeometry(g) && ValidDisk(g, disk) && Sure() && Step(g, disk, skip, files, q, r) && r !in files && HasEntry(g, disk, r)
      requires Intact(g, disk, skip, whole) ==> r in whole
      requires var first := FirstCluster(g, EntryBytes(g, disk, r));
        && (if first == 0 then ch == [] else ch != [] && IsChain(g, Fat(g, disk), ch) && ch[0] == first)
        && (Intact(g, disk, skip, whole) ==> if first == 0 then whole[r] == [] else exists used, size :: Markable(g, disk, used, first, size, whole[r]))
      ensures FromRoot(g, disk, skip, files[r := ch]) && (Intact(g, disk, skip, whole) ==> Grows(files[r := ch], whole))
    {
      hide Intact, IsChain, Markable, EntryBytes, FirstCluster, FromRoot, Step;
      FromRootMore(g, disk, skip, files, q, r, ch);
      var first := FirstCluster(g, EntryBytes(g, disk, r));
      if Intact(g, disk, skip, whole) && first != 0 {
        var used, size :| Markable(g, disk, used, first, size, whole[r]);
        MarkableIs(g, disk, used, first, size, whole[r], ch);
      }
    }

    /** The queue stays within the limit of an intact volume. */
    lemma QueuedNew(r: Ref, ch: seq<nat>)
      requires Sure() && Queued(g, disk, files, refs, dirs) && r !in files
      requires Intact(g, disk, skip, whole) ==> Grows(files[r := ch], whole)
      ensures Distinct(refs + [r]) && |refs| == |dirs|
      ensures Intact(g, disk, skip, whole) && HasEntry(g, disk, r) && IsDirectory(EntryBytes(g, disk, r)) ==> |refs| < 4096
    {
      hide Intact, FromRoot;
      if Intact(g, disk, skip, whole) && HasEntry(g, disk, r) && IsDirectory(EntryBytes(g, disk, r)) {
        QueueFits(g, disk, skip, whole, refs + [r]);
      }
    }

    /** The places seen so far are a listing that ended before the given places did. */
    ghost predicate Stopped(seen: seq<Ref>, slots: seq<Ref>) {
      seen <= slots && |seen| < |slots| && EndMark(g, disk, slots[|seen|])
    }

    /** State of a scan of directory q. */
    ghost predicate Scanning(q: Ref, seen: seq<Ref>)
      reads this`files, this`refs, this`dirs, this`used, this`done
    {
      && Valid() && |dirs| <= 4096 && q in files && DirectoryRef(g, disk, q) && Seen(g, disk, skip, files, seen)
      && q !in done && Traced(g, disk, files, done, seen)
    }

    lemma ScanFacts(q: Ref, seen: seq<Ref>)
      requires Scanning(q, seen)
      ensures ValidGeometry(g) && ValidDisk(g, disk) && q in files && DirectoryRef(g, disk, q) && Found(g, disk, files, used)
      ensures g.active < |disk.fat|
    {
      hide Found, Queued, Sure, Traced, Seen, DirectoryRef;
    }

    /** The whole directory has been scanned. */
    ghost predicate Scanned(q: Ref)
      reads this`files, this`refs, this`dirs, this`used, this`done
    {
      && Valid() && |dirs| <= 4096 && q in files && Traced(g, disk, files, done + {q}, [])
      && Listed(g, disk, skip, files, Slots(g, files[q])) && Bounded(g, disk, Slots(g, files[q]))
    }

    /** The listing ended. */
    lemma ScanEnds(q: Ref, seen: seq<Ref>)
      requires Scanning(q, seen) && seen <= Slots(g, files[q]) && |seen| <= 65536
      requires |seen| == |Slots(g, files[q])| || (EndMark(g, disk, Slots(g, files[q])[|seen|]) && |seen| < 65536)
      ensures Scanned(q)
    {
      hide Found, Queued, Sure, Seen, DirectoryRef, ValidDisk, ValidGeometry, Slots, EndMark, Traced, Listed;
      TracedDone(g, disk, files, done, seen, q);
      ListedBy(g, disk, skip, files, seen, Slots(g, files[q]));
    }

    /** A listing that goes on and on is none of an intact volume. */
    lemma TooLong(q: Ref, seen: seq<Ref>, r: Ref)
      requires Scanning(q, seen) && seen + [r] <= Slots(g, files[q]) && |seen| == 65536
      ensures !Intact(g, disk, skip, whole)
    {
      hide Found, Queued, DirectoryRef, ValidDisk, ValidGeometry, Slots, EndMark, Traced, Closed, FromRoot;
      if Intact(g, disk, skip, whole) {
        assert whole[q] == files[q];
        var slots := Slots(g, files[q]);
        forall j | 0 <= j < 65536
          ensures !EndMark(g, disk, slots[j])
        {
          assert seen[j] == (seen + [r])[j];
        }
        assert false;
      }
    }

    /** One more entry place. */
    method ScanSlot(r: Ref, ghost q: Ref, ghost seen: seq<Ref>) returns (e: Outcome)
      requires Scanning(q, seen) && HasEntry(g, disk, r) && seen + [r] <= Slots(g, files[q])
      modifies this`used, this`files, this`dirs, this`refs
      ensures e == Fine ==> Scanning(q, seen + [r])
      ensures e == Ended ==> Scanning(q, seen) && EndMark(g, disk, r)
      ensures e in {Fine, Ended} ==> Grows(old(files), files) && old(refs) <= refs && old(dirs) <= dirs
      ensures Intact(g, disk, skip, whole) ==> e in {Fine, Ended}
    {
      hide Found, Queued, EntryBytes, LiveEntry, DirectoryRef, HasEntry, Seen, Slots, Shown, Sure, Traced, Intact, FromRoot;
      var entry := EntryBytes(g, disk, r);
      if entry[0] == 0 {
        return Ended;
      }
      SeenShown(g, disk, skip, files, seen, Slots(g, files[q]), r);
      if LiveEntry(entry) && !skip(r) {
        FoundFacts(g, disk, files, used);
        EntryIs(r);
        NotYet(g, disk, files, done, q, seen, r);
        e := AuditEntry(r, q);
        if e != Fine {
          return;
        }
        SeenGrows(g, disk, skip, old(files), files, seen);
        TracedMore(g, disk, old(files), done, seen, r, files[r]);
      } else {
        TracedOn(g, disk, files, done, seen, r);
      }
      SeenOne(g, disk, skip, files, r);
      SeenJoin(g, disk, skip, files, seen, [r]);
      return Fine;
    }

    lemma EntryIs(r: Ref)
      requires HasEntry(g, disk, r)
      ensures r.Entry?
    {
    }

    method ScanSector(a: Addr, fixed: bool, scanned: nat, ghost q: Ref, ghost seen: seq<Ref>)
      returns (e: Outcome, total: nat, ghost now: seq<Ref>)
      requires Scanning(q, seen) && |seen| == scanned <= 65536
      requires if fixed then files[q] == [] && scanned <= g.rootEntries && seen + SectorSlots(g, a, g.sector / 32) <= RootSlots(g, RootSectors(g))
        else seen + SectorSlots(g, a, g.sector / 32) <= Slots(g, files[q])
      modifies this`used, this`files, this`dirs, this`refs
      ensures e in {Fine, Ended} ==> Scanning(q, now) && |now| == total <= 65536 && (fixed ==> total <= g.rootEntries)
      ensures e in {Fine, Ended} ==> Grows(old(files), files) && old(refs) <= refs && old(dirs) <= dirs
      ensures e == Fine ==> now == seen + SectorSlots(g, a, g.sector / 32)
      ensures e == Ended ==> (Stopped(now, seen + SectorSlots(g, a, g.sector / 32)) && total < 65536) ||
                             (fixed && |now| == g.rootEntries && now <= seen + SectorSlots(g, a, g.sector / 32))
      ensures healthy && Intact(g, disk, skip, whole) ==> e in {Fine, Ended}
    {
      hide Found, Queued, EndMark, DirectoryRef, Seen, Slots, RootSlots, RootSectors, Scanning, Intact;
      total, now := scanned, seen;
      ghost var all := SectorSlots(g, a, g.sector / 32);
      assert forall k :: 0 <= k < g.sector / 32 ==> all[k] == Entry(a, 32 * k);
      hide SectorSlots;
      var readable := Answers(healthy);
      if !readable {
        return Broken, total, now;
      }
      ScanFacts(q, seen);
      SectorHolds(g, disk, a);
      var i := 0;
      while i < g.sector / 32
        invariant 0 <= i <= g.sector / 32 && Scanning(q, now) && |now| == total <= 65536 && (fixed ==> total <= g.rootEntries)
        invariant now == seen + all[..i] && |all| == g.sector / 32 && all[..i] <= all
        invariant Grows(old(files), files) && old(refs) <= refs && old(dirs) <= dirs && q in files && files[q] == old(files)[q]
      {
        if fixed && total >= g.rootEntries {
          return Ended, total, now;
        }
        PrefixStep(seen, all, i);
        if fixed {
          RootPrefix(g, now + [all[i]]);
        }
        if total >= 65536 {
          TooLong(q, now, all[i]);
          return TooBig, total, now;
        }
        e := ScanSlot(Entry(a, 32 * i), q, now);
        if e != Fine {
          return;
        }
        now := now + [all[i]];
        total := total + 1;
        i := i + 1;
      }
      assert all[..i] == all;
      return Fine, total, now;
    }

    method ScanCluster(c: nat, scanned: nat, ghost q: Ref, ghost seen: seq<Ref>)
      returns (e: Outcome, total: nat, ghost now: seq<Ref>)
      requires Scanning(q, seen) && |seen| == scanned <= 65536 && seen + ClusterSlots(g, c, g.spc) <= Slots(g, files[q])
      modifies this`used, this`files, this`dirs, this`refs
      ensures e in {Fine, Ended} ==> Scanning(q, now) && |now| == total <= 65536
      ensures e in {Fine, Ended} ==> Grows(old(files), files) && old(refs) <= refs && old(dirs) <= dirs
      ensures e == Fine ==> now == seen + ClusterSlots(g, c, g.spc)
      ensures e == Ended ==> Stopped(now, seen + ClusterSlots(g, c, g.spc)) && total < 65536
      ensures healthy && Intact(g, disk, skip, whole) ==> e in {Fine, Ended}
    {
      hide Found, Queued, EndMark, DirectoryRef, Seen, SectorSlots, Slots, Scanning, Intact;
      ScanFacts(q, seen);
      total, now := scanned, seen;
      var s := 0;
      while s < g.spc
        invariant 0 <= s <= g.spc && Scanning(q, now) && |now| == total <= 65536
        invariant now == seen + ClusterSlots(g, c, s)
        invariant Grows(old(files), files) && old(refs) <= refs && old(dirs) <= dirs && q in files && files[q] == old(files)[q]
      {
        ghost var before := now;
        ClusterSlotsGrow(g, c, s + 1, g.spc);
        assert before + SectorSlots(g, Data(c, s), g.sector / 32) == seen + ClusterSlots(g, c, s + 1);
        e, total, now := ScanSector(Data(c, s), false, total, q, now);
        assert before + SectorSlots(g, Data(c, s), g.sector / 32) == seen + ClusterSlots(g, c, s + 1);
        if e != Fine {
          return;
        }
        s := s + 1;
      }
      return Fine, total, now;
    }

    /** The fixed root area of a FAT16 volume. */
    method ScanRoot(ghost q: Ref) returns (e: Outcome)
      requires Scanning(q, []) && files[q] == []
      modifies this`used, this`files, this`dirs, this`refs
      ensures e == Fine ==> Scanned(q) && Grows(old(files), files) && old(refs) <= refs && old(dirs) <= dirs
      ensures healthy && Intact(g, disk, skip, whole) ==> e == Fine
    {
      hide Found, Queued, EndMark, DirectoryRef, Seen, SectorSlots, RootSectors, Slots, Scanning, Scanned, Intact;
      ScanFacts(q, []);
      var total := 0;
      ghost var now: seq<Ref> := [];
      var s := 0;
      while s < RootSectors(g)
        invariant 0 <= s <= RootSectors(g) && Scanning(q, now) && |now| == total <= 65536 && total <= g.rootEntries
        invariant now == RootSlots(g, s)
        invariant Grows(old(files), files) && old(refs) <= refs && old(dirs) <= dirs && q in files && files[q] == []
      {
        ghost var before := now;
        RootSlotsGrow(g, s + 1, RootSectors(g));
        assert before + SectorSlots(g, Root(s), g.sector / 32) == RootSlots(g, s + 1);
        e, total, now := ScanSector(Root(s), true, total, q, now);
        assert before + SectorSlots(g, Root(s), g.sector / 32) == RootSlots(g, s + 1);
        if e == Ended {
          RootEnds(q, now);
          return Fine;
        }
        if e != Fine {
          return;
        }
        s := s + 1;
      }
      RootEnds(q, now);
      return Fine;
    }

    lemma RootEnds(q: Ref, now: seq<Ref>)
      requires Scanning(q, now) && files[q] == [] && now <= RootSlots(g, RootSectors(g)) && |now| <= g.rootEntries && |now| <= 65536
      requires |now| == g.rootEntries || |now| == |RootSlots(g, RootSectors(g))| ||
               (EndMark(g, disk, RootSlots(g, RootSectors(g))[|now|]) && |now| < 65536)
      ensures Scanned(q)
    {
      hide EndMark, RootSlots, RootSectors, Scanned;
      assert q in files by { hide Seen, DirectoryRef; ScanFacts(q, now); }
      hide Scanning;
      RootPrefix(g, now);
      ScanEnds(q, now);
    }

    /** A directory held in a chain; next is followed as fat_directory does, with its cycle check. */
    method ScanChain(first: nat, ghost q: Ref) returns (e: Outcome)
      requires Scanning(q, []) && files[q] != [] && first == files[q][0]
      modifies this`used, this`files, this`dirs, this`refs
      ensures e == Fine ==> Scanned(q) && Grows(old(files), files) && old(refs) <= refs && old(dirs) <= dirs
      ensures healthy && Intact(g, disk, skip, whole) ==> e == Fine
    {
      hide Found, Queued, EndMark, DirectoryRef, Seen, SectorSlots, ClusterSlots, ChainSlots, Slots, IsChain, Next, Scanning, Scanned, Intact,
        ValidGeometry, ValidDisk;
      ScanFacts(q, []);
      ghost var ch := files[q];
      ghost var now: seq<Ref> := [];
      ghost var k, t := 0, 0;
      var total, visited, cluster, tortoise := 0, 0, first, first;
      DirectoryChain(g, disk, files, used, q);
      ChainSlotsAre(g, ch);
      NoSlots(g, ch);
      while true
        invariant 0 <= k < |ch| && cluster == ch[k] && visited == k <= 65536 && 0 <= 2 * t <= k && tortoise == ch[t]
        invariant Scanning(q, now) && |now| == total <= 65536 && q in files && files[q] == ch && now == ChainSlots(g, ch[..k])
        invariant Grows(old(files), files) && old(refs) <= refs && old(dirs) <= dirs
        decreases 65536 - visited
      {
        visited := visited + 1;
        ChainBounds(g, disk, ch, k);
        if !InRange(g, cluster) || visited > 65536 || visited > g.clusters {
          return Broken;
        }
        NextSlots(g, ch, k);
        ChainSlotsGrow(g, ch, k + 1);
        e, total, now := ScanCluster(cluster, total, q, now);
        if e == Ended {
          ScanEnds(q, now);
          return Fine;
        }
        if e != Fine {
          return;
        }
        var ok, next;
        ok, next, tortoise, t := Follow(g, disk, cluster, tortoise, visited, ch, k, t);
        if !ok {
          return Broken;
        }
        if next == END {
          assert ch[..k + 1] == ch;
          ScanEnds(q, now);
          return Fine;
        }
        cluster, k := next, k + 1;
      }
    }

    /** What stands between two directories: the first n have been listed. */
    ghost predicate Progress(n: nat)
      reads this`files, this`refs, this`dirs, this`used, this`done
    {
      && Valid() && n <= |dirs| == |refs| <= 4096 && AllListed(g, disk, skip, files, refs, n)
      && Traced(g, disk, files, done, []) && forall x :: x in done ==> x in refs[..n]
    }

    /** Directory number i of the queue. */
    method ScanNext(i: nat) returns (e: Outcome)
      requires Progress(i) && i < |dirs|
      modifies this
      ensures e == Fine ==> Progress(i + 1)
      ensures healthy && Intact(g, disk, skip, whole) ==> e == Fine
    {
      hide Queued, Listed, DirectoryRef, Slots, AllListed, Seen, Grows, Intact, Sure, Traced, Found, Bounded;
      ghost var q, was, queue := refs[i], files, refs;
      QueuedAt(g, disk, files, refs, dirs, i);
      SeenNone(g, disk, skip, files);
      Different(i);
      if files[q] == [] {
        OnlyFixedRoot(g, disk, files, used, q);
      } else {
        FirstIsNoZero(g, disk, files, used, q);
      }
      if g.wide && dirs[i] == 0 {
        return Broken;
      }
      if dirs[i] == 0 {
        e := ScanRoot(q);
      } else {
        e := ScanChain(dirs[i], q);
      }
      if e != Fine {
        return;
      }
      done := done + {q};
      assert refs[..i + 1] == refs[..i] + [q];
      QueuedLength(g, disk, files, refs, dirs);
      AllListedGrow(g, disk, skip, was, files, queue, refs, i);
      OneMoreListed(g, disk, skip, files, refs, i);
    }

    /** The chain of the root, and the root in the queue. */
    method MarkRoot() returns (e: Outcome)
      requires ValidGeometry(g) && ValidDisk(g, disk) && used == {} && dirs == [] && files == map[] && refs == [] && done == {}
      modifies this
      ensures e == Fine ==> Progress(0)
      ensures Intact(g, disk, skip, whole) ==> e == Fine
    {
      hide Queued, IsChain, DirectoryRef, ValidGeometry, ValidDisk, AllListed, Grows, Intact, FromRoot, Traced, Markable, Found;
      ghost var ch: seq<nat> := [];
      if Intact(g, disk, skip, whole) {
        RootMarkable(g, disk, skip, whole);
      }
      if g.wide {
        RootPlace(g);
        var ok;
        ok, ch := MarkChain(g.rootCluster, 0);
        if !ok {
          return Broken;
        }
      }
      StartFound(g, disk, ch);
      NoneListed(g, disk, skip, map[RootDir := ch], [RootDir]);
      assert used == Elements(ch);
      files, refs, dirs := map[RootDir := ch], [RootDir], [g.rootCluster];
      Started(ch);
      return Fine;
    }

    /** The queue of directories, from the root. */
    method Run() returns (e: Outcome)
      requires ValidGeometry(g) && ValidDisk(g, disk) && used == {} && dirs == [] && files == map[] && refs == [] && done == {}
      modifies this
      ensures e == Fine ==> Intact(g, disk, skip, files) && used == Owned(files)
      ensures healthy && Intact(g, disk, skip, whole) ==> e == Fine && files == whole
    {
      hide Intact, Progress, ValidGeometry, ValidDisk;
      e := MarkRoot();
      if e != Fine {
        return;
      }
      var i := 0;
      while i < |dirs|
        invariant 0 <= i <= 4096 && Progress(i)
        decreases 4096 - i
      {
        InQueue(i);
        e := ScanNext(i);
        if e != Fine {
          return;
        }
        i := i + 1;
        InQueue(i);
      }
      InQueue(i);
      Complete();
      return Fine;
    }

    lemma InQueue(i: nat)
      requires Progress(i)
      ensures i <= |dirs| <= 4096
    {
      hide Valid, AllListed, Traced;
    }

    /** At the start the root is all there is. */
    lemma Started(ch: seq<nat>)
      requires ValidGeometry(g) && ValidDisk(g, disk) && refs == [RootDir] && files == map[RootDir := ch] && (ch == [] <==> !g.wide)
      requires ch != [] ==> IsChain(g, Fat(g, disk), ch) && ch[0] == g.rootCluster
      ensures Sure() && Traced(g, disk, files, {}, [])
    {
      hide Intact, FromRoot, IsChain, Traced, Markable, ValidGeometry, ValidDisk;
      FromRootStart(g, disk, skip, ch);
      TracedNone(g, disk, ch);
      if Intact(g, disk, skip, whole) {
        RootMarkable(g, disk, skip, whole);
        if g.wide {
          MarkableIs(g, disk, {}, g.rootCluster, 0, whole[RootDir], ch);
        }
      }
    }

    lemma Different(i: nat)
      requires Sure() && i < |refs|
      ensures refs[i] !in refs[..i]
    {
      hide FromRoot, Intact;
    }

    lemma Complete()
      requires Progress(|dirs|)
      ensures Intact(g, disk, skip, files) && used == Owned(files) && (Intact(g, disk, skip, whole) ==> files == whole)
    {
      hide Found, Queued, FromRoot, AllListed, Closed;
      AllIntact(g, disk, skip, files, used, refs, dirs);
      if Intact(g, disk, skip, whole) {
        AllFound(g, disk, skip, files, whole);
      }
    }
  }
}
