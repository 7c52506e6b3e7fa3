/**
 Intact volumes: every object is reached from the root, listing the directories finds nothing else, and
 no directory is beyond the limits. The objects of an intact volume are what an audit has to find.
 */
module FatIntact {
  import opened Basics
  import opened FatDisk
  import opened FatSlots
  import opened FatChains
  import opened FatAudit
  import FatGrowth

  const PLACES: nat := 65536
  const DIRECTORIES: nat := 4096

  /** Directory p shows r. */
  ghost predicate Step(g: Geometry, d: Disk, skip: Ref -> bool, files: map<Ref, seq<nat>>, p: Ref, r: Ref) {
    p in files && DirectoryRef(g, d, p) && Shown(g, d, Slots(g, files[p]), r) && Names(g, d, skip, r)
  }

  /** A way down from the root, each object shown by the one before it. */
  ghost predicate Way(g: Geometry, d: Disk, skip: Ref -> bool, files: map<Ref, seq<nat>>, way: seq<Ref>, r: Ref) {
    && way != [] && way[0] == RootDir && way[|way| - 1] == r
    && forall i :: 0 <= i < |way| - 1 ==> Step(g, d, skip, files, way[i], way[i + 1])
  }

  ghost predicate FromRoot(g: Geometry, d: Disk, skip: Ref -> bool, files: map<Ref, seq<nat>>) {
    forall r :: r in files ==> exists way :: Way(g, d, skip, files, way, r)
  }

  ghost function DirectoriesOf(g: Geometry, d: Disk, files: map<Ref, seq<nat>>): set<Ref> {
    set r | r in files && DirectoryRef(g, d, r)
  }

  /** A listing ends within the limit. */
  ghost predicate Bounded(g: Geometry, d: Disk, slots: seq<Ref>) { |slots| <= PLACES || !Open(g, d, slots, PLACES) }

  ghost predicate Intact(g: Geometry, d: Disk, skip: Ref -> bool, files: map<Ref, seq<nat>>) {
    && Found(g, d, files, Owned(files)) && Closed(g, d, skip, files) && FromRoot(g, d, skip, files)
    && |DirectoriesOf(g, d, files)| <= DIRECTORIES
    && forall q :: q in files && DirectoryRef(g, d, q) ==> Bounded(g, d, Slots(g, files[q]))
  }

  lemma IntactFacts(g: Geometry, d: Disk, skip: Ref -> bool, files: map<Ref, seq<nat>>)
    requires Intact(g, d, skip, files)
    ensures Found(g, d, files, Owned(files)) && Closed(g, d, skip, files) && Consistent(g, d, files)
  {
    hide Closed, FromRoot, Consistent;
  }

  // ---------------------------------------------------------------- the audit finds no more

  /** What an intact volume shows is one of its objects. */
  lemma ShownKnown(g: Geometry, d: Disk, skip: Ref -> bool, files: map<Ref, seq<nat>>, q: Ref, r: Ref)
    requires Closed(g, d, skip, files) && Step(g, d, skip, files, q, r)
    ensures r in files
  {
    hide DirectoryRef, Slots, Names, EndMark;
    var slots := Slots(g, files[q]);
    var n: nat :| n <= |slots| && (n == |slots| || EndMark(g, d, slots[n])) && Seen(g, d, skip, files, slots[..n]);
    var i :| 0 <= i < |slots| && slots[i] == r && Open(g, d, slots, i + 1);
    if i >= n {
      assert false;
    }
    assert slots[..n][i] == r;
  }

  /** The chain of an object that has not been visited can be marked, and no other. */
  lemma ObjectMarkable(g: Geometry, d: Disk, whole: map<Ref, seq<nat>>, files: map<Ref, seq<nat>>, r: Ref)
    requires Consistent(g, d, whole) && Grows(files, whole) && r in whole && r !in files && r.Entry?
    ensures EntryOk(g, d, r, whole[r]) && HasEntry(g, d, r)
    ensures var e := EntryBytes(g, d, r);
      && (g.wide ==> FirstCluster(g, e) < 0x1000_0000) && (IsDirectory(e) || FileSize(e) != 0 ==> InRange(g, FirstCluster(g, e)))
      && (FirstCluster(g, e) == 0 ==> whole[r] == [] && FileSize(e) == 0)
      && (FirstCluster(g, e) != 0 ==> Markable(g, d, Owned(files), FirstCluster(g, e), FileSize(e), whole[r]))
  {
    hide Housed, EntryBytes, HasEntry, FirstCluster, FileSize, LiveEntry, IsDirectory;
    if whole[r] != [] {
      assert InRange(g, whole[r][0]);
      forall c | c in whole[r]
        ensures c !in Owned(files)
      {
      }
    }
  }

  lemma RootMarkable(g: Geometry, d: Disk, skip: Ref -> bool, whole: map<Ref, seq<nat>>)
    requires Intact(g, d, skip, whole)
    ensures RootDir in whole
    ensures if g.wide then whole[RootDir] != [] && Markable(g, d, {}, g.rootCluster, 0, whole[RootDir]) else whole[RootDir] == []
  {
    assert 0 <= |whole[RootDir]| * ClusterSize(g) by { Multiples(0, |whole[RootDir]|, ClusterSize(g)); }
    hide ClusterSize, ValidDisk, DirectoriesOf, Bounded, Owned, Disjoint;
    hide Closed, FromRoot, EntryOk, Housed, IsChain, DirectoryRef;
  }

  // ---------------------------------------------------------------- each place is visited once

  ghost predicate In(g: Geometry, d: Disk, files: map<Ref, seq<nat>>, p: Ref, r: Ref) {
    p in files && DirectoryRef(g, d, p) && r in Slots(g, files[p])
  }

  /** Every object is the root, in a place seen, or in one of the directories that are done. */
  ghost predicate Traced(g: Geometry, d: Disk, files: map<Ref, seq<nat>>, done: set<Ref>, seen: seq<Ref>) {
    forall r :: r in files && r.Entry? ==> r in seen || exists p :: p in done && In(g, d, files, p, r)
  }

  lemma TracedMore(g: Geometry, d: Disk, files: map<Ref, seq<nat>>, done: set<Ref>, seen: seq<Ref>, r: Ref, ch: seq<nat>)
    requires Traced(g, d, files, done, seen) && r !in files
    ensures Traced(g, d, files[r := ch], done, seen + [r])
  {
    hide DirectoryRef, Slots;
    var f1 := files[r := ch];
    forall x | x in f1 && x.Entry?
      ensures x in seen + [r] || exists p :: p in done && In(g, d, f1, p, x)
    {
      if x != r && x !in seen {
        var p :| p in done && In(g, d, files, p, x);
        assert In(g, d, f1, p, x);
      }
    }
  }

  lemma TracedOn(g: Geometry, d: Disk, files: map<Ref, seq<nat>>, done: set<Ref>, seen: seq<Ref>, r: Ref)
    requires Traced(g, d, files, done, seen)
    ensures Traced(g, d, files, done, seen + [r])
  {
    hide In;
  }

  lemma TracedDone(g: Geometry, d: Disk, files: map<Ref, seq<nat>>, done: set<Ref>, seen: seq<Ref>, q: Ref)
    requires Traced(g, d, files, done, seen) && q in files && DirectoryRef(g, d, q) && seen <= Slots(g, files[q])
    ensures Traced(g, d, files, done + {q}, [])
  {
    hide DirectoryRef, Slots;
    forall r | r in files && r.Entry?
      ensures exists p :: p in done + {q} && In(g, d, files, p, r)
    {
      if r in seen {
        var i :| 0 <= i < |seen| && seen[i] == r;
        assert Slots(g, files[q])[i] == r;
        assert In(g, d, files, q, r);
      }
    }
  }

  lemma TracedNone(g: Geometry, d: Disk, ch: seq<nat>)
    ensures Traced(g, d, map[RootDir := ch], {}, [])
  {
  }

  /** The next place of a scan has not been visited. */
  lemma NotYet(g: Geometry, d: Disk, files: map<Ref, seq<nat>>, done: set<Ref>, q: Ref, seen: seq<Ref>, r: Ref)
    requires Consistent(g, d, files) && q in files && DirectoryRef(g, d, q) && q !in done && seen + [r] <= Slots(g, files[q])
    requires Traced(g, d, files, done, seen) && r.Entry?
    ensures r !in files
  {
    hide Consistent, DirectoryRef, Slots;
    if r in files {
      var k := |seen|;
      assert (seen + [r])[k] == r;
      assert Slots(g, files[q])[k] == r;
      if r in seen {
        var i :| 0 <= i < |seen| && seen[i] == r;
        assert (seen + [r])[i] == r;
        assert Slots(g, files[q])[i] == r;
        FatGrowth.PlaceOwner(g, d, files, q, i, q, k);
      } else {
        var p :| p in done && In(g, d, files, p, r);
        var i :| 0 <= i < |Slots(g, files[p])| && Slots(g, files[p])[i] == r;
        FatGrowth.PlaceOwner(g, d, files, p, i, q, k);
      }
      assert false;
    }
  }

  // ---------------------------------------------------------------- the queue

  lemma {:induction false} DistinctSet(rs: seq<Ref>)
    requires Distinct(rs)
    ensures |set r | r in rs| == |rs|
  {
    var all := set r | r in rs;
    if rs == [] {
      assert all == {};
    } else {
      var n := |rs| - 1;
      DistinctSet(rs[..n]);
      assert all == (set r | r in rs[..n]) + {rs[n]};
    }
  }

  /** A queue of different directories is within the limit of an intact volume. */
  lemma QueueFits(g: Geometry, d: Disk, skip: Ref -> bool, whole: map<Ref, seq<nat>>, rs: seq<Ref>)
    requires Intact(g, d, skip, whole) && Distinct(rs) && forall r :: r in rs ==> r in whole && DirectoryRef(g, d, r)
    ensures |rs| <= DIRECTORIES
  {
    hide Found, Closed, FromRoot, DirectoryRef;
    DistinctSet(rs);
    SmallerSet((set r | r in rs), DirectoriesOf(g, d, whole));
  }

  lemma SmallerSet(a: set<Ref>, b: set<Ref>)
    requires a <= b
    ensures |a| <= |b|
  {
    assert b == a + (b - a);
  }

  lemma QueueBounds(g: Geometry, d: Disk, files: map<Ref, seq<nat>>, rs: seq<Ref>)
    requires Distinct(rs) && forall q :: q in files && DirectoryRef(g, d, q) ==> q in rs
    ensures |DirectoriesOf(g, d, files)| <= |rs|
  {
    hide DirectoryRef;
    DistinctSet(rs);
    SmallerSet(DirectoriesOf(g, d, files), (set r | r in rs));
  }

  // ---------------------------------------------------------------- ways

  lemma WayGrows(g: Geometry, d: Disk, skip: Ref -> bool, files: map<Ref, seq<nat>>, files': map<Ref, seq<nat>>, way: seq<Ref>, r: Ref)
    requires Way(g, d, skip, files, way, r) && Grows(files, files')
    ensures Way(g, d, skip, files', way, r)
  {
    hide DirectoryRef, Shown, Slots, Names;
    forall i | 0 <= i < |way| - 1
      ensures Step(g, d, skip, files', way[i], way[i + 1])
    {
      assert Step(g, d, skip, files, way[i], way[i + 1]);
    }
  }

  lemma FromRootMore(g: Geometry, d: Disk, skip: Ref -> bool, files: map<Ref, seq<nat>>, q: Ref, r: Ref, ch: seq<nat>)
    requires FromRoot(g, d, skip, files) && Step(g, d, skip, files, q, r) && r !in files
    ensures FromRoot(g, d, skip, files[r := ch])
  {
    hide Step;
    var f1 := files[r := ch];
    assert q in files by { StepFrom(g, d, skip, files, q, r); }
    forall x | x in f1
      ensures exists way :: Way(g, d, skip, f1, way, x)
    {
      var y := if x == r then q else x;
      var way :| Way(g, d, skip, files, way, y);
      if x == r {
        var longer := way + [r];
        forall i | 0 <= i < |longer| - 1
          ensures Step(g, d, skip, files, longer[i], longer[i + 1])
        {
          if i + 1 < |way| {
            assert longer[i] == way[i] && longer[i + 1] == way[i + 1];
          }
        }
        WayGrows(g, d, skip, files, f1, longer, r);
      } else {
        WayGrows(g, d, skip, files, f1, way, x);
      }
    }
  }

  lemma StepFrom(g: Geometry, d: Disk, skip: Ref -> bool, files: map<Ref, seq<nat>>, q: Ref, r: Ref)
    requires Step(g, d, skip, files, q, r)
    ensures q in files
  {
  }

  lemma FromRootStart(g: Geometry, d: Disk, skip: Ref -> bool, ch: seq<nat>)
    ensures FromRoot(g, d, skip, map[RootDir := ch])
  {
    hide Step;
    assert Way(g, d, skip, map[RootDir := ch], [RootDir], RootDir);
  }

  /** Objects closed under listing contain every object that a way leads to. */
  lemma {:induction false} WayInside(g: Geometry, d: Disk, skip: Ref -> bool, files: map<Ref, seq<nat>>, whole: map<Ref, seq<nat>>, way: seq<Ref>,
                                     r: Ref, i: nat)
    requires Closed(g, d, skip, files) && Grows(files, whole) && Way(g, d, skip, whole, way, r) && i < |way|
    ensures way[i] in files
  {
    hide Shown, DirectoryRef, Slots, Names, Listed;
    if i > 0 {
      WayInside(g, d, skip, files, whole, way, r, i - 1);
      assert Step(g, d, skip, whole, way[i - 1], way[i]);
      ShownKnown(g, d, skip, files, way[i - 1], way[i]);
    }
  }

  /** An audit that finds only objects of an intact volume finds all of them. */
  lemma AllFound(g: Geometry, d: Disk, skip: Ref -> bool, files: map<Ref, seq<nat>>, whole: map<Ref, seq<nat>>)
    requires Closed(g, d, skip, files) && Grows(files, whole) && Intact(g, d, skip, whole)
    ensures files == whole
  {
    hide Closed, Found, Way;
    forall r | r in whole
      ensures r in files
    {
      var way :| Way(g, d, skip, whole, way, r);
      assert way != [] && way[|way| - 1] == r by { WayEnds(g, d, skip, whole, way, r); }
      WayInside(g, d, skip, files, whole, way, r, |way| - 1);
    }
  }

  lemma WayEnds(g: Geometry, d: Disk, skip: Ref -> bool, files: map<Ref, seq<nat>>, way: seq<Ref>, r: Ref)
    requires Way(g, d, skip, files, way, r)
    ensures way != [] && way[|way| - 1] == r
  {
    hide Step;
  }

  // ---------------------------------------------------------------- directories that are done

  /** The first n in the queue have been listed, within the limit. */
  ghost predicate AllListed(g: Geometry, d: Disk, skip: Ref -> bool, files: map<Ref, seq<nat>>, refs: seq<Ref>, n: nat) {
    n <= |refs| && forall k :: 0 <= k < n ==>
      refs[k] in files && Listed(g, d, skip, files, Slots(g, files[refs[k]])) && Bounded(g, d, Slots(g, files[refs[k]]))
  }

  lemma AllListedGrow(g: Geometry, d: Disk, skip: Ref -> bool, files: map<Ref, seq<nat>>, files': map<Ref, seq<nat>>,
                      queue: seq<Ref>, refs: seq<Ref>, n: nat)
    requires AllListed(g, d, skip, files, queue, n) && queue <= refs && Grows(files, files')
    ensures AllListed(g, d, skip, files', refs, n)
  {
    hide Listed, Slots, Bounded;
    forall k | 0 <= k < n
      ensures refs[k] in files' && Listed(g, d, skip, files', Slots(g, files'[refs[k]])) && Bounded(g, d, Slots(g, files'[refs[k]]))
    {
      assert refs[k] == queue[k];
      ListedGrows(g, d, skip, files, files', Slots(g, files[refs[k]]));
    }
  }

  lemma NoneListed(g: Geometry, d: Disk, skip: Ref -> bool, files: map<Ref, seq<nat>>, refs: seq<Ref>)
    ensures AllListed(g, d, skip, files, refs, 0)
  {
  }

  lemma OneMoreListed(g: Geometry, d: Disk, skip: Ref -> bool, files: map<Ref, seq<nat>>, refs: seq<Ref>, n: nat)
    requires AllListed(g, d, skip, files, refs, n) && n < |refs| && refs[n] in files
    requires Listed(g, d, skip, files, Slots(g, files[refs[n]])) && Bounded(g, d, Slots(g, files[refs[n]]))
    ensures AllListed(g, d, skip, files, refs, n + 1)
  {
    hide Listed, Slots, Bounded;
  }

  /** A queue that has been worked off makes the volume intact. */
  lemma AllIntact(g: Geometry, d: Disk, skip: Ref -> bool, files: map<Ref, seq<nat>>, used: set<nat>, refs: seq<Ref>, dirs: seq<nat>)
    requires Found(g, d, files, used) && Queued(g, d, files, refs, dirs) && Distinct(refs) && |refs| <= DIRECTORIES
    requires AllListed(g, d, skip, files, refs, |refs|) && FromRoot(g, d, skip, files)
    ensures Intact(g, d, skip, files) && used == Owned(files)
  {
    hide Listed, Slots, DirectoryRef, Consistent, FromRoot, Bounded;
    QueueBounds(g, d, files, refs);
    forall q | q in files && DirectoryRef(g, d, q)
      ensures Listed(g, d, skip, files, Slots(g, files[q])) && Bounded(g, d, Slots(g, files[q]))
    {
      var k :| 0 <= k < |refs| && refs[k] == q;
    }
  }

  /** Only the fixed root area has no chain. */
  lemma OnlyFixedRoot(g: Geometry, d: Disk, files: map<Ref, seq<nat>>, used: set<nat>, q: Ref)
    requires Found(g, d, files, used) && q in files && DirectoryRef(g, d, q) && files[q] == []
    ensures !g.wide
  {
    hide IsChain, Housed, EntryBytes, HasEntry;
  }

  lemma RootPlace(g: Geometry)
    requires ValidGeometry(g) && g.wide
    ensures g.rootCluster != 0
  {
  }

  // ---------------------------------------------------------------- the disk says what its objects are

  lemma SameChain(g: Geometry, d: Disk, a: seq<nat>, b: seq<nat>)
    requires ValidGeometry(g) && ValidDisk(g, d) && a != [] && b != [] && a[0] == b[0]
    requires IsChain(g, Fat(g, d), a) && IsChain(g, Fat(g, d), b)
    ensures a == b
  {
    ChainsAgree(g, Fat(g, d), a, b, if |a| <= |b| then |a| else |b|);
    if |a| < |b| {
      LinkIsNoEnd(g, Fat(g, d), b, |a| - 1);
    } else if |b| < |a| {
      LinkIsNoEnd(g, Fat(g, d), a, |b| - 1);
    }
  }

  lemma SameObject(g: Geometry, d: Disk, a: map<Ref, seq<nat>>, b: map<Ref, seq<nat>>, r: Ref)
    requires Found(g, d, a, Owned(a)) && Found(g, d, b, Owned(b)) && r in a && r in b
    ensures a[r] == b[r]
  {
    hide IsChain, Housed, EntryBytes, HasEntry, FirstCluster, FileSize, LiveEntry, IsDirectory;
    if a[r] != [] {
      InChain(g, Fat(g, d), a[r], 0);
    }
    if b[r] != [] {
      InChain(g, Fat(g, d), b[r], 0);
    }
    if a[r] != [] && b[r] != [] {
      SameChain(g, d, a[r], b[r]);
    }
  }

  lemma {:induction false} WayKnown(g: Geometry, d: Disk, skip: Ref -> bool, a: map<Ref, seq<nat>>, b: map<Ref, seq<nat>>, way: seq<Ref>, r: Ref, i: nat)
    requires Intact(g, d, skip, a) && Intact(g, d, skip, b) && Way(g, d, skip, a, way, r) && i < |way|
    ensures way[i] in b
  {
    hide FromRoot, Closed, Found, Shown, DirectoryRef, Slots, Names, Consistent;
    if i == 0 {
      RootMarkable(g, d, skip, b);
    } else {
      WayKnown(g, d, skip, a, b, way, r, i - 1);
      var p := way[i - 1];
      assert Step(g, d, skip, a, p, way[i]);
      SameObject(g, d, a, b, p);
      ShownKnown(g, d, skip, b, p, way[i]);
    }
  }

  /** An intact volume has one set of objects, each with one chain. */
  lemma IntactUnique(g: Geometry, d: Disk, skip: Ref -> bool, a: map<Ref, seq<nat>>, b: map<Ref, seq<nat>>)
    requires Intact(g, d, skip, a) && Intact(g, d, skip, b)
    ensures a == b
  {
    hide Intact;
    forall r | r in a || r in b
      ensures r in a && r in b && a[r] == b[r]
    {
      if r in a {
        KnownToo(g, d, skip, a, b, r);
      } else {
        KnownToo(g, d, skip, b, a, r);
      }
    }
  }

  lemma KnownToo(g: Geometry, d: Disk, skip: Ref -> bool, a: map<Ref, seq<nat>>, b: map<Ref, seq<nat>>, r: Ref)
    requires Intact(g, d, skip, a) && Intact(g, d, skip, b) && r in a
    ensures r in b && b[r] == a[r]
  {
    hide Intact, Found, Way, Closed, Consistent;
    IntactFacts(g, d, skip, a);
    IntactFacts(g, d, skip, b);
    var way := WayTo(g, d, skip, a, r);
    WayKnown(g, d, skip, a, b, way, r, |way| - 1);
    SameObject(g, d, a, b, r);
  }

  lemma WayTo(g: Geometry, d: Disk, skip: Ref -> bool, files: map<Ref, seq<nat>>, r: Ref) returns (way: seq<Ref>)
    requires Intact(g, d, skip, files) && r in files
    ensures Way(g, d, skip, files, way, r) && way != [] && way[|way| - 1] == r
  {
    hide Found, Closed, Step, DirectoryRef;
    way :| Way(g, d, skip, files, way, r);
  }
}
