/**
 The audit before the first write: every directory reachable from the root is
 listed, every object's chain is marked, and a cluster met twice is refused.
 */
module FatAudit {
  import opened Basics
  import opened FatDisk
  import opened FatSlots
  import opened FatChains

  // ---------------------------------------------------------------- directory listings

  ghost predicate Names(g: Geometry, d: Disk, skip: Ref -> bool, r: Ref) {
    HasEntry(g, d, r) && LiveEntry(EntryBytes(g, d, r)) && !skip(r)
  }

  /** Every object that a listing shows before its end mark is known. */
  ghost predicate Seen(g: Geometry, d: Disk, skip: Ref -> bool, files: map<Ref, seq<nat>>, seen: seq<Ref>) {
    forall i :: 0 <= i < |seen| ==> !EndMark(g, d, seen[i]) && (Names(g, d, skip, seen[i]) ==> seen[i] in files)
  }

  ghost predicate Listed(g: Geometry, d: Disk, skip: Ref -> bool, files: map<Ref, seq<nat>>, slots: seq<Ref>) {
    exists n: nat :: n <= |slots| && (n == |slots| || EndMark(g, d, slots[n])) && Seen(g, d, skip, files, slots[..n])
  }

  /** The objects are closed under listing the directories among them. */
  ghost predicate Closed(g: Geometry, d: Disk, skip: Ref -> bool, files: map<Ref, seq<nat>>) {
    RootDir in files && forall q :: q in files && DirectoryRef(g, d, q) ==> Listed(g, d, skip, files, Slots(g, files[q]))
  }

  // ---------------------------------------------------------------- objects found so far

  /** What the audit knows of the objects it has visited. */
  ghost predicate Found(g: Geometry, d: Disk, files: map<Ref, seq<nat>>, used: set<nat>) {
    && Consistent(g, d, files) && used == Owned(files) && RootDir in files
    && (forall c :: c in used ==> InRange(g, c) && Fat(g, d)[c].value != 0)
    && (if g.wide then files[RootDir] != [] && files[RootDir][0] == g.rootCluster else files[RootDir] == [])
  }

  ghost predicate Grows(files: map<Ref, seq<nat>>, files': map<Ref, seq<nat>>) {
    forall r :: r in files ==> r in files' && files'[r] == files[r]
  }

  lemma SeenGrows(g: Geometry, d: Disk, skip: Ref -> bool, files: map<Ref, seq<nat>>, files': map<Ref, seq<nat>>, seen: seq<Ref>)
    requires Seen(g, d, skip, files, seen) && Grows(files, files')
    ensures Seen(g, d, skip, files', seen)
  {
    hide EndMark, Names;
  }

  lemma ListedGrows(g: Geometry, d: Disk, skip: Ref -> bool, files: map<Ref, seq<nat>>, files': map<Ref, seq<nat>>, slots: seq<Ref>)
    requires Listed(g, d, skip, files, slots) && Grows(files, files')
    ensures Listed(g, d, skip, files', slots)
  {
    hide EndMark, Seen;
    var n: nat :| n <= |slots| && (n == |slots| || EndMark(g, d, slots[n])) && Seen(g, d, skip, files, slots[..n]);
    SeenGrows(g, d, skip, files, files', slots[..n]);
  }

  lemma SeenJoin(g: Geometry, d: Disk, skip: Ref -> bool, files: map<Ref, seq<nat>>, a: seq<Ref>, b: seq<Ref>)
    requires Seen(g, d, skip, files, a) && Seen(g, d, skip, files, b)
    ensures Seen(g, d, skip, files, a + b)
  {
    hide EndMark, Names;
  }

  /** Marking a chain that nothing owns adds an object. */
  lemma AddObject(g: Geometry, d: Disk, files: map<Ref, seq<nat>>, used: set<nat>, q: Ref, r: Ref, ch: seq<nat>)
    requires Found(g, d, files, used) && r.Entry? && EntryOk(g, d, r, ch)
    requires q in files && DirectoryRef(g, d, q) && Shown(g, d, Slots(g, files[q]), r)
    requires ch != [] ==> IsChain(g, Fat(g, d), ch) && |ch| <= 65536
    requires forall c :: c in ch ==> c !in used
    ensures Found(g, d, files[r := ch], used + Elements(ch)) && Grows(files, files[r := ch])
  {
    hide EntryBytes, FileSize, FirstCluster, LiveEntry, IsDirectory, IsChain, HasEntry, Housed, Shown, Slots, DirectoryRef;
    var f1 := files[r := ch];
    if r in files {
      SameObject(g, d, files, r, ch);
      assert f1 == files;
      assert Elements(ch) == {};
    }
    AddedOwned(files, r, ch);
    AddedHoused(g, d, files, q, r, ch);
    if ch != [] {
      ChainUsed(g, Fat(g, d), ch);
    }
  }

  /** A chain that starts where an owned one does is not disjoint from it. */
  lemma SameObject(g: Geometry, d: Disk, files: map<Ref, seq<nat>>, r: Ref, ch: seq<nat>)
    requires Consistent(g, d, files) && r in files && r.Entry? && EntryOk(g, d, r, ch)
    requires ch != [] ==> IsChain(g, Fat(g, d), ch)
    requires forall c :: c in ch ==> c !in Owned(files)
    ensures files[r] == ch == []
  {
    hide EntryBytes, FileSize, FirstCluster, LiveEntry, IsDirectory, HasEntry, Housed;
    if ch != [] {
      InChain(g, Fat(g, d), ch, 0);
      if files[r] != [] {
        OwnedFirst(files, r);
        assert false;
      }
      assert false;
    }
    if files[r] != [] {
      assert false;
    }
  }

  lemma OwnedFirst(files: map<Ref, seq<nat>>, r: Ref)
    requires r in files && files[r] != []
    ensures files[r][0] in Owned(files)
  {
    assert files[r][0] in files[r];
  }

  lemma AddedOwned(files: map<Ref, seq<nat>>, r: Ref, ch: seq<nat>)
    requires Disjoint(files) && (forall c :: c in ch ==> c !in Owned(files)) && (r in files ==> files[r] == ch)
    ensures Owned(files[r := ch]) == Owned(files) + Elements(ch) && Disjoint(files[r := ch])
  {
    var f1 := files[r := ch];
    forall c | c in Owned(f1)
      ensures c in Owned(files) + Elements(ch)
    {
    }
    forall c | c in Owned(files) + Elements(ch)
      ensures c in Owned(f1)
    {
      if c in Elements(ch) {
        assert c in f1[r];
      } else {
        var p :| p in files && c in files[p];
        assert p in f1 && c in f1[p];
      }
    }
    forall p, q, c | p in f1 && q in f1 && p != q && c in f1[p]
      ensures c !in f1[q]
    {
      assert p != r ==> c in Owned(files);
      assert q != r && c in f1[q] ==> c in Owned(files);
    }
  }

  lemma AddedHoused(g: Geometry, d: Disk, files: map<Ref, seq<nat>>, q: Ref, r: Ref, ch: seq<nat>)
    requires q in files && DirectoryRef(g, d, q) && Shown(g, d, Slots(g, files[q]), r)
    requires r in files ==> files[r] == ch
    requires forall p :: p in files && p.Entry? ==> Housed(g, d, files, p)
    ensures forall p :: p in files[r := ch] && p.Entry? ==> Housed(g, d, files[r := ch], p)
  {
    hide DirectoryRef, Shown, Slots;
    var f1 := files[r := ch];
    forall p | p in f1 && p.Entry?
      ensures Housed(g, d, f1, p)
    {
      if p == r {
        assert q in f1 && DirectoryRef(g, d, q) && f1[q] == files[q];
      } else {
        var home :| home in files && DirectoryRef(g, d, home) && Shown(g, d, Slots(g, files[home]), p);
        assert home in f1 && DirectoryRef(g, d, home) && f1[home] == files[home];
      }
    }
  }

  lemma ChainUsed(g: Geometry, fat: seq<Cell>, ch: seq<nat>)
    requires ValidGeometry(g) && IsChain(g, fat, ch)
    ensures forall c :: c in ch ==> InRange(g, c) && fat[c].value != 0
  {
    forall c | c in ch
      ensures InRange(g, c) && fat[c].value != 0
    {
      var i :| 0 <= i < |ch| && ch[i] == c;
      if i < |ch| - 1 {
        assert fat[ch[i]].value == ch[i + 1];
      }
    }
  }

  /** A partial walk: linked up to the cluster that comes next. */
  ghost predicate IsPath(g: Geometry, fat: seq<Cell>, ch: seq<nat>, next: nat) {
    && |fat| == Limit(g) && (forall i :: 0 <= i < |ch| ==> InRange(g, ch[i]))
    && (forall i :: 0 <= i < |ch| - 1 ==> fat[ch[i]].value == ch[i + 1])
    && (ch != [] ==> fat[ch[|ch| - 1]].value == next)
  }

  lemma EmptyPath(g: Geometry, fat: seq<Cell>, c: nat)
    requires |fat| == Limit(g)
    ensures IsPath(g, fat, [], c)
  {
  }

  lemma PathStep(g: Geometry, fat: seq<Cell>, ch: seq<nat>, c: nat)
    requires IsPath(g, fat, ch, c) && InRange(g, c)
    ensures IsPath(g, fat, ch + [c], fat[c].value)
    ensures IsEnd(g, fat[c].value) ==> IsChain(g, fat, ch + [c])
  {
    var l := ch + [c];
    forall i | 0 <= i < |l| - 1
      ensures fat[l[i]].value == l[i + 1]
    {
      assert l[i] == ch[i];
    }
  }

  /** Every directory found is queued, under its first cluster. */
  ghost predicate Queued(g: Geometry, d: Disk, files: map<Ref, seq<nat>>, refs: seq<Ref>, dirs: seq<nat>) {
    && |dirs| == |refs|
    && (forall i :: 0 <= i < |refs| ==>
          && refs[i] in files && DirectoryRef(g, d, refs[i])
          && dirs[i] == if files[refs[i]] == [] then 0 else files[refs[i]][0])
    && (forall q :: q in files && DirectoryRef(g, d, q) ==> q in refs)
  }

  lemma QueuedMore(g: Geometry, d: Disk, files: map<Ref, seq<nat>>, refs: seq<Ref>, dirs: seq<nat>, r: Ref, ch: seq<nat>)
    requires Queued(g, d, files, refs, dirs) && Grows(files, files[r := ch]) && r.Entry? && HasEntry(g, d, r)
    ensures !IsDirectory(EntryBytes(g, d, r)) ==> Queued(g, d, files[r := ch], refs, dirs)
    ensures IsDirectory(EntryBytes(g, d, r)) ==>
      Queued(g, d, files[r := ch], refs + [r], dirs + [if ch == [] then 0 else ch[0]])
  {
    hide IsDirectory, EntryBytes, HasEntry;
    var f1 := files[r := ch];
    assert forall i :: 0 <= i < |refs| ==> f1[refs[i]] == files[refs[i]];
    assert forall x :: x in refs ==> x in refs + [r];
  }

  lemma MarkedOk(g: Geometry, d: Disk, r: Ref, ch: seq<nat>)
    requires HasEntry(g, d, r) && LiveEntry(EntryBytes(g, d, r))
    requires var e := EntryBytes(g, d, r);
      if FirstCluster(g, e) == 0 then ch == [] && FileSize(e) == 0 && !IsDirectory(e)
      else ch != [] && ch[0] == FirstCluster(g, e) && FileSize(e) <= |ch| * ClusterSize(g)
    ensures EntryOk(g, d, r, ch)
  {
  }

  lemma FoundFacts(g: Geometry, d: Disk, files: map<Ref, seq<nat>>, used: set<nat>)
    requires Found(g, d, files, used)
    ensures Consistent(g, d, files) && used == Owned(files)
    ensures forall c :: c in used ==> InRange(g, c) && Fat(g, d)[c].value != 0
  {
  }

  lemma SeenOne(g: Geometry, d: Disk, skip: Ref -> bool, files: map<Ref, seq<nat>>, r: Ref)
    requires !EndMark(g, d, r) && (Names(g, d, skip, r) ==> r in files)
    ensures Seen(g, d, skip, files, [r])
  {
    hide EndMark, Names;
  }

  lemma SectorHolds(g: Geometry, d: Disk, a: Addr)
    requires ValidDisk(g, d)
    ensures forall i :: 0 <= i < g.sector / 32 ==> HasEntry(g, d, Entry(a, 32 * i))
  {
    assert |SectorBytes(g, d, a)| == g.sector;
  }

  /** What the walk has passed is no end mark. */
  lemma SeenShown(g: Geometry, d: Disk, skip: Ref -> bool, files: map<Ref, seq<nat>>, seen: seq<Ref>, slots: seq<Ref>, r: Ref)
    requires Seen(g, d, skip, files, seen) && seen + [r] <= slots && !EndMark(g, d, r)
    ensures Shown(g, d, slots, r)
  {
    hide EndMark, Names;
    var i := |seen|;
    assert (seen + [r])[i] == r && slots[i] == r;
    assert forall j :: 0 <= j < i ==> slots[j] == seen[j];
    assert Open(g, d, slots, i + 1);
  }

  lemma RootPrefix(g: Geometry, seen: seq<Ref>)
    requires seen <= RootSlots(g, RootSectors(g)) && |seen| <= g.rootEntries
    ensures seen <= Slots(g, [])
  {
    hide RootSlots, RootSectors;
  }

  lemma SeenNone(g: Geometry, d: Disk, skip: Ref -> bool, files: map<Ref, seq<nat>>)
    ensures Seen(g, d, skip, files, [])
  {
  }

  lemma ListedBy(g: Geometry, d: Disk, skip: Ref -> bool, files: map<Ref, seq<nat>>, seen: seq<Ref>, slots: seq<Ref>)
    requires seen <= slots && (|seen| == |slots| || EndMark(g, d, slots[|seen|])) && Seen(g, d, skip, files, seen)
    ensures Listed(g, d, skip, files, slots)
  {
    hide Seen, EndMark;
    assert slots[..|seen|] == seen;
  }

  lemma DirectoryChain(g: Geometry, d: Disk, files: map<Ref, seq<nat>>, used: set<nat>, q: Ref)
    requires Found(g, d, files, used) && q in files && files[q] != []
    ensures IsChain(g, Fat(g, d), files[q]) && |files[q]| <= 65536
  {
    hide IsChain;
  }

  lemma StartFound(g: Geometry, d: Disk, ch: seq<nat>)
    requires ValidGeometry(g) && ValidDisk(g, d)
    requires if g.wide then ch != [] && ch[0] == g.rootCluster && IsChain(g, Fat(g, d), ch) && |ch| <= 65536 else ch == []
    ensures Found(g, d, map[RootDir := ch], Elements(ch))
    ensures Queued(g, d, map[RootDir := ch], [RootDir], [g.rootCluster])
  {
    hide IsChain;
    var files := map[RootDir := ch];
    assert Owned(files) == Elements(ch) by {
      assert forall c :: c in ch ==> c in files[RootDir];
    }
    if ch != [] {
      ChainUsed(g, Fat(g, d), ch);
    }
  }

  lemma QueuedLength(g: Geometry, d: Disk, files: map<Ref, seq<nat>>, refs: seq<Ref>, dirs: seq<nat>)
    requires Queued(g, d, files, refs, dirs)
    ensures |dirs| == |refs|
  {
  }

  lemma QueuedAt(g: Geometry, d: Disk, files: map<Ref, seq<nat>>, refs: seq<Ref>, dirs: seq<nat>, i: nat)
    requires Queued(g, d, files, refs, dirs) && i < |dirs|
    ensures |dirs| == |refs| && refs[i] in files && DirectoryRef(g, d, refs[i])
    ensures dirs[i] == if files[refs[i]] == [] then 0 else files[refs[i]][0]
  {
  }

  lemma FirstIsNoZero(g: Geometry, d: Disk, files: map<Ref, seq<nat>>, used: set<nat>, q: Ref)
    requires Found(g, d, files, used) && q in files && files[q] != []
    ensures files[q][0] != 0
  {
    InChain(g, Fat(g, d), files[q], 0);
  }

  /** A chain from first that holds size bytes and meets nothing used. */
  ghost predicate Markable(g: Geometry, d: Disk, used: set<nat>, first: nat, size: nat, ch: seq<nat>)
    requires g.active < |d.fat|
  {
    && ch != [] && IsChain(g, Fat(g, d), ch) && |ch| <= 65536 && ch[0] == first && size <= |ch| * ClusterSize(g)
    && forall c :: c in ch ==> c !in used
  }

  lemma NoneMarkable(g: Geometry, d: Disk, used: set<nat>, first: nat, size: nat)
    requires g.active < |d.fat|
    ensures first == 0 ==> forall ch :: !Markable(g, d, used, first, size, ch)
  {
    hide ClusterSize;
  }

  /** A walk along a table follows any chain from the same start. */
  lemma {:induction false} SamePrefix(g: Geometry, fat: seq<Cell>, ch: seq<nat>, c: nat, l: seq<nat>, k: nat)
    requires ValidGeometry(g) && IsPath(g, fat, ch, c) && IsChain(g, fat, l) && (if ch == [] then c == l[0] else ch[0] == l[0])
    requires forall i :: 0 <= i < |ch| ==> !IsEnd(g, fat[ch[i]].value)
    requires k <= |ch|
    ensures k < |l| && forall i :: 0 <= i < k ==> ch[i] == l[i]
    ensures (if k < |ch| then ch[k] else c) == l[k]
  {
    if k > 0 {
      SamePrefix(g, fat, ch, c, l, k - 1);
      assert fat[ch[k - 1]].value == if k < |ch| then ch[k] else c;
    }
  }

  lemma PathFollows(g: Geometry, d: Disk, used: set<nat>, first: nat, size: nat, ch: seq<nat>, c: nat, l: seq<nat>)
    requires ValidGeometry(g) && ValidDisk(g, d) && IsPath(g, Fat(g, d), ch, c) && (if ch == [] then c == first else ch[0] == first)
    requires forall i :: 0 <= i < |ch| ==> !IsEnd(g, Fat(g, d)[ch[i]].value)
    requires Markable(g, d, used, first, size, l)
    ensures InRange(g, c) && |ch| < 65536 && c !in used && c !in Elements(ch)
  {
    hide ClusterSize, IsPath;
    SamePrefix(g, Fat(g, d), ch, c, l, |ch|);
    assert l[|ch|] in l;
    if c in Elements(ch) {
      var i :| 0 <= i < |ch| && ch[i] == c;
      ChainDistinct(g, Fat(g, d), l, i, |ch|);
    }
  }

  lemma MarkableIs(g: Geometry, d: Disk, used: set<nat>, first: nat, size: nat, l: seq<nat>, ch: seq<nat>)
    requires ValidGeometry(g) && ValidDisk(g, d) && ch != [] && IsChain(g, Fat(g, d), ch) && ch[0] == first
    requires Markable(g, d, used, first, size, l)
    ensures l == ch && size <= |ch| * ClusterSize(g)
  {
    hide ClusterSize;
    ChainsAgree(g, Fat(g, d), ch, l, if |ch| <= |l| then |ch| else |l|);
    if |ch| < |l| {
      LinkIsNoEnd(g, Fat(g, d), l, |ch| - 1);
    } else if |l| < |ch| {
      LinkIsNoEnd(g, Fat(g, d), ch, |l| - 1);
    }
  }

  lemma {:induction false} ChainsAgree(g: Geometry, fat: seq<Cell>, a: seq<nat>, b: seq<nat>, k: nat)
    requires IsChain(g, fat, a) && IsChain(g, fat, b) && a[0] == b[0] && k <= |a| && k <= |b|
    ensures forall i :: 0 <= i < k ==> a[i] == b[i]
  {
    if k > 1 {
      ChainsAgree(g, fat, a, b, k - 1);
      assert fat[a[k - 2]].value == a[k - 1] && fat[b[k - 2]].value == b[k - 1];
    }
  }
}
