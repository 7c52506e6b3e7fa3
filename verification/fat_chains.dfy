/**
 Cluster chains: what the allocation table must look like for every object on
 the volume to own its clusters, and why reading an object depends on nothing
 but its own directory entry, its own FAT cells and its own clusters.
 */
module FatChains {
  import opened Basics
  import opened FatDisk
  import opened FatSlots

  /** ch is linked by the table from its first cluster to an end mark. */
  ghost predicate IsChain(g: Geometry, fat: seq<Cell>, ch: seq<nat>) {
    && |fat| == Limit(g) && |ch| > 0
    && (forall i :: 0 <= i < |ch| ==> InRange(g, ch[i]))
    && (forall i :: 0 <= i < |ch| - 1 ==> fat[ch[i]].value == ch[i + 1])
    && IsEnd(g, fat[ch[|ch| - 1]].value)
  }

  lemma LinkIsNoEnd(g: Geometry, fat: seq<Cell>, ch: seq<nat>, i: nat)
    requires ValidGeometry(g) && IsChain(g, fat, ch) && i < |ch| - 1
    ensures fat[ch[i]].value == ch[i + 1] && !IsEnd(g, fat[ch[i]].value)
  {
    assert InRange(g, ch[i + 1]);
  }

  /** A chain never visits a cluster twice. */
  lemma {:induction false} ChainDistinct(g: Geometry, fat: seq<Cell>, ch: seq<nat>, i: nat, j: nat)
    requires ValidGeometry(g) && IsChain(g, fat, ch) && i < j < |ch|
    ensures ch[i] != ch[j]
    decreases |ch| - j
  {
    if ch[i] == ch[j] {
      if j == |ch| - 1 {
        LinkIsNoEnd(g, fat, ch, i);
        assert false;
      } else {
        assert ch[i + 1] == fat[ch[i]].value == fat[ch[j]].value == ch[j + 1];
        ChainDistinct(g, fat, ch, i + 1, j + 1);
      }
    }
  }

  function Numbers(lo: nat, hi: nat): (r: set<nat>)
    ensures forall c :: c in r <==> lo <= c < hi
    decreases hi
  {
    if lo >= hi then {} else Numbers(lo, hi - 1) + {hi - 1}
  }

  lemma {:induction false} NumbersCount(lo: nat, hi: nat)
    requires lo <= hi
    ensures |Numbers(lo, hi)| == hi - lo
    decreases hi - lo
  {
    if lo < hi {
      NumbersCount(lo, hi - 1);
    }
  }

  lemma SubsetCount(a: set<nat>, b: set<nat>)
    requires a <= b
    ensures |a| <= |b|
  {
    assert b == a + (b - a);
  }

  function Elements(ch: seq<nat>): set<nat> { set c | c in ch }

  lemma {:induction false} DistinctCount(ch: seq<nat>)
    requires forall i, j :: 0 <= i < j < |ch| ==> ch[i] != ch[j]
    ensures |Elements(ch)| == |ch|
  {
    if ch == [] {
      assert Elements(ch) == {};
    } else {
      var n := |ch| - 1;
      DistinctCount(ch[..n]);
      assert ch == ch[..n] + [ch[n]];
      assert Elements(ch) == Elements(ch[..n]) + {ch[n]};
      assert ch[n] !in Elements(ch[..n]);
    }
  }

  /** Hence the bound of cluster_count steps in fat_read never cuts a chain short. */
  lemma ChainLength(g: Geometry, fat: seq<Cell>, ch: seq<nat>)
    requires ValidGeometry(g) && IsChain(g, fat, ch)
    ensures |ch| <= g.clusters
  {
    forall i, j | 0 <= i < j < |ch|
      ensures ch[i] != ch[j]
    {
      ChainDistinct(g, fat, ch, i, j);
    }
    DistinctCount(ch);
    assert Elements(ch) <= Numbers(2, Limit(g));
    SubsetCount(Elements(ch), Numbers(2, Limit(g)));
    NumbersCount(2, Limit(g));
  }

  lemma {:induction false} ClusterPartLength(g: Geometry, d: Disk, c: nat, n: nat)
    requires ValidDisk(g, d)
    ensures |ClusterPart(g, d, c, n)| == n * g.sector
  {
    if n > 0 {
      ClusterPartLength(g, d, c, n - 1);
    }
  }

  function ClusterSize(g: Geometry): nat { g.spc * g.sector }

  lemma {:induction false} ChainBytesLength(g: Geometry, d: Disk, ch: seq<nat>)
    requires ValidDisk(g, d)
    ensures |ChainBytes(g, d, ch)| == |ch| * ClusterSize(g)
  {
    if ch != [] {
      ClusterPartLength(g, d, ch[0], g.spc);
      ChainBytesLength(g, d, ch[1..]);
      assert |ch| * ClusterSize(g) == ClusterSize(g) + (|ch| - 1) * ClusterSize(g);
    }
  }

  lemma NextInChain(g: Geometry, d: Disk, ch: seq<nat>, i: nat)
    requires ValidGeometry(g) && ValidDisk(g, d) && IsChain(g, Fat(g, d), ch) && i + 1 < |ch|
    ensures Next(g, d, ch[i]) == Some(ch[i + 1]) && ch[i + 1] != END
  {
    EndMeansOut(g, ch[i + 1]);
    assert Fat(g, d)[ch[i]].value == ch[i + 1];
  }

  lemma ChainBounds(g: Geometry, d: Disk, ch: seq<nat>, k: nat)
    requires ValidGeometry(g) && ValidDisk(g, d) && IsChain(g, Fat(g, d), ch) && k < |ch|
    ensures InRange(g, ch[k]) && k + 1 <= g.clusters
  {
    ChainLength(g, Fat(g, d), ch);
  }

  /** The cycle check of fat_directory: a second walk at half the speed. It never stops a walk along a chain. */
  method Chase(g: Geometry, d: Disk, tortoise: nat, next: nat, visited: nat, ghost ch: seq<nat>, ghost k: nat, ghost t: nat)
    returns (ok: bool, slow: nat, ghost u: nat)
    requires ValidGeometry(g) && ValidDisk(g, d) && IsChain(g, Fat(g, d), ch) && k + 1 < |ch| && next == ch[k + 1]
    requires visited == k + 1 && 2 * t <= k && tortoise == ch[t]
    ensures ok && 2 * u <= k + 1 && slow == ch[u]
  {
    assert g.active < |d.fat|;
    hide IsChain, ValidGeometry, Next;
    slow, u := tortoise, t;
    if visited % 2 == 0 {
      NextInChain(g, d, ch, t);
      var step := Next(g, d, slow);
      if step.None? || step.value == END {
        assert false;
      }
      slow, u := step.value, t + 1;
    }
    ChainDistinct(g, Fat(g, d), ch, u, k + 1);
    ok := next != slow;
  }

  /** One step of fat_directory along a chain, with the check: END behind the last cluster. */
  method Follow(g: Geometry, d: Disk, c: nat, tortoise: nat, visited: nat, ghost ch: seq<nat>, ghost k: nat, ghost t: nat)
    returns (ok: bool, next: nat, slow: nat, ghost u: nat)
    requires ValidGeometry(g) && ValidDisk(g, d) && IsChain(g, Fat(g, d), ch) && k < |ch| && c == ch[k]
    requires visited == k + 1 && 2 * t <= k && tortoise == ch[t]
    ensures ok && (next == END <==> k + 1 == |ch|)
    ensures k + 1 < |ch| ==> next == ch[k + 1] && 2 * u <= k + 1 && slow == ch[u]
  {
    assert g.active < |d.fat|;
    slow, u := tortoise, t;
    LastIsEnd(g, d, ch, k);
    hide IsChain, ValidGeometry, Next;
    var n := Next(g, d, c);
    if n.None? {
      assert false;
    }
    ok, next := true, n.value;
    if next != END {
      ok, slow, u := Chase(g, d, tortoise, next, visited, ch, k, t);
    }
  }

  lemma LastIsEnd(g: Geometry, d: Disk, ch: seq<nat>, k: nat)
    requires ValidGeometry(g) && ValidDisk(g, d) && IsChain(g, Fat(g, d), ch) && k < |ch|
    ensures g.active < |d.fat| && Next(g, d, ch[k]).Some? && (Next(g, d, ch[k]).value == END <==> k + 1 == |ch|)
    ensures k + 1 < |ch| ==> Next(g, d, ch[k]).value == ch[k + 1]
  {
    if k + 1 < |ch| {
      NextInChain(g, d, ch, k);
    }
  }

  lemma ChainFrom(g: Geometry, d: Disk, ch: seq<nat>, i: nat)
    requires i < |ch|
    ensures ChainBytes(g, d, ch[i..]) == ClusterBytes(g, d, ch[i]) + ChainBytes(g, d, ch[i + 1..])
    ensures i + 1 == |ch| ==> ChainBytes(g, d, ch[i + 1..]) == []
  {
    hide ClusterBytes;
    assert ch[i..][0] == ch[i] && ch[i..][1..] == ch[i + 1..];
    assert i + 1 == |ch| ==> ch[i + 1..] == [];
  }

  /** Following a chain collects its bytes: the tortoise is always behind and never stops the walk. */
  lemma {:induction false} CollectChain(g: Geometry, d: Disk, ch: seq<nat>, i: nat, need: nat)
    requires ValidGeometry(g) && ValidDisk(g, d) && IsChain(g, Fat(g, d), ch)
    requires i < |ch| <= 65536 && need <= |ChainBytes(g, d, ch[i..])|
    ensures Collect(g, d, ch[i], ch[i / 2], need, i) == Some(ChainBytes(g, d, ch[i..])[..need])
    decreases |ch| - i
  {
    hide ClusterBytes, Next, IsChain, ChainBytes;
    ChainLength(g, Fat(g, d), ch);
    var b := ClusterBytes(g, d, ch[i]);
    var rest := ChainBytes(g, d, ch[i + 1..]);
    ChainFrom(g, d, ch, i);
    InChain(g, Fat(g, d), ch, i);
    if need <= |b| {
      assert (b + rest)[..need] == b[..need];
    } else {
      if i + 1 == |ch| {
        assert false;
      }
      NextInChain(g, d, ch, i);
      NextInChain(g, d, ch, i / 2);
      ChainDistinct(g, Fat(g, d), ch, (i + 1) / 2, i + 1);
      Halves(i);
      CollectChain(g, d, ch, i + 1, need - |b|);
      assert (b + rest)[..need] == b + rest[..need - |b|];
    }
  }

  lemma Halves(i: nat)
    ensures (i + 1) / 2 == if i % 2 == 1 then i / 2 + 1 else i / 2
  {
  }

  lemma InChain(g: Geometry, fat: seq<Cell>, ch: seq<nat>, i: nat)
    requires IsChain(g, fat, ch) && i < |ch|
    ensures InRange(g, ch[i])
  {
  }

  lemma EndMeansOut(g: Geometry, v: nat)
    requires ValidGeometry(g) && InRange(g, v)
    ensures !IsEnd(g, v) && v != 0 && v != Bad(g)
  {
  }

  /** Two disks hold the same cells and the same data for every cluster of a set. */
  ghost predicate SameOn(g: Geometry, d: Disk, d': Disk, cs: set<nat>) {
    && ValidDisk(g, d) && ValidDisk(g, d') && g.active < g.copies
    && (forall c :: c in cs && c < Limit(g) ==> Fat(g, d')[c].value == Fat(g, d)[c].value)
    && (forall c, i :: c in cs ==> SectorBytes(g, d', Data(c, i)) == SectorBytes(g, d, Data(c, i)))
  }

  lemma ChainSame(g: Geometry, d: Disk, d': Disk, ch: seq<nat>, cs: set<nat>)
    requires SameOn(g, d, d', cs) && IsChain(g, Fat(g, d), ch) && (forall c :: c in ch ==> c in cs)
    ensures IsChain(g, Fat(g, d'), ch)
  {
  }

  lemma {:induction false} SameParts(g: Geometry, d: Disk, d': Disk, c: nat, n: nat)
    requires forall i :: 0 <= i < n ==> SectorBytes(g, d', Data(c, i)) == SectorBytes(g, d, Data(c, i))
    ensures ClusterPart(g, d', c, n) == ClusterPart(g, d, c, n)
  {
    if n > 0 {
      SameParts(g, d, d', c, n - 1);
    }
  }

  /** The bytes of a chain depend on its own sectors only. */
  lemma {:induction false} ChainBytesSame(g: Geometry, d: Disk, d': Disk, ch: seq<nat>)
    requires forall c, i :: c in ch ==> SectorBytes(g, d', Data(c, i)) == SectorBytes(g, d, Data(c, i))
    ensures ChainBytes(g, d', ch) == ChainBytes(g, d, ch)
  {
    if ch != [] {
      SameParts(g, d, d', ch[0], g.spc);
      ChainBytesSame(g, d, d', ch[1..]);
    }
  }

  lemma {:induction false} ChainBytesJoin(g: Geometry, d: Disk, ch: seq<nat>, c: nat)
    ensures ChainBytes(g, d, ch + [c]) == ChainBytes(g, d, ch) + ClusterBytes(g, d, c)
  {
    hide ClusterBytes;
    if ch == [] {
      assert ch + [c] == [c] && [c][1..] == [];
      assert ChainBytes(g, d, [c]) == ClusterBytes(g, d, c) + ChainBytes(g, d, []);
    } else {
      assert (ch + [c])[1..] == ch[1..] + [c];
      ChainBytesJoin(g, d, ch[1..], c);
    }
  }

  /** A cluster marked as the end and linked behind the last one extends a chain. */
  lemma ChainExtends(g: Geometry, fat: seq<Cell>, fat': seq<Cell>, ch: seq<nat>, c: nat)
    requires ValidGeometry(g) && IsChain(g, fat, ch) && InRange(g, c) && c !in ch && |fat'| == |fat|
    requires fat'[ch[|ch| - 1]].value == c && IsEnd(g, fat'[c].value)
    requires forall x :: x in ch && x != ch[|ch| - 1] ==> fat'[x].value == fat[x].value
    ensures IsChain(g, fat', ch + [c])
  {
    var l := ch + [c];
    forall i | 0 <= i < |l| - 1
      ensures fat'[l[i]].value == l[i + 1]
    {
      if i < |ch| - 1 {
        ChainDistinct(g, fat, ch, i, |ch| - 1);
        assert fat[ch[i]].value == ch[i + 1];
      }
    }
  }

  // ---------------------------------------------------------------- objects on a volume

  /** Clusters owned by some object. */
  function Owned(files: map<Ref, seq<nat>>): set<nat> { set r, c | r in files && c in files[r] :: c }

  ghost predicate Disjoint(files: map<Ref, seq<nat>>) {
    forall r, q, c :: r in files && q in files && r != q && c in files[r] ==> c !in files[q]
  }

  /** The directory entry of an object names the start of its chain and no more bytes than it holds. */
  ghost predicate EntryOk(g: Geometry, d: Disk, r: Ref, ch: seq<nat>) {
    && HasEntry(g, d, r)
    && (var e := EntryBytes(g, d, r);
        && LiveEntry(e) && FileSize(e) <= |ch| * ClusterSize(g)
        && (if ch == [] then FirstCluster(g, e) == 0 && !IsDirectory(e) else FirstCluster(g, e) == ch[0]))
  }

  ghost predicate DirectoryRef(g: Geometry, d: Disk, r: Ref) {
    r.RootDir? || (HasEntry(g, d, r) && IsDirectory(EntryBytes(g, d, r)))
  }

  /** A place in the fixed root area or in a cluster of a directory. */
  ghost predicate InDirectory(g: Geometry, d: Disk, files: map<Ref, seq<nat>>, r: Ref) {
    r.Entry? &&
    (r.addr.Root? || (r.addr.Data? && exists q :: q in files && DirectoryRef(g, d, q) && r.addr.cluster in files[q]))
  }

  /** Listing some directory comes to the entry before it comes to an end mark. */
  ghost predicate Housed(g: Geometry, d: Disk, files: map<Ref, seq<nat>>, r: Ref) {
    exists q :: q in files && DirectoryRef(g, d, q) && Shown(g, d, Slots(g, files[q]), r)
  }

  lemma HousedPlace(g: Geometry, d: Disk, files: map<Ref, seq<nat>>, r: Ref)
    requires Housed(g, d, files, r)
    ensures InDirectory(g, d, files, r)
  {
    hide Slots, Shown, DirectoryRef;
    var q :| q in files && DirectoryRef(g, d, q) && Shown(g, d, Slots(g, files[q]), r);
    ShownIn(g, d, Slots(g, files[q]), r);
    SlotHome(g, files[q], r);
  }

  /** Every object has its own chain and its own entry. */
  ghost predicate Consistent(g: Geometry, d: Disk, files: map<Ref, seq<nat>>) {
    && ValidGeometry(g) && ValidDisk(g, d) && Disjoint(files)
    && (forall r :: r in files && files[r] != [] ==> IsChain(g, Fat(g, d), files[r]) && |files[r]| <= 65536)
    && (forall r :: r in files && r.Entry? ==> EntryOk(g, d, r, files[r]) && Housed(g, d, files, r))
  }

  /** No cell in use is unaccounted for. */
  ghost predicate NothingLost(g: Geometry, fat: seq<Cell>, files: map<Ref, seq<nat>>) {
    |fat| == Limit(g) &&
    forall c: nat :: InRange(g, c) && fat[c].value != 0 ==> fat[c].value == Bad(g) || c in Owned(files)
  }

  /** Reading an object gives the bytes of its chain up to its size. */
  lemma ReadObject(g: Geometry, d: Disk, r: Ref, ch: seq<nat>)
    requires ValidGeometry(g) && ValidDisk(g, d) && EntryOk(g, d, r, ch)
    requires ch != [] ==> IsChain(g, Fat(g, d), ch) && |ch| <= 65536
    ensures FileSize(EntryBytes(g, d, r)) <= |ChainBytes(g, d, ch)|
    ensures ReadFile(g, d, r) == Some(ChainBytes(g, d, ch)[..FileSize(EntryBytes(g, d, r))])
  {
    hide ChainBytes, Collect, FirstCluster, FileSize, LiveEntry, IsDirectory;
    var e := EntryBytes(g, d, r);
    ChainBytesLength(g, d, ch);
    if FileSize(e) > 0 {
      assert ch[0..] == ch;
      CollectChain(g, d, ch, 0, FileSize(e));
    }
  }
}
