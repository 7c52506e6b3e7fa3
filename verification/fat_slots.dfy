/**
 The entry places of a directory in the order in which the driver walks them,
 and what it means that an object is listed: its entry comes before the end mark.
 */
module FatSlots {
  import opened Basics
  import opened FatDisk

  /** The entry places of a sector, of a cluster, of a chain and of the fixed root area, in order. */
  function SectorSlots(g: Geometry, a: Addr, n: nat): seq<Ref> { seq(n, i requires 0 <= i < n => Entry(a, 32 * i)) }

  function ClusterSlots(g: Geometry, c: nat, n: nat): seq<Ref> {
    if n == 0 then [] else ClusterSlots(g, c, n - 1) + SectorSlots(g, Data(c, n - 1), g.sector / 32)
  }

  function ChainSlots(g: Geometry, ch: seq<nat>): seq<Ref> {
    if ch == [] then [] else ChainSlots(g, ch[..|ch| - 1]) + ClusterSlots(g, ch[|ch| - 1], g.spc)
  }

  function RootSlots(g: Geometry, n: nat): seq<Ref> {
    if n == 0 then [] else RootSlots(g, n - 1) + SectorSlots(g, Root(n - 1), g.sector / 32)
  }

  function RootSectors(g: Geometry): nat { if g.sector == 0 then 0 else (g.rootEntries * 32 + g.sector - 1) / g.sector }

  function Slots(g: Geometry, ch: seq<nat>): seq<Ref> {
    if ch != [] then ChainSlots(g, ch)
    else
      var all := RootSlots(g, RootSectors(g));
      if g.rootEntries <= |all| then all[..g.rootEntries] else all
  }

  ghost predicate EndMark(g: Geometry, d: Disk, r: Ref) { HasEntry(g, d, r) && EntryBytes(g, d, r)[0] == 0 }

  /** None of the first n places is an end mark. */
  ghost predicate Open(g: Geometry, d: Disk, slots: seq<Ref>, n: nat) {
    n <= |slots| && forall j :: 0 <= j < n ==> !EndMark(g, d, slots[j])
  }

  /** The place is one that a walk comes to before an end mark. */
  ghost predicate Shown(g: Geometry, d: Disk, slots: seq<Ref>, r: Ref) {
    exists i :: 0 <= i < |slots| && slots[i] == r && Open(g, d, slots, i + 1)
  }

  // ---------------------------------------------------------------- growing walks

  lemma {:induction false} ClusterSlotsGrow(g: Geometry, c: nat, n: nat, m: nat)
    requires n <= m
    ensures ClusterSlots(g, c, n) <= ClusterSlots(g, c, m)
    decreases m
  {
    hide SectorSlots;
    if n < m {
      ClusterSlotsGrow(g, c, n, m - 1);
    }
  }

  lemma {:induction false} RootSlotsGrow(g: Geometry, n: nat, m: nat)
    requires n <= m
    ensures RootSlots(g, n) <= RootSlots(g, m)
    decreases m
  {
    hide SectorSlots;
    if n < m {
      RootSlotsGrow(g, n, m - 1);
    }
  }

  lemma {:induction false} ChainSlotsGrow(g: Geometry, ch: seq<nat>, k: nat)
    requires k <= |ch|
    ensures ChainSlots(g, ch[..k]) <= ChainSlots(g, ch)
    decreases |ch|
  {
    hide ClusterSlots;
    if k < |ch| {
      ChainSlotsGrow(g, ch[..|ch| - 1], k);
      assert ch[..|ch| - 1][..k] == ch[..k];
    } else {
      assert ch[..k] == ch;
    }
  }

  lemma ChainSlotsAre(g: Geometry, ch: seq<nat>)
    requires ch != []
    ensures Slots(g, ch) == ChainSlots(g, ch) && ch[..|ch|] == ch
  {
  }

  lemma NoSlots(g: Geometry, ch: seq<nat>)
    ensures ChainSlots(g, ch[..0]) == []
  {
  }

  lemma NextSlots(g: Geometry, ch: seq<nat>, k: nat)
    requires k < |ch|
    ensures ChainSlots(g, ch[..k + 1]) == ChainSlots(g, ch[..k]) + ClusterSlots(g, ch[k], g.spc)
  {
    hide ClusterSlots;
    assert ch[..k + 1][..k] == ch[..k];
  }

  lemma PrefixStep(before: seq<Ref>, all: seq<Ref>, i: nat)
    requires i < |all|
    ensures before + all[..i] + [all[i]] == before + all[..i + 1] <= before + all
  {
  }

  lemma SlotsLonger(g: Geometry, ch: seq<nat>, c: nat)
    requires ch != []
    ensures Slots(g, ch + [c]) == Slots(g, ch) + ClusterSlots(g, c, g.spc)
  {
    hide ClusterSlots;
    assert (ch + [c])[..|ch|] == ch;
  }

  // ---------------------------------------------------------------- where places are

  ghost predicate PlaceIn(g: Geometry, r: Ref, ch: seq<nat>) {
    r.Entry? && r.at % 32 == 0 && r.at + 32 <= g.sector && (if ch == [] then r.addr.Root? else r.addr.Data? && r.addr.cluster in ch)
  }

  lemma SectorPlaces(g: Geometry, a: Addr)
    ensures forall r :: r in SectorSlots(g, a, g.sector / 32) ==> r.Entry? && r.addr == a && r.at % 32 == 0 && r.at + 32 <= g.sector
  {
  }

  lemma {:induction false} ClusterPlaces(g: Geometry, c: nat, n: nat)
    ensures forall r :: r in ClusterSlots(g, c, n) ==>
      r.Entry? && r.addr.Data? && r.addr.cluster == c && r.addr.index < n && r.at % 32 == 0 && r.at + 32 <= g.sector
  {
    hide SectorSlots;
    if n > 0 {
      ClusterPlaces(g, c, n - 1);
      SectorPlaces(g, Data(c, n - 1));
    }
  }

  lemma {:induction false} ChainPlaces(g: Geometry, ch: seq<nat>)
    ensures forall r :: r in ChainSlots(g, ch) ==> ch != [] && PlaceIn(g, r, ch)
  {
    hide ClusterSlots;
    if ch != [] {
      var less, c := ch[..|ch| - 1], ch[|ch| - 1];
      ChainPlaces(g, less);
      ClusterPlaces(g, c, g.spc);
      forall r | r in ChainSlots(g, ch)
        ensures PlaceIn(g, r, ch)
      {
        assert r in ChainSlots(g, less) || r in ClusterSlots(g, c, g.spc);
        assert c in ch;
      }
    }
  }

  lemma {:induction false} RootPlaces(g: Geometry, n: nat)
    ensures forall r :: r in RootSlots(g, n) ==> PlaceIn(g, r, []) && r.addr.index < n
  {
    hide SectorSlots;
    if n > 0 {
      RootPlaces(g, n - 1);
      SectorPlaces(g, Root(n - 1));
    }
  }

  /** Every place of a directory is in its own clusters, or in the root area. */
  lemma SlotHome(g: Geometry, ch: seq<nat>, r: Ref)
    requires r in Slots(g, ch)
    ensures PlaceIn(g, r, ch)
  {
    hide ChainSlots, RootSlots, PlaceIn, RootSectors;
    ChainPlaces(g, ch);
    RootPlaces(g, RootSectors(g));
  }

  lemma SlotEntry(g: Geometry, d: Disk, ch: seq<nat>, r: Ref)
    requires ValidDisk(g, d) && r in Slots(g, ch)
    ensures HasEntry(g, d, r)
  {
    hide Slots;
    SlotHome(g, ch, r);
    assert |SectorBytes(g, d, r.addr)| == g.sector;
  }

  // ---------------------------------------------------------------- no place comes twice

  ghost predicate Distinct(s: seq<Ref>) { forall i, j :: 0 <= i < j < |s| ==> s[i] != s[j] }

  lemma DistinctJoin(a: seq<Ref>, b: seq<Ref>)
    requires Distinct(a) && Distinct(b) && forall x :: x in a ==> x !in b
    ensures Distinct(a + b)
  {
    var s := a + b;
    forall i, j | 0 <= i < j < |s|
      ensures s[i] != s[j]
    {
      if i < |a| <= j {
        assert s[i] in a && s[j] in b;
      }
    }
  }

  lemma SectorDistinct(g: Geometry, a: Addr, n: nat)
    ensures Distinct(SectorSlots(g, a, n))
  {
  }

  lemma {:induction false} ClusterDistinct(g: Geometry, c: nat, n: nat)
    ensures Distinct(ClusterSlots(g, c, n))
  {
    hide SectorSlots;
    if n > 0 {
      ClusterDistinct(g, c, n - 1);
      ClusterPlaces(g, c, n - 1);
      SectorPlaces(g, Data(c, n - 1));
      SectorDistinct(g, Data(c, n - 1), g.sector / 32);
      DistinctJoin(ClusterSlots(g, c, n - 1), SectorSlots(g, Data(c, n - 1), g.sector / 32));
    }
  }

  lemma {:induction false} RootDistinct(g: Geometry, n: nat)
    ensures Distinct(RootSlots(g, n))
  {
    hide SectorSlots;
    if n > 0 {
      RootDistinct(g, n - 1);
      RootPlaces(g, n - 1);
      SectorPlaces(g, Root(n - 1));
      SectorDistinct(g, Root(n - 1), g.sector / 32);
      DistinctJoin(RootSlots(g, n - 1), SectorSlots(g, Root(n - 1), g.sector / 32));
    }
  }

  lemma {:induction false} ChainPlacesDistinct(g: Geometry, ch: seq<nat>)
    requires forall i, j :: 0 <= i < j < |ch| ==> ch[i] != ch[j]
    ensures Distinct(ChainSlots(g, ch))
  {
    hide ClusterSlots, Distinct;
    if ch != [] {
      var less, c := ch[..|ch| - 1], ch[|ch| - 1];
      ChainPlacesDistinct(g, less);
      ClusterDistinct(g, c, g.spc);
      ChainPlaces(g, less);
      ClusterPlaces(g, c, g.spc);
      DistinctJoin(ChainSlots(g, less), ClusterSlots(g, c, g.spc));
    } else {
      assert Distinct([]) by { DistinctNone(); }
    }
  }

  lemma DistinctNone()
    ensures Distinct([])
  {
  }

  lemma SlotsDistinct(g: Geometry, ch: seq<nat>, i: nat, j: nat)
    requires forall x, y :: 0 <= x < y < |ch| ==> ch[x] != ch[y]
    requires i < |Slots(g, ch)| && j < |Slots(g, ch)| && Slots(g, ch)[i] == Slots(g, ch)[j]
    ensures i == j
  {
    hide ChainSlots, RootSlots, RootSectors;
    ChainPlacesDistinct(g, ch);
    RootDistinct(g, RootSectors(g));
  }

  // ---------------------------------------------------------------- sizes

  lemma {:induction false} ClusterCount(g: Geometry, c: nat, n: nat)
    requires g.sector >= 512
    ensures |ClusterSlots(g, c, n)| >= 16 * n
  {
    if n > 0 {
      ClusterCount(g, c, n - 1);
    }
  }

  lemma {:induction false} ChainCount(g: Geometry, ch: seq<nat>)
    requires g.sector >= 512 && g.spc > 0
    ensures |ChainSlots(g, ch)| >= 16 * |ch|
  {
    hide ClusterSlots;
    if ch != [] {
      ChainCount(g, ch[..|ch| - 1]);
      ClusterCount(g, ch[|ch| - 1], g.spc);
    }
  }

  lemma {:induction false} ClusterTotal(g: Geometry, c: nat, n: nat)
    ensures |ClusterSlots(g, c, n)| == n * (g.sector / 32)
  {
    if n > 0 {
      ClusterTotal(g, c, n - 1);
      assert |SectorSlots(g, Data(c, n - 1), g.sector / 32)| == g.sector / 32;
      assert n * (g.sector / 32) == (n - 1) * (g.sector / 32) + g.sector / 32;
    }
  }

  function PerCluster(g: Geometry): nat { g.spc * (g.sector / 32) }

  lemma {:induction false} ChainTotal(g: Geometry, ch: seq<nat>)
    ensures |ChainSlots(g, ch)| == |ch| * PerCluster(g)
  {
    hide ClusterSlots;
    if ch != [] {
      ChainTotal(g, ch[..|ch| - 1]);
      ClusterTotal(g, ch[|ch| - 1], g.spc);
      assert |ch| * PerCluster(g) == (|ch| - 1) * PerCluster(g) + PerCluster(g);
    }
  }

  // ---------------------------------------------------------------- what keeps objects listed

  /** No place of the walk becomes an end mark. */
  ghost predicate NoNewEnd(g: Geometry, d: Disk, d1: Disk, slots: seq<Ref>) {
    forall j :: 0 <= j < |slots| && EndMark(g, d1, slots[j]) ==> EndMark(g, d, slots[j])
  }

  lemma OpenStays(g: Geometry, d: Disk, d1: Disk, slots: seq<Ref>, n: nat)
    requires Open(g, d, slots, n) && NoNewEnd(g, d, d1, slots)
    ensures Open(g, d1, slots, n)
  {
    hide EndMark;
  }

  lemma ShownStays(g: Geometry, d: Disk, d1: Disk, slots: seq<Ref>, r: Ref)
    requires Shown(g, d, slots, r) && NoNewEnd(g, d, d1, slots)
    ensures Shown(g, d1, slots, r)
  {
    hide EndMark;
    var i :| 0 <= i < |slots| && slots[i] == r && Open(g, d, slots, i + 1);
    OpenStays(g, d, d1, slots, i + 1);
  }

  lemma ShownLonger(g: Geometry, d: Disk, slots: seq<Ref>, more: seq<Ref>, r: Ref)
    requires Shown(g, d, slots, r) && slots <= more
    ensures Shown(g, d, more, r)
  {
    hide EndMark;
    var i :| 0 <= i < |slots| && slots[i] == r && Open(g, d, slots, i + 1);
    assert more[i] == r && Open(g, d, more, i + 1);
  }

  lemma ShownIn(g: Geometry, d: Disk, slots: seq<Ref>, r: Ref)
    requires Shown(g, d, slots, r)
    ensures r in slots && !EndMark(g, d, r)
  {
  }

  /** The same bytes at every place, the same end marks. */
  lemma SameEnds(g: Geometry, d: Disk, d1: Disk, slots: seq<Ref>)
    requires forall j :: 0 <= j < |slots| && slots[j].Entry? ==> SectorBytes(g, d1, slots[j].addr) == SectorBytes(g, d, slots[j].addr)
    ensures NoNewEnd(g, d, d1, slots)
  {
    hide SectorBytes;
  }
}
