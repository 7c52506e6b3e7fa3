/**
 fat_slots, the search for consecutive free entry places in a directory, and
 what it finds: places that no object has, with nothing but listed entries
 before them, and behind the end mark if it had to go there.
 */
module FatSearch {
  import opened Basics
  import opened FatDisk
  import opened FatSlots
  import opened FatChains
  import opened FatCrash
  import opened FatGrowth

  /** run holds the free places at the end of what was scanned; ended is set from the end mark on. */
  datatype Search = Search(run: seq<Ref>, scanned: nat, ended: bool)

  const LIMIT: nat := 65536

  predicate Enough(x: Search, need: nat) { |x.run| >= need + if x.ended then 1 else 0 }

  function Advance(x: Search, r: Ref, first: byte): Search {
    var ended := x.ended || first == 0;
    Search(if ended || first == 0xe5 then x.run + [r] else [], x.scanned + 1, ended)
  }

  /** A deleted entry, or one at or behind an end mark. */
  ghost predicate Vacant(g: Geometry, d: Disk, seen: seq<Ref>, k: nat)
    requires k < |seen|
  {
    HasEntry(g, d, seen[k]) && (EntryBytes(g, d, seen[k])[0] == 0xe5 || !Open(g, d, seen, k + 1))
  }

  /** need vacant places one behind the other, and one more for the end mark if it has to go behind them. */
  ghost predicate Roomy(g: Geometry, d: Disk, seen: seq<Ref>, need: nat) {
    exists k: nat :: k + need <= |seen| && RoomAt(g, d, seen, k, need)
  }

  ghost predicate RoomAt(g: Geometry, d: Disk, seen: seq<Ref>, k: nat, need: nat)
    requires k + need <= |seen|
  {
    (forall j :: k <= j < k + need ==> Vacant(g, d, seen, j)) && (Open(g, d, seen, k + need) || k + need < |seen|)
  }

  /** The places before the run do not lengthen it, and there was no room so far unless there is now. */
  ghost predicate Barren(g: Geometry, d: Disk, seen: seq<Ref>, x: Search, need: nat) {
    && |x.run| <= |seen| && (|x.run| < |seen| ==> !Vacant(g, d, seen, |seen| - |x.run| - 1))
    && (!Enough(x, need) ==> !Roomy(g, d, seen, need))
  }

  ghost predicate Searching(g: Geometry, d: Disk, seen: seq<Ref>, x: Search, need: nat) {
    && x.scanned == |seen| <= LIMIT && |x.run| <= |seen| && |x.run| <= need + (if x.ended then 1 else 0)
    && x.run == seen[|seen| - |x.run|..]
    && (x.ended <==> !Open(g, d, seen, |seen|))
    && Open(g, d, seen, |seen| - |x.run|)
    && (forall k :: |seen| - |x.run| <= k < |seen| ==> Vacant(g, d, seen, k))
    && Barren(g, d, seen, x, need)
  }

  lemma SearchStart(g: Geometry, d: Disk, need: nat)
    requires need > 0
    ensures Searching(g, d, [], Search([], 0, false), need)
  {
  }

  lemma OpenMore(g: Geometry, d: Disk, seen: seq<Ref>, r: Ref, n: nat)
    requires n <= |seen|
    ensures Open(g, d, seen + [r], n) <==> Open(g, d, seen, n)
    ensures Open(g, d, seen + [r], |seen| + 1) <==> Open(g, d, seen, |seen|) && !EndMark(g, d, r)
  {
    hide EndMark;
    var s := seen + [r];
    assert s[|seen|] == r;
    assert forall j :: 0 <= j < |seen| ==> s[j] == seen[j];
  }

  lemma SearchStep(g: Geometry, d: Disk, seen: seq<Ref>, x: Search, r: Ref, need: nat)
    requires Searching(g, d, seen, x, need) && !Enough(x, need) && HasEntry(g, d, r) && |seen| < LIMIT
    ensures Searching(g, d, seen + [r], Advance(x, r, EntryBytes(g, d, r)[0]), need)
  {
    hide Open, EntryBytes, Roomy, Vacant;
    var s, y := seen + [r], Advance(x, r, EntryBytes(g, d, r)[0]);
    OpenMore(g, d, seen, r, |seen| - |x.run|);
    OpenMore(g, d, seen, r, |seen|);
    LastVacant(g, d, seen, x.ended, r);
    if y.run != [] {
      assert y.run == s[|s| - |y.run|..];
      forall k | |s| - |y.run| <= k < |s|
        ensures Vacant(g, d, s, k)
      {
        if k < |seen| {
          VacantMore(g, d, seen, r, k);
        }
      }
      if |y.run| < |s| {
        VacantMore(g, d, seen, r, |seen| - |x.run| - 1);
      }
    }
    if !Enough(y, need) {
      NoRoomMore(g, d, seen, r, y, need);
    }
  }

  lemma VacantMore(g: Geometry, d: Disk, seen: seq<Ref>, r: Ref, k: nat)
    requires k < |seen|
    ensures Vacant(g, d, seen + [r], k) <==> Vacant(g, d, seen, k)
  {
    hide Open, EntryBytes, HasEntry;
    OpenMore(g, d, seen, r, k + 1);
    assert (seen + [r])[k] == seen[k];
  }

  lemma LastVacant(g: Geometry, d: Disk, seen: seq<Ref>, ended: bool, r: Ref)
    requires HasEntry(g, d, r) && (ended <==> !Open(g, d, seen, |seen|))
    ensures var first := EntryBytes(g, d, r)[0]; Vacant(g, d, seen + [r], |seen|) <==> ended || first == 0 || first == 0xe5
    ensures Open(g, d, seen + [r], |seen| + 1) <==> !ended && EntryBytes(g, d, r)[0] != 0
  {
    hide Open, EntryBytes, HasEntry;
    OpenMore(g, d, seen, r, |seen|);
    assert (seen + [r])[|seen|] == r;
  }

  lemma RoomHere(g: Geometry, d: Disk, seen: seq<Ref>, k: nat, need: nat)
    requires k + need <= |seen| && RoomAt(g, d, seen, k, need)
    ensures Roomy(g, d, seen, need)
  {
  }

  lemma RoomThere(g: Geometry, d: Disk, seen: seq<Ref>, need: nat) returns (k: nat)
    requires Roomy(g, d, seen, need)
    ensures k + need <= |seen| && RoomAt(g, d, seen, k, need)
  {
    k :| k + need <= |seen| && RoomAt(g, d, seen, k, need);
  }

  lemma NoRoomMore(g: Geometry, d: Disk, seen: seq<Ref>, r: Ref, y: Search, need: nat)
    requires HasEntry(g, d, r) && !Roomy(g, d, seen, need) && !Enough(y, need)
    requires var s := seen + [r]; |y.run| <= |s| && (|y.run| < |s| ==> !Vacant(g, d, s, |s| - |y.run| - 1)) && (y.ended <==> !Open(g, d, s, |s|))
    ensures !Roomy(g, d, seen + [r], need)
  {
    hide Open, Vacant, Roomy;
    var s := seen + [r];
    OpenMore(g, d, seen, r, |seen|);
    if !Open(g, d, seen, |seen|) {
      ClosedVacant(g, d, seen, r);
    }
    if Roomy(g, d, s, need) {
      var k := RoomThere(g, d, s, need);
      if k + need == |s| {
        assert false;
      }
      OpenMore(g, d, seen, r, k + need);
      forall j | k <= j < k + need
        ensures Vacant(g, d, seen, j)
      {
        VacantMore(g, d, seen, r, j);
      }
      if Open(g, d, seen, k + need) || k + need < |seen| {
        RoomHere(g, d, seen, k, need);
        assert false;
      } else {
        assert false;
      }
    }
  }

  lemma ClosedVacant(g: Geometry, d: Disk, seen: seq<Ref>, r: Ref)
    requires HasEntry(g, d, r) && !Open(g, d, seen, |seen|)
    ensures Vacant(g, d, seen + [r], |seen|)
  {
    LastVacant(g, d, seen, true, r);
  }

  // ---------------------------------------------------------------- scanning

  method SearchSector(g: Geometry, d: Disk, healthy: bool, a: Addr, fixed: bool, start: Search, need: nat, ghost before: seq<Ref>)
    returns (e: Error, x: Search, ghost seen: seq<Ref>)
    requires ValidDisk(g, d) && Searching(g, d, before, start, need) && !Enough(start, need) && (fixed ==> |before| <= g.rootEntries)
    ensures e == Ok ==> Searching(g, d, seen, x, need) && seen <= before + SectorSlots(g, a, g.sector / 32)
    ensures e == Ok && fixed ==> |seen| <= g.rootEntries
    ensures e == Ok && !Enough(x, need) ==> seen == before + SectorSlots(g, a, g.sector / 32)
    ensures e == E2BIG ==>
      Searching(g, d, seen, x, need) && !Enough(x, need) && seen < before + SectorSlots(g, a, g.sector / 32)
      && (|seen| == LIMIT || (fixed && |seen| == g.rootEntries)) && (fixed ==> |seen| <= g.rootEntries)
    ensures e in {Ok, EIO, E2BIG} && (e == EIO ==> !healthy)
  {
    hide Searching, EntryBytes, HasEntry;
    x, seen := start, before;
    var readable := Answers(healthy);
    if !readable {
      return EIO, x, seen;
    }
    ghost var all := SectorSlots(g, a, g.sector / 32);
    assert forall k :: 0 <= k < g.sector / 32 ==> all[k] == Entry(a, 32 * k);
    var i := 0;
    while i < g.sector / 32
      invariant 0 <= i <= g.sector / 32 == |all| && Searching(g, d, seen, x, need) && !Enough(x, need)
      invariant seen == before + all[..i] && (fixed ==> |seen| <= g.rootEntries)
    {
      SearchScanned(g, d, seen, x, need);
      if (fixed && x.scanned >= g.rootEntries) || x.scanned + 1 > LIMIT {
        PrefixStep(before, all, i);
        return E2BIG, x, seen;
      }
      SectorEntry(g, d, a, i);
      SearchStep(g, d, seen, x, Entry(a, 32 * i), need);
      x := Advance(x, Entry(a, 32 * i), EntryBytes(g, d, Entry(a, 32 * i))[0]);
      seen := seen + [all[i]];
      PrefixStep(before, all, i);
      if Enough(x, need) {
        return Ok, x, seen;
      }
      i := i + 1;
    }
    assert all[..i] == all;
    return Ok, x, seen;
  }

  lemma SearchScanned(g: Geometry, d: Disk, seen: seq<Ref>, x: Search, need: nat)
    requires Searching(g, d, seen, x, need)
    ensures x.scanned == |seen| <= LIMIT && |x.run| <= |seen|
  {
  }

  lemma SectorEntry(g: Geometry, d: Disk, a: Addr, i: nat)
    requires ValidDisk(g, d) && i < g.sector / 32
    ensures HasEntry(g, d, Entry(a, 32 * i))
  {
    assert |SectorBytes(g, d, a)| == g.sector;
  }

  method SearchCluster(g: Geometry, d: Disk, healthy: bool, c: nat, start: Search, need: nat, ghost before: seq<Ref>)
    returns (e: Error, x: Search, ghost seen: seq<Ref>)
    requires ValidDisk(g, d) && Searching(g, d, before, start, need) && !Enough(start, need)
    ensures e == Ok ==> Searching(g, d, seen, x, need) && seen <= before + ClusterSlots(g, c, g.spc)
    ensures e == Ok && !Enough(x, need) ==> seen == before + ClusterSlots(g, c, g.spc)
    ensures e == E2BIG ==> |before + ClusterSlots(g, c, g.spc)| > LIMIT
    ensures e in {Ok, EIO, E2BIG} && (e == EIO ==> !healthy)
  {
    hide Searching, SectorSlots;
    x, seen := start, before;
    var s := 0;
    while s < g.spc
      invariant 0 <= s <= g.spc && Searching(g, d, seen, x, need) && !Enough(x, need) && seen == before + ClusterSlots(g, c, s)
    {
      ClusterSlotsGrow(g, c, s + 1, g.spc);
      assert seen + SectorSlots(g, Data(c, s), g.sector / 32) == before + ClusterSlots(g, c, s + 1);
      e, x, seen := SearchSector(g, d, healthy, Data(c, s), false, x, need, seen);
      if e != Ok || Enough(x, need) {
        return;
      }
      s := s + 1;
    }
    return Ok, x, seen;
  }

  /** The fixed root area. */
  method SearchRoot(g: Geometry, d: Disk, healthy: bool, need: nat) returns (e: Error, x: Search, ghost seen: seq<Ref>)
    requires ValidDisk(g, d) && need > 0
    ensures e == Ok ==> Searching(g, d, seen, x, need) && Enough(x, need) && seen <= Slots(g, [])
    ensures e in {E2BIG, ENOSPC} ==> !Roomy(g, d, Slots(g, []), need) || |Slots(g, [])| > LIMIT
    ensures e in {Ok, EIO, E2BIG, ENOSPC} && (e == EIO ==> !healthy)
  {
    hide Searching, SectorSlots, RootSectors;
    SearchStart(g, d, need);
    x, seen := Search([], 0, false), [];
    var s := 0;
    while s < RootSectors(g)
      invariant 0 <= s <= RootSectors(g) && Searching(g, d, seen, x, need) && !Enough(x, need)
      invariant seen == RootSlots(g, s) && |seen| <= g.rootEntries
    {
      RootSlotsGrow(g, s + 1, RootSectors(g));
      assert seen + SectorSlots(g, Root(s), g.sector / 32) == RootSlots(g, s + 1);
      e, x, seen := SearchSector(g, d, healthy, Root(s), true, x, need, seen);
      if e != Ok {
        if e == E2BIG {
          RootFull(g, d, seen, x, need);
        }
        return;
      }
      if Enough(x, need) {
        assert seen <= RootSlots(g, RootSectors(g));
        return;
      }
      s := s + 1;
    }
    RootFull(g, d, seen, x, need);
    return ENOSPC, x, seen;
  }

  lemma RootFull(g: Geometry, d: Disk, seen: seq<Ref>, x: Search, need: nat)
    requires Searching(g, d, seen, x, need) && !Enough(x, need) && seen <= RootSlots(g, RootSectors(g))
    requires |seen| <= g.rootEntries
    requires |seen| == g.rootEntries || (|seen| == LIMIT && seen < RootSlots(g, RootSectors(g))) || seen == RootSlots(g, RootSectors(g))
    ensures !Roomy(g, d, Slots(g, []), need) || |Slots(g, [])| > LIMIT
  {
    hide Roomy, RootSlots, RootSectors, Open, Vacant;
    var all := RootSlots(g, RootSectors(g));
    if |seen| == g.rootEntries {
      assert all[..g.rootEntries] == seen;
    }
  }

  // ---------------------------------------------------------------- what was found

  /** The places are numbers base and up of directory q; no end mark comes before them. */
  ghost predicate Laid(g: Geometry, d: Disk, now: map<Ref, seq<nat>>, q: Ref, base: nat, places: seq<Ref>) {
    && q in now && DirectoryRef(g, d, q) && base + |places| <= |Slots(g, now[q])|
    && places == Slots(g, now[q])[base..base + |places|] && Open(g, d, Slots(g, now[q]), base)
  }

  ghost predicate AllVacant(g: Geometry, d: Disk, slots: seq<Ref>, base: nat, n: nat) {
    base + n <= |slots| && forall k :: base <= k < base + n ==> Vacant(g, d, slots, k)
  }

  /** They are vacant and free, and end says whether an end mark is among them. */
  ghost predicate Room(g: Geometry, d: Disk, now: map<Ref, seq<nat>>, q: Ref, base: nat, places: seq<Ref>, need: nat, end: bool) {
    && Laid(g, d, now, q, base, places) && |places| == need + (if end then 1 else 0) && AllFree(g, d, now, places)
    && AllVacant(g, d, Slots(g, now[q]), base, |places|)
    && (end <==> !Open(g, d, Slots(g, now[q]), base + |places|))
  }

  lemma OpenPrefix(g: Geometry, d: Disk, seen: seq<Ref>, slots: seq<Ref>, n: nat)
    requires seen <= slots && n <= |seen|
    ensures Open(g, d, seen, n) <==> Open(g, d, slots, n)
  {
    hide EndMark;
    assert forall j :: 0 <= j < |seen| ==> slots[j] == seen[j];
  }

  lemma VacantPrefix(g: Geometry, d: Disk, seen: seq<Ref>, slots: seq<Ref>, k: nat)
    requires seen <= slots && k < |seen| && Vacant(g, d, seen, k)
    ensures Vacant(g, d, slots, k)
  {
    hide Open, EntryBytes, HasEntry;
    OpenPrefix(g, d, seen, slots, k + 1);
    assert slots[k] == seen[k];
  }

  /** A vacant place is nobody's: listing the directory of an object's entry comes to it before any end mark. */
  lemma VacantIsFree(g: Geometry, d: Disk, now: map<Ref, seq<nat>>, q: Ref, seen: seq<Ref>, k: nat)
    requires Consistent(g, d, now) && q in now && DirectoryRef(g, d, q) && seen <= Slots(g, now[q]) && k < |seen| && Vacant(g, d, seen, k)
    ensures FreePlace(g, d, now, seen[k])
  {
    hide Consistent, Open, EntryBytes, HasEntry, DirectoryRef, Slots;
    var r := seen[k];
    assert r == Slots(g, now[q])[k];
    SlotHome(g, now[q], r);
    if r in now {
      HasPlace(g, d, r);
      ObjectOk(g, d, now, r);
      var p :| p in now && DirectoryRef(g, d, p) && Shown(g, d, Slots(g, now[p]), r);
      var i :| 0 <= i < |Slots(g, now[p])| && Slots(g, now[p])[i] == r && Open(g, d, Slots(g, now[p]), i + 1);
      PlaceOwner(g, d, now, p, i, q, k);
      OpenPrefix(g, d, seen, Slots(g, now[q]), k + 1);
      assert false;
    }
  }

  lemma FoundRoom(g: Geometry, d: Disk, now: map<Ref, seq<nat>>, q: Ref, seen: seq<Ref>, x: Search, need: nat)
    requires Consistent(g, d, now) && q in now && DirectoryRef(g, d, q) && seen <= Slots(g, now[q])
    requires Searching(g, d, seen, x, need) && Enough(x, need)
    ensures Room(g, d, now, q, |seen| - |x.run|, x.run, need, x.ended)
  {
    hide Consistent, Open, DirectoryRef, Slots, FreePlace, Vacant;
    var base, slots := |seen| - |x.run|, Slots(g, now[q]);
    forall i | 0 <= i < |x.run|
      ensures FreePlace(g, d, now, x.run[i])
    {
      assert x.run[i] == seen[base + i];
      VacantIsFree(g, d, now, q, seen, base + i);
    }
    forall k | base <= k < |seen|
      ensures Vacant(g, d, slots, k)
    {
      VacantPrefix(g, d, seen, slots, k);
    }
    OpenPrefix(g, d, seen, slots, base);
    OpenPrefix(g, d, seen, slots, |seen|);
    assert slots[base..base + |x.run|] == x.run;
  }

  // ---------------------------------------------------------------- growing the directory meanwhile

  /** The places hold what they held. */
  ghost predicate SameBytes(g: Geometry, d: Disk, d1: Disk, slots: seq<Ref>) {
    forall j :: 0 <= j < |slots| && slots[j].Entry? ==> SectorBytes(g, d1, slots[j].addr) == SectorBytes(g, d, slots[j].addr)
  }

  lemma SameBytesOpen(g: Geometry, d: Disk, d1: Disk, slots: seq<Ref>, n: nat)
    requires SameBytes(g, d, d1, slots) && n <= |slots|
    ensures Open(g, d1, slots, n) <==> Open(g, d, slots, n)
  {
    hide SectorBytes;
  }

  lemma VacantSame(g: Geometry, d: Disk, d1: Disk, slots: seq<Ref>, k: nat)
    requires SameBytes(g, d, d1, slots) && k < |slots| && Vacant(g, d, slots, k)
    ensures Vacant(g, d1, slots, k)
  {
    hide Open, SectorBytes;
    SameBytesOpen(g, d, d1, slots, k + 1);
  }

  lemma BarrenSame(g: Geometry, d: Disk, d1: Disk, seen: seq<Ref>, x: Search, need: nat)
    requires Barren(g, d, seen, x, need) && SameBytes(g, d, d1, seen)
    ensures Barren(g, d1, seen, x, need)
  {
    hide Open, SectorBytes, Vacant;
    forall k: nat | k < |seen| && Vacant(g, d1, seen, k)
      ensures Vacant(g, d, seen, k)
    {
      VacantSame(g, d1, d, seen, k);
    }
    forall k: nat | k + need <= |seen| && RoomAt(g, d1, seen, k, need)
      ensures RoomAt(g, d, seen, k, need)
    {
      SameBytesOpen(g, d, d1, seen, k + need);
    }
  }

  lemma SearchingSame(g: Geometry, d: Disk, d1: Disk, seen: seq<Ref>, x: Search, need: nat)
    requires Searching(g, d, seen, x, need) && SameBytes(g, d, d1, seen)
    ensures Searching(g, d1, seen, x, need)
  {
    hide Open, SectorBytes;
    SameBytesOpen(g, d, d1, seen, |seen|);
    SameBytesOpen(g, d, d1, seen, |seen| - |x.run|);
    forall k | |seen| - |x.run| <= k < |seen|
      ensures Vacant(g, d1, seen, k)
    {
      VacantSame(g, d, d1, seen, k);
    }
    BarrenSame(g, d, d1, seen, x, need);
  }

  /** Every directory lists the same bytes. */
  ghost predicate ListsKept(g: Geometry, d: Disk, d1: Disk, now: map<Ref, seq<nat>>) {
    forall q :: q in now ==> SameBytes(g, d, d1, Slots(g, now[q]))
  }

  lemma ListsJoin(g: Geometry, a: Disk, b: Disk, c: Disk, now: map<Ref, seq<nat>>)
    requires ListsKept(g, a, b, now) && ListsKept(g, b, c, now)
    ensures ListsKept(g, a, c, now)
  {
    hide SectorBytes, Slots;
    forall q | q in now
      ensures SameBytes(g, a, c, Slots(g, now[q]))
    {
      assert SameBytes(g, a, b, Slots(g, now[q])) && SameBytes(g, b, c, Slots(g, now[q]));
    }
  }

  lemma PhaseLists(g: Geometry, b: Disk, now: map<Ref, seq<nat>>, d: Disk)
    requires Phase(g, b, now, d)
    ensures ListsKept(g, b, d, now)
  {
    hide Slots, SectorBytes, NothingLost;
    forall q | q in now
      ensures SameBytes(g, b, d, Slots(g, now[q]))
    {
      var slots := Slots(g, now[q]);
      forall j | 0 <= j < |slots| && slots[j].Entry?
        ensures SectorBytes(g, d, slots[j].addr) == SectorBytes(g, b, slots[j].addr)
      {
        SlotHome(g, now[q], slots[j]);
        assert now[q] != [] ==> slots[j].addr.cluster in Owned(now);
      }
    }
  }

  lemma SectorsLists(g: Geometry, d: Disk, d1: Disk, now: map<Ref, seq<nat>>)
    requires d1.sectors == d.sectors
    ensures ListsKept(g, d, d1, now)
  {
    hide Slots;
  }

  /** An end mark at place number start, and so a run that began there or before, shorter than is needed. */
  lemma GrowthBound(g: Geometry, d: Disk, was: seq<nat>, ch: seq<nat>, x: Search, need: nat)
    requires Searching(g, d, ChainSlots(g, ch), x, need) && !Enough(x, need) && g.sector >= 512 && g.spc > 0 && need <= 21
    requires was <= ch && |was| < |ch| && |ChainSlots(g, was)| < |ChainSlots(g, ch)|
    requires EndMark(g, d, ChainSlots(g, ch)[|ChainSlots(g, was)|])
    ensures |ch| < |was| + 2
  {
    hide ChainSlots, EndMark, Vacant;
    var base := |ChainSlots(g, ch)| - |x.run|;
    assert base <= |ChainSlots(g, was)|;
    CountAdded(g, was, ch);
  }

  lemma {:induction false} CountAdded(g: Geometry, a: seq<nat>, b: seq<nat>)
    requires a <= b && g.sector >= 512 && g.spc > 0
    ensures |ChainSlots(g, b)| >= |ChainSlots(g, a)| + 16 * (|b| - |a|)
    decreases |b|
  {
    hide ClusterSlots;
    if |b| > |a| {
      assert a <= b[..|b| - 1];
      CountAdded(g, a, b[..|b| - 1]);
      ClusterCount(g, b[|b| - 1], g.spc);
    } else {
      assert a == b;
    }
  }

  /** The first entry of a cluster of zeros is an end mark. */
  lemma ZeroEnds(g: Geometry, d: Disk, ch: seq<nat>, c: nat)
    requires ValidDisk(g, d) && g.sector >= 512 && g.spc > 0 && SectorBytes(g, d, Data(c, 0)) == Zeros(g.sector)
    ensures |ChainSlots(g, ch)| < |ChainSlots(g, ch + [c])| && EndMark(g, d, ChainSlots(g, ch + [c])[|ChainSlots(g, ch)|])
  {
    assert (ch + [c])[..|ch|] == ch;
    ClusterSlotsGrow(g, c, 1, g.spc);
    ClusterFirst(g, c);
    assert ChainSlots(g, ch + [c]) == ChainSlots(g, ch) + ClusterSlots(g, c, g.spc);
    assert HasEntry(g, d, Entry(Data(c, 0), 0));
  }

  lemma ClusterFirst(g: Geometry, c: nat)
    requires g.sector >= 512
    ensures |ClusterSlots(g, c, 1)| > 0 && ClusterSlots(g, c, 1)[0] == Entry(Data(c, 0), 0)
  {
    assert ClusterSlots(g, c, 0) == [];
  }

  // ---------------------------------------------------------------- filling the places

  /** The first places hold these entries. */
  ghost predicate Holds(g: Geometry, d: Disk, places: seq<Ref>, entries: seq<seq<byte>>) {
    && |entries| <= |places|
    && forall i :: 0 <= i < |entries| ==> HasEntry(g, d, places[i]) && EntryBytes(g, d, places[i]) == entries[i]
  }

  lemma HoldsPart(g: Geometry, d: Disk, places: seq<Ref>, part: seq<Ref>, entries: seq<seq<byte>>)
    requires Holds(g, d, places, entries) && |part| == |entries| && part <= places
    ensures Holds(g, d, part, entries)
  {
    hide EntryBytes, HasEntry;
  }

  lemma LaidDistinct(g: Geometry, d: Disk, now: map<Ref, seq<nat>>, q: Ref, base: nat, places: seq<Ref>, k: nat, i: nat)
    requires Consistent(g, d, now) && Laid(g, d, now, q, base, places) && i < |places| && k < |Slots(g, now[q])|
    requires Slots(g, now[q])[k] == places[i]
    ensures k == base + i
  {
    hide Consistent, Slots, Open, DirectoryRef;
    assert places[i] == Slots(g, now[q])[base + i];
    PlaceOwner(g, d, now, q, k, q, base + i);
  }

  lemma LaidDirectory(g: Geometry, d: Disk, now: map<Ref, seq<nat>>, q: Ref, base: nat, places: seq<Ref>, i: nat)
    requires Consistent(g, d, now) && Laid(g, d, now, q, base, places) && i < |places| && FreePlace(g, d, now, places[i])
    ensures places[i] != q && HasEntry(g, d, places[i]) && ValidDisk(g, d)
  {
    hide Consistent, Slots, Open, DirectoryRef, InDirectory;
    ConsistentDisk(g, d, now);
  }

  /** An entry other than an end mark in one of the places. */
  lemma LaidWritten(g: Geometry, d: Disk, now: map<Ref, seq<nat>>, q: Ref, base: nat, places: seq<Ref>, entries: seq<seq<byte>>, e: seq<byte>)
    requires Consistent(g, d, now) && Laid(g, d, now, q, base, places) && Holds(g, d, places, entries) && |entries| < |places|
    requires FreePlace(g, d, now, places[|entries|]) && |e| == 32 && e[0] != 0
    ensures var d1 := WithEntry(g, d, places[|entries|], e);
      && Laid(g, d1, now, q, base, places) && Holds(g, d1, places, entries + [e]) && NoNewEnd(g, d, d1, Slots(g, now[q]))
  {
    hide Consistent, Slots, Open, DirectoryRef, FreePlace, WithEntry, EntryBytes, HasEntry, NoNewEnd;
    var i, slots := |entries|, Slots(g, now[q]);
    LaidDirectory(g, d, now, q, base, places, i);
    var d1 := WithEntry(g, d, places[i], e);
    WithEntryEnds(g, d, places[i], e, slots);
    OpenStays(g, d, d1, slots, base);
    WithEntryDirectory(g, d, places[i], e, q);
    var more := entries + [e];
    forall j | 0 <= j < |more|
      ensures HasEntry(g, d1, places[j]) && EntryBytes(g, d1, places[j]) == more[j]
    {
      WithEntryOthers(g, d, places[i], e, places[j]);
      if j < i {
        LaidApart(g, d, now, q, base, places, j, i);
      }
    }
  }

  lemma LaidApart(g: Geometry, d: Disk, now: map<Ref, seq<nat>>, q: Ref, base: nat, places: seq<Ref>, i: nat, j: nat)
    requires Consistent(g, d, now) && Laid(g, d, now, q, base, places) && i < j < |places|
    ensures places[i] != places[j]
  {
    hide Consistent, Slots, Open, DirectoryRef;
    assert places[i] == Slots(g, now[q])[base + i];
    if places[i] == places[j] {
      LaidDistinct(g, d, now, q, base, places, base + i, j);
    }
  }

  /** The end mark in the last place, which is behind an end mark already. */
  lemma LaidEnded(g: Geometry, d: Disk, now: map<Ref, seq<nat>>, q: Ref, base: nat, places: seq<Ref>, need: nat, e: seq<byte>)
    requires Consistent(g, d, now) && Room(g, d, now, q, base, places, need, true) && |e| == 32
    ensures Harmless(g, d, now, places[need], e)
    ensures FreePlace(g, d, now, places[need]) && HasEntry(g, d, places[need]) && Laid(g, WithEntry(g, d, places[need], e), now, q, base, places)
  {
    hide Consistent, Slots, Open, DirectoryRef, InDirectory, WithEntry;
    LaidDirectory(g, d, now, q, base, places, need);
    assert places[need] == Slots(g, now[q])[base + need];
    assert Behind(g, d, now, q, base + need, places[need]);
    forall j | 0 <= j < base
      ensures Slots(g, now[q])[j] != places[need]
    {
      if Slots(g, now[q])[j] == places[need] {
        LaidDistinct(g, d, now, q, base, places, j, need);
      }
    }
    EndsElsewhere(g, d, places[need], e, Slots(g, now[q]), base);
    WithEntryDirectory(g, d, places[need], e, q);
  }

  /** Behind places filled with entries comes a place that listing reaches. */
  lemma FilledReach(g: Geometry, d: Disk, now: map<Ref, seq<nat>>, q: Ref, base: nat, places: seq<Ref>, entries: seq<seq<byte>>)
    requires Laid(g, d, now, q, base, places) && Holds(g, d, places, entries) && forall i :: 0 <= i < |entries| ==> |entries[i]| == 32 && entries[i][0] != 0
    ensures Open(g, d, Slots(g, now[q]), base + |entries|)
    ensures |entries| < |places| ==> Reached(g, d, now, q, base + |entries|, places[|entries|])
  {
    hide Slots, EntryBytes, HasEntry, DirectoryRef;
    var slots := Slots(g, now[q]);
    forall j | 0 <= j < base + |entries|
      ensures !EndMark(g, d, slots[j])
    {
      if base <= j {
        assert places[j - base] == slots[j];
      }
    }
  }

  lemma LaidSame(g: Geometry, d: Disk, d1: Disk, now: map<Ref, seq<nat>>, q: Ref, base: nat, places: seq<Ref>, entries: seq<seq<byte>>)
    requires ListsKept(g, d, d1, now) && DirsKept(g, d, d1, now) && Laid(g, d, now, q, base, places) && Holds(g, d, places, entries)
    ensures Laid(g, d1, now, q, base, places) && Holds(g, d1, places, entries)
  {
    hide Slots, Open, DirectoryRef, SectorBytes;
    var slots := Slots(g, now[q]);
    assert SameBytes(g, d, d1, slots);
    SameBytesOpen(g, d, d1, slots, base);
    forall i | 0 <= i < |entries|
      ensures HasEntry(g, d1, places[i]) && EntryBytes(g, d1, places[i]) == entries[i]
    {
      assert slots[base + i] == places[i] && places[i].Entry?;
    }
  }

  /** With another object the directory is as it was. */
  lemma LaidMore(g: Geometry, d: Disk, now: map<Ref, seq<nat>>, q: Ref, base: nat, places: seq<Ref>, r: Ref, ch: seq<nat>)
    requires Laid(g, d, now, q, base, places) && r != q
    ensures q in now && Laid(g, d, now[r := ch], q, base, places)
  {
    hide Slots, Open, DirectoryRef;
  }
}
