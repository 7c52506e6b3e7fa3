/**
 What listing a directory shows while a name is being added to it: at the end the
 old entries and the new object and nothing else, and in between a stale entry
 exactly when one of the places behind the end mark looks like an entry.
 */
module FatQuiet {
  import opened Basics
  import opened FatDisk
  import opened FatSlots
  import opened FatChains
  import opened FatCrash
  import opened FatGrowth
  import opened FatSearch

  /** Listing comes to place number k and takes it for an object. */
  ghost predicate Lists(g: Geometry, d: Disk, slots: seq<Ref>, k: nat) {
    k < |slots| && Open(g, d, slots, k + 1) && HasEntry(g, d, slots[k]) && LiveEntry(EntryBytes(g, d, slots[k]))
  }

  /** Outside the given places a directory holds what it held. */
  ghost predicate Outside(g: Geometry, d: Disk, d1: Disk, slots: seq<Ref>, places: seq<Ref>) {
    forall k :: 0 <= k < |slots| && slots[k] !in places ==>
      HasEntry(g, d, slots[k]) && HasEntry(g, d1, slots[k]) && EntryBytes(g, d1, slots[k]) == EntryBytes(g, d, slots[k])
  }

  ghost predicate OnlyPlaces(g: Geometry, d: Disk, d1: Disk, now: map<Ref, seq<nat>>, places: seq<Ref>) {
    forall p :: p in now ==> Outside(g, d, d1, Slots(g, now[p]), places)
  }

  lemma ListsOnly(g: Geometry, d: Disk, d1: Disk, now: map<Ref, seq<nat>>, places: seq<Ref>)
    requires ValidDisk(g, d) && ValidDisk(g, d1) && ListsKept(g, d, d1, now)
    ensures OnlyPlaces(g, d, d1, now, places)
  {
    hide Slots, ValidDisk, SectorBytes;
    forall p | p in now
      ensures Outside(g, d, d1, Slots(g, now[p]), places)
    {
      var slots := Slots(g, now[p]);
      assert SameBytes(g, d, d1, slots);
      forall k | 0 <= k < |slots| && slots[k] !in places
        ensures HasEntry(g, d, slots[k]) && HasEntry(g, d1, slots[k]) && EntryBytes(g, d1, slots[k]) == EntryBytes(g, d, slots[k])
      {
        SlotEntry(g, d, now[p], slots[k]);
      }
    }
  }

  lemma EntryOnly(g: Geometry, d: Disk, r: Ref, e: seq<byte>, now: map<Ref, seq<nat>>, places: seq<Ref>)
    requires ValidDisk(g, d) && HasEntry(g, d, r) && |e| == 32 && r in places
    ensures OnlyPlaces(g, d, WithEntry(g, d, r, e), now, places)
  {
    hide Slots, WithEntry, EntryBytes, HasEntry, ValidDisk;
    forall p | p in now
      ensures Outside(g, d, WithEntry(g, d, r, e), Slots(g, now[p]), places)
    {
      var slots := Slots(g, now[p]);
      forall k | 0 <= k < |slots| && slots[k] !in places
        ensures HasEntry(g, d, slots[k]) && HasEntry(g, WithEntry(g, d, r, e), slots[k])
        ensures EntryBytes(g, WithEntry(g, d, r, e), slots[k]) == EntryBytes(g, d, slots[k])
      {
        SlotEntry(g, d, now[p], slots[k]);
        WithEntryOthers(g, d, r, e, slots[k]);
      }
    }
  }

  lemma OnlyJoin(g: Geometry, a: Disk, b: Disk, c: Disk, now: map<Ref, seq<nat>>, places: seq<Ref>)
    requires OnlyPlaces(g, a, b, now, places) && OnlyPlaces(g, b, c, now, places)
    ensures OnlyPlaces(g, a, c, now, places)
  {
    hide Slots, EntryBytes, HasEntry;
    forall p | p in now
      ensures Outside(g, a, c, Slots(g, now[p]), places)
    {
      assert Outside(g, a, b, Slots(g, now[p]), places) && Outside(g, b, c, Slots(g, now[p]), places);
    }
  }

  // ---------------------------------------------------------------- the end of an addition

  /** A directory that was there lists what it listed, and objects that are new. */
  ghost predicate Quiet(g: Geometry, d0: Disk, files: map<Ref, seq<nat>>, d: Disk, now: map<Ref, seq<nat>>) {
    forall p, k: nat :: p in files && DirectoryRef(g, d0, p) && p in now && Lists(g, d, Slots(g, now[p]), k) ==>
      (Slots(g, now[p])[k] in now && Slots(g, now[p])[k] !in files) || (Slots(g, files[p]) <= Slots(g, now[p]) && Lists(g, d0, Slots(g, files[p]), k))
  }

  lemma SameEnd(g: Geometry, d: Disk, d1: Disk, slots: seq<Ref>, places: seq<Ref>, j: nat)
    requires Outside(g, d, d1, slots, places) && j < |slots| && slots[j] !in places
    ensures EndMark(g, d1, slots[j]) <==> EndMark(g, d, slots[j])
  {
  }

  /** The places of one directory are in no other. */
  lemma NotAmong(g: Geometry, d: Disk, now: map<Ref, seq<nat>>, q: Ref, base: nat, places: seq<Ref>, p: Ref, j: nat)
    requires Consistent(g, d, now) && Laid(g, d, now, q, base, places) && p in now && DirectoryRef(g, d, p) && p != q && j < |Slots(g, now[p])|
    ensures Slots(g, now[p])[j] !in places
  {
    hide Consistent, Slots, DirectoryRef, Open;
    var slots := Slots(g, now[p]);
    if slots[j] in places {
      var i :| 0 <= i < |places| && places[i] == slots[j];
      assert places[i] == Slots(g, now[q])[base + i];
      PlaceOwner(g, d, now, p, j, q, base + i);
      assert false;
    }
  }

  lemma QuietOther(g: Geometry, d: Disk, now: map<Ref, seq<nat>>, q: Ref, base: nat, places: seq<Ref>, d1: Disk, p: Ref, k: nat)
    requires Consistent(g, d, now) && Laid(g, d, now, q, base, places) && OnlyPlaces(g, d, d1, now, places)
    requires p in now && DirectoryRef(g, d, p) && p != q && Lists(g, d1, Slots(g, now[p]), k)
    ensures Lists(g, d, Slots(g, now[p]), k)
  {
    hide Consistent, Slots, DirectoryRef, EntryBytes, LiveEntry, HasEntry, EndMark;
    var slots := Slots(g, now[p]);
    assert Outside(g, d, d1, slots, places);
    forall j | 0 <= j < |slots|
      ensures slots[j] !in places
    {
      NotAmong(g, d, now, q, base, places, p, j);
    }
    forall j | 0 <= j < k + 1
      ensures !EndMark(g, d, slots[j])
    {
      SameEnd(g, d, d1, slots, places, j);
    }
  }

  /** In the directory itself: entries before the places are the old ones, and behind them nothing shows that did not. */
  lemma QuietHere(g: Geometry, d: Disk, now: map<Ref, seq<nat>>, q: Ref, base: nat, places: seq<Ref>, need: nat, end: bool, d1: Disk, k: nat)
    requires Consistent(g, d, now) && Room(g, d, now, q, base, places, need, end) && OnlyPlaces(g, d, d1, now, places)
    requires end ==> EndMark(g, d1, places[need])
    requires Lists(g, d1, Slots(g, now[q]), k) && !(base <= k < base + need)
    ensures Lists(g, d, Slots(g, now[q]), k)
  {
    hide Consistent, Slots, DirectoryRef, EntryBytes, LiveEntry, HasEntry, EndMark, AllFree;
    var slots := Slots(g, now[q]);
    assert Outside(g, d, d1, slots, places);
    if end {
      assert slots[base + need] == places[need];
      assert k < base + need;
    }
    forall j | 0 <= j < |slots| && !(base <= j < base + |places|)
      ensures slots[j] !in places
    {
      if slots[j] in places {
        var i :| 0 <= i < |places| && places[i] == slots[j];
        LaidDistinct(g, d, now, q, base, places, j, i);
        assert false;
      }
    }
    forall j | 0 <= j < k + 1
      ensures !EndMark(g, d, slots[j])
    {
      if !(base <= j < base + |places|) {
        SameEnd(g, d, d1, slots, places, j);
      }
    }
  }

  /** The place is still listed, with the entry that it had. */
  ghost predicate StillLists(g: Geometry, d: Disk, d1: Disk, slots: seq<Ref>, k: nat) {
    && Lists(g, d1, slots, k) && HasEntry(g, d, slots[k]) && EntryBytes(g, d1, slots[k]) == EntryBytes(g, d, slots[k])
  }

  /** What a directory listed it lists, under the same numbers. */
  ghost predicate Retained(g: Geometry, d0: Disk, files: map<Ref, seq<nat>>, d: Disk, now: map<Ref, seq<nat>>) {
    forall p, k: nat :: p in files && DirectoryRef(g, d0, p) && p in now && Lists(g, d0, Slots(g, files[p]), k) ==>
      Slots(g, files[p]) <= Slots(g, now[p]) && StillLists(g, d0, d, Slots(g, now[p]), k)
  }

  lemma StillSame(g: Geometry, d: Disk, d1: Disk, slots: seq<Ref>, more: seq<Ref>, k: nat)
    requires SameBytes(g, d, d1, slots) && slots <= more && Lists(g, d, slots, k)
    ensures StillLists(g, d, d1, more, k)
  {
    hide Open, SectorBytes, LiveEntry;
    SameBytesOpen(g, d, d1, slots, k + 1);
    OpenPrefix(g, d1, slots, more, k + 1);
    assert more[k] == slots[k];
  }

  lemma StillOther(g: Geometry, d: Disk, now: map<Ref, seq<nat>>, q: Ref, base: nat, places: seq<Ref>, d1: Disk, p: Ref, k: nat)
    requires Consistent(g, d, now) && Laid(g, d, now, q, base, places) && OnlyPlaces(g, d, d1, now, places)
    requires p in now && DirectoryRef(g, d, p) && p != q && Lists(g, d, Slots(g, now[p]), k)
    ensures StillLists(g, d, d1, Slots(g, now[p]), k)
  {
    hide Consistent, Slots, DirectoryRef, EntryBytes, LiveEntry, HasEntry, EndMark;
    var slots := Slots(g, now[p]);
    assert Outside(g, d, d1, slots, places);
    forall j | 0 <= j < |slots|
      ensures slots[j] !in places
    {
      NotAmong(g, d, now, q, base, places, p, j);
    }
    forall j | 0 <= j < k + 1
      ensures !EndMark(g, d1, slots[j])
    {
      SameEnd(g, d, d1, slots, places, j);
    }
  }

  lemma VacantHidden(g: Geometry, d: Disk, slots: seq<Ref>, base: nat, n: nat, k: nat)
    requires AllVacant(g, d, slots, base, n) && base <= k < base + n
    ensures !Lists(g, d, slots, k)
  {
    hide Open, EntryBytes, HasEntry;
    assert Vacant(g, d, slots, k);
  }

  /** A vacant place is not listed, so filling the places up hides nothing. */
  lemma StillHere(g: Geometry, d: Disk, now: map<Ref, seq<nat>>, q: Ref, base: nat, places: seq<Ref>, need: nat, end: bool, d1: Disk, k: nat)
    requires Consistent(g, d, now) && Room(g, d, now, q, base, places, need, end) && OnlyPlaces(g, d, d1, now, places)
    requires Open(g, d1, Slots(g, now[q]), base + need) && Lists(g, d, Slots(g, now[q]), k)
    ensures StillLists(g, d, d1, Slots(g, now[q]), k)
  {
    hide Consistent, Slots, DirectoryRef, EntryBytes, HasEntry, EndMark, AllFree;
    var slots := Slots(g, now[q]);
    assert Outside(g, d, d1, slots, places);
    if base <= k < base + |places| {
      VacantHidden(g, d, slots, base, |places|, k);
      assert false;
    }
    forall j | 0 <= j < |slots| && !(base <= j < base + |places|)
      ensures slots[j] !in places
    {
      if slots[j] in places {
        var i :| 0 <= i < |places| && places[i] == slots[j];
        LaidDistinct(g, d, now, q, base, places, j, i);
        assert false;
      }
    }
    assert k >= base + |places| ==> !end;
    forall j | 0 <= j < k + 1
      ensures !EndMark(g, d1, slots[j])
    {
      if !(base <= j < base + |places|) {
        SameEnd(g, d, d1, slots, places, j);
      }
    }
  }

  // ---------------------------------------------------------------- between the writes

  /** The disk after the first n entries have been written into the places. */
  ghost function Filled(g: Geometry, d: Disk, rs: seq<Ref>, entries: seq<seq<byte>>, n: nat): Disk
    requires n <= |entries| <= |rs|
  {
    if n == 0 then d
    else
      var before := Filled(g, d, rs, entries, n - 1);
      if HasEntry(g, before, rs[n - 1]) && |entries[n - 1]| == 32 then WithEntry(g, before, rs[n - 1], entries[n - 1]) else before
  }

  function Deleted(): (e: seq<byte>)
    ensures |e| == 32 && e[0] == 0xe5
  {
    Zeros(32)[0 := 0xe5]
  }

  function Placeholders(n: nat): (r: seq<seq<byte>>)
    ensures |r| == n && forall i :: 0 <= i < n ==> r[i] == Deleted()
  {
    seq(n, i => Deleted())
  }

  /** Of the places the first n are deleted entries, the others as they were, and no place before them has changed. */
  lemma {:induction false} FilledIs(g: Geometry, d: Disk, now: map<Ref, seq<nat>>, q: Ref, base: nat, places: seq<Ref>, need: nat, n: nat)
    requires Consistent(g, d, now) && Laid(g, d, now, q, base, places) && n <= need <= |places|
    ensures var d1, slots := Filled(g, d, places, Placeholders(need), n), Slots(g, now[q]);
      && ValidDisk(g, d1)
      && forall k :: 0 <= k < |slots| ==>
           && HasEntry(g, d, slots[k]) && HasEntry(g, d1, slots[k])
           && EntryBytes(g, d1, slots[k]) == if base <= k < base + n then Deleted() else EntryBytes(g, d, slots[k])
  {
    hide Consistent, Slots, DirectoryRef, EntryBytes, HasEntry, WithEntry, Open, Deleted, ValidDisk;
    ConsistentDisk(g, d, now);
    var slots := Slots(g, now[q]);
    forall k | 0 <= k < |slots|
      ensures HasEntry(g, d, slots[k])
    {
      SlotEntry(g, d, now[q], slots[k]);
    }
    if n > 0 {
      FilledIs(g, d, now, q, base, places, need, n - 1);
      var before, r := Filled(g, d, places, Placeholders(need), n - 1), places[n - 1];
      assert r == slots[base + (n - 1)];
      WithEntrySectors(g, before, r, Deleted());
      forall k | 0 <= k < |slots|
        ensures var d1 := WithEntry(g, before, r, Deleted());
          && HasEntry(g, d1, slots[k])
          && EntryBytes(g, d1, slots[k]) == if base <= k < base + n then Deleted() else EntryBytes(g, d, slots[k])
      {
        WithEntryOthers(g, before, r, Deleted(), slots[k]);
        if slots[k] == r {
          LaidDistinct(g, d, now, q, base, places, k, n - 1);
        }
      }
    }
  }

  /** The states that a history gets while the entries are written. */
  ghost predicate FillStates(g: Geometry, d: Disk, rs: seq<Ref>, entries: seq<seq<byte>>, h0: seq<Disk>, h: seq<Disk>, n: nat)
    requires n <= |entries| <= |rs|
  {
    |h| == |h0| + n && h0 <= h && forall i :: |h0| <= i < |h| ==> h[i] == Filled(g, d, rs, entries, i - |h0| + 1)
  }

  lemma FillStart(g: Geometry, d: Disk, rs: seq<Ref>, entries: seq<seq<byte>>, h0: seq<Disk>)
    requires |entries| <= |rs|
    ensures FillStates(g, d, rs, entries, h0, h0, 0) && Filled(g, d, rs, entries, 0) == d
  {
  }

  lemma FillStep(g: Geometry, d: Disk, rs: seq<Ref>, entries: seq<seq<byte>>, h0: seq<Disk>, h: seq<Disk>, n: nat, d1: Disk)
    requires n < |entries| <= |rs| && |entries[n]| == 32 && FillStates(g, d, rs, entries, h0, h, n)
    requires HasEntry(g, Filled(g, d, rs, entries, n), rs[n]) && d1 == WithEntry(g, Filled(g, d, rs, entries, n), rs[n], entries[n])
    ensures d1 == Filled(g, d, rs, entries, n + 1) && FillStates(g, d, rs, entries, h0, h + [d1], n + 1)
  {
    hide WithEntry, HasEntry;
  }

  lemma OnlyMore(g: Geometry, d: Disk, d1: Disk, now: map<Ref, seq<nat>>, some: seq<Ref>, places: seq<Ref>)
    requires OnlyPlaces(g, d, d1, now, some) && some <= places
    ensures OnlyPlaces(g, d, d1, now, places)
  {
    hide Slots, EntryBytes, HasEntry;
    assert forall r :: r in some ==> r in places;
    forall p | p in now
      ensures Outside(g, d, d1, Slots(g, now[p]), places)
    {
      assert Outside(g, d, d1, Slots(g, now[p]), some);
    }
  }

  lemma OnlyNone(g: Geometry, d: Disk, now: map<Ref, seq<nat>>, places: seq<Ref>)
    requires ValidDisk(g, d)
    ensures OnlyPlaces(g, d, d, now, places)
  {
    hide Slots, ValidDisk;
    forall p | p in now
      ensures ListsKept(g, d, d, now)
    {
    }
    ListsOnly(g, d, d, now, places);
  }

  /** A write to the first places leaves the one behind them. */
  lemma LastKept(g: Geometry, d: Disk, d1: Disk, now: map<Ref, seq<nat>>, q: Ref, base: nat, places: seq<Ref>, need: nat)
    requires Consistent(g, d, now) && Laid(g, d, now, q, base, places) && need < |places| && OnlyPlaces(g, d, d1, now, places[..need])
    ensures EndMark(g, d, places[need]) ==> EndMark(g, d1, places[need])
  {
    hide Consistent, Slots, Open, DirectoryRef, EndMark;
    var slots := Slots(g, now[q]);
    assert Outside(g, d, d1, slots, places[..need]);
    assert places[need] == slots[base + need];
    if places[need] in places[..need] {
      var i :| 0 <= i < need && places[i] == places[need];
      LaidApart(g, d, now, q, base, places, i, need);
      assert false;
    }
    SameEnd(g, d, d1, slots, places[..need], base + need);
  }

  lemma ListsSame(g: Geometry, d: Disk, d1: Disk, slots: seq<Ref>, k: nat)
    requires SameBytes(g, d, d1, slots) && Lists(g, d1, slots, k)
    ensures Lists(g, d, slots, k)
  {
    hide Open, SectorBytes, LiveEntry;
    SameBytesOpen(g, d, d1, slots, k + 1);
  }

  /** One of the places holds what looks like an object. */
  ghost predicate Stale(g: Geometry, d: Disk, places: seq<Ref>, need: nat) {
    exists j :: 0 <= j < need && j < |places| && HasEntry(g, d, places[j]) && LiveEntry(EntryBytes(g, d, places[j]))
  }

  /** After n placeholder writes listing the directory shows an object in one of the places. */
  ghost predicate Exposes(g: Geometry, d: Disk, now: map<Ref, seq<nat>>, q: Ref, base: nat, places: seq<Ref>, need: nat, n: nat)
    requires q in now && n <= need <= |places|
  {
    exists k: nat :: base <= k < base + need && Lists(g, Filled(g, d, places, Placeholders(need), n), Slots(g, now[q]), k)
  }

  lemma ExposedIsStale(g: Geometry, d: Disk, now: map<Ref, seq<nat>>, q: Ref, base: nat, places: seq<Ref>, need: nat, n: nat)
    requires Consistent(g, d, now) && Laid(g, d, now, q, base, places) && n <= need <= |places| && Exposes(g, d, now, q, base, places, need, n)
    ensures Stale(g, d, places, need)
  {
    hide Consistent, Slots, DirectoryRef, EntryBytes, HasEntry, Open, Filled, Placeholders;
    var slots := Slots(g, now[q]);
    var k: nat :| base <= k < base + need && Lists(g, Filled(g, d, places, Placeholders(need), n), slots, k);
    FilledIs(g, d, now, q, base, places, need, n);
    assert places[k - base] == slots[k];
  }

  lemma StaleExposed(g: Geometry, d: Disk, now: map<Ref, seq<nat>>, q: Ref, base: nat, places: seq<Ref>, need: nat, j: nat)
    requires Consistent(g, d, now) && Laid(g, d, now, q, base, places) && j < need <= |places|
    requires HasEntry(g, d, places[j]) && LiveEntry(EntryBytes(g, d, places[j]))
    ensures Exposes(g, d, now, q, base, places, need, j)
  {
    hide Consistent, Slots, DirectoryRef, EntryBytes, HasEntry, Filled, Placeholders;
    var slots, d1 := Slots(g, now[q]), Filled(g, d, places, Placeholders(need), j);
    FilledIs(g, d, now, q, base, places, need, j);
    assert places[j] == slots[base + j];
    forall x | 0 <= x < base + j + 1
      ensures !EndMark(g, d1, slots[x])
    {
    }
    assert Lists(g, d1, slots, base + j);
  }

  /**
   The placeholders are written from the first place on, so between two of the writes a stale entry behind the end
   mark shows; none ever does exactly when no place looks like an object.
   */
  lemma StaleExactly(g: Geometry, d: Disk, now: map<Ref, seq<nat>>, q: Ref, base: nat, places: seq<Ref>, need: nat)
    requires Consistent(g, d, now) && Laid(g, d, now, q, base, places) && need <= |places|
    ensures (forall n: nat :: n <= need ==> !Exposes(g, d, now, q, base, places, need, n)) <==> !Stale(g, d, places, need)
  {
    hide Consistent, Slots, Open, DirectoryRef, EntryBytes, HasEntry, LiveEntry, Exposes;
    if Stale(g, d, places, need) {
      var j :| 0 <= j < need && j < |places| && HasEntry(g, d, places[j]) && LiveEntry(EntryBytes(g, d, places[j]));
      StaleExposed(g, d, now, q, base, places, need, j);
    } else {
      forall n: nat | n <= need
        ensures !Exposes(g, d, now, q, base, places, need, n)
      {
        if Exposes(g, d, now, q, base, places, need, n) {
          ExposedIsStale(g, d, now, q, base, places, need, n);
        }
      }
    }
  }
}
