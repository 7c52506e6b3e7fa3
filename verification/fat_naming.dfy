/**
 A directory in which an object is being named: how the places for a name are found in a directory
 that may have grown, and what listing shows once the name is there.
 */
module FatNaming {
  import opened Basics
  import opened FatDisk
  import opened FatSlots
  import opened FatChains
  import opened FatCrash
  import opened FatGrowth
  import opened FatSearch
  import opened FatQuiet
  import FatNames
  import FatListing
  import FatLookup

  /** now is files but for more clusters at the end of directory q. */
  ghost predicate Longer(files: map<Ref, seq<nat>>, now: map<Ref, seq<nat>>, q: Ref) {
    q in files && q in now && files[q] <= now[q] && now == files[q := now[q]]
  }

  lemma LongerMore(files: map<Ref, seq<nat>>, now: map<Ref, seq<nat>>, q: Ref, c: nat)
    requires Longer(files, now, q)
    ensures Longer(files, now[q := now[q] + [c]], q)
  {
  }

  /** At most two clusters have been added, and the first of them starts with an end mark. */
  ghost predicate Marked(g: Geometry, d: Disk, was: seq<nat>, ch: seq<nat>) {
    && was <= ch && |ch| <= |was| + 2
    && (|was| < |ch| ==> |ChainSlots(g, was)| < |ChainSlots(g, ch)| && EndMark(g, d, ChainSlots(g, ch)[|ChainSlots(g, was)|]))
  }

  lemma MarkedSize(g: Geometry, d: Disk, was: seq<nat>, ch: seq<nat>)
    requires Marked(g, d, was, ch)
    ensures was <= ch && |ch| <= |was| + 2
  {
  }

  lemma MarkedSame(g: Geometry, d: Disk, ch: seq<nat>)
    ensures Marked(g, d, ch, ch)
  {
  }

  lemma MarkedRoom(g: Geometry, d: Disk, was: seq<nat>, ch: seq<nat>, x: Search, need: nat)
    requires ValidGeometry(g) && Marked(g, d, was, ch) && Searching(g, d, ChainSlots(g, ch), x, need) && !Enough(x, need) && need <= 21
    ensures |ch| <= |was| + 1
  {
    hide Searching, EndMark, ChainSlots;
    if |was| < |ch| {
      GrowthBound(g, d, was, ch, x, need);
    }
  }

  lemma MarkedMore(g: Geometry, d: Disk, d1: Disk, was: seq<nat>, ch: seq<nat>, c: nat)
    requires ValidGeometry(g) && ValidDisk(g, d1) && Marked(g, d, was, ch) && |ch| <= |was| + 1 && ch != []
    requires SameBytes(g, d, d1, ChainSlots(g, ch)) && SectorBytes(g, d1, Data(c, 0)) == Zeros(g.sector)
    ensures Marked(g, d1, was, ch + [c])
  {
    hide SectorBytes, ValidDisk;
    ZeroEnds(g, d1, ch, c);
    ChainSlotsGrow(g, ch + [c], |ch|);
    assert (ch + [c])[..|ch|] == ch;
    if |was| == |ch| {
      assert was == ch;
    }
  }

  lemma RoomSize(g: Geometry, d: Disk, now: map<Ref, seq<nat>>, q: Ref, base: nat, places: seq<Ref>, need: nat, end: bool)
    requires Room(g, d, now, q, base, places, need, end)
    ensures |places| == need + (if end then 1 else 0)
  {
  }

  lemma RoomPlaces(g: Geometry, d: Disk, now: map<Ref, seq<nat>>, q: Ref, base: nat, places: seq<Ref>, need: nat, end: bool)
    requires Room(g, d, now, q, base, places, need, end)
    ensures |places| == need + (if end then 1 else 0) && AllFree(g, d, now, places) && Laid(g, d, now, q, base, places)
  {
  }

  lemma RoomSame(g: Geometry, d: Disk, d1: Disk, now: map<Ref, seq<nat>>, q: Ref, base: nat, places: seq<Ref>, need: nat, end: bool)
    requires Room(g, d, now, q, base, places, need, end) && DirsKept(g, d, d1, now) && ListsKept(g, d, d1, now)
    requires ValidDisk(g, d) && ValidDisk(g, d1)
    ensures Room(g, d1, now, q, base, places, need, end)
  {
    hide DirsKept, ListsKept, AllFree, Open, Slots, ValidDisk, Holds, Vacant, SameBytes;
    HoldsNone(g, d, places);
    LaidSame(g, d, d1, now, q, base, places, []);
    AllFreeStay(g, d, d1, now, places);
    ListAt(g, d, d1, now, q);
    SameBytesOpen(g, d, d1, Slots(g, now[q]), base + |places|);
    forall k | base <= k < base + |places|
      ensures Vacant(g, d1, Slots(g, now[q]), k)
    {
      VacantSame(g, d, d1, Slots(g, now[q]), k);
    }
  }

  lemma ListAt(g: Geometry, d: Disk, d1: Disk, now: map<Ref, seq<nat>>, q: Ref)
    requires ListsKept(g, d, d1, now) && q in now
    ensures SameBytes(g, d, d1, Slots(g, now[q]))
  {
  }

  lemma FirstIsCluster(g: Geometry, d: Disk, files: map<Ref, seq<nat>>, q: Ref)
    requires Consistent(g, d, files) && q in files && files[q] != []
    ensures files[q][0] >= 2
  {
    hide EntryOk, Housed;
  }

  lemma NameEntries(name: seq<byte>)
    requires FatNames.ValidName(name)
    ensures 1 <= FatNames.Entries(|name|) <= 20
  {
  }

  /** The name of a new object: its long-name entries and its short entry side by side, all listed. */
  ghost predicate Named(g: Geometry, d: Disk, slots: seq<Ref>, base: nat, name: seq<byte>, short: seq<byte>, directory: bool, ch: seq<nat>,
                        place: Ref)
    requires FatNames.ValidName(name) && |short| == 11
  {
    NameEntries(name);
    var n := FatNames.Entries(|name|);
    && base + n < |slots| && slots[base + n] == place && Open(g, d, slots, base + n + 1)
    && Holds(g, d, slots[base..base + n + 1],
             FatNames.Written(name, FatNames.Checksum(short, 11), n, n) + [ShortEntry(short, directory, if ch == [] then 0 else ch[0])])
  }

  ghost function EntriesAt(g: Geometry, d: Disk, slots: seq<Ref>, base: nat, n: nat): seq<seq<byte>>
    requires base + n <= |slots| && forall i :: base <= i < base + n ==> HasEntry(g, d, slots[i])
  {
    seq(n, i requires 0 <= i < n => EntryBytes(g, d, slots[base + i]))
  }

  /** Whatever a listing has read before, it reads the entries of a new object as its name. */
  lemma NameReads(g: Geometry, d: Disk, slots: seq<Ref>, base: nat, name: seq<byte>, short: seq<byte>, directory: bool, ch: seq<nat>,
                  place: Ref, x: FatNames.Decoder)
    requires FatNames.ValidName(name) && |short| == 11 && Named(g, d, slots, base, name, short, directory, ch, place)
    requires |x.name| == FatNames.NAME_MAX + 1
    ensures var n := FatNames.Entries(|name|);
      && base + n < |slots| && (forall i :: base <= i < base + n ==> HasEntry(g, d, slots[i]))
      && (forall i :: 0 <= i < n ==> |EntriesAt(g, d, slots, base, n)[i]| == 32)
      && var z := FatNames.Decode(x, EntriesAt(g, d, slots, base, n));
      && FatNames.HasLong(z, short) && FatNames.Text(z.name) == name
  {
    hide FatNames.ValidName, FatNames.Entries, FatNames.Written, FatNames.Decode, FatNames.HasLong, FatNames.Text, EntryBytes, HasEntry,
      ShortEntry, Open, FatNames.Checksum;
    var n := FatNames.Entries(|name|);
    NameEntries(name);
    FatNames.LongNameRoundTrip(x, name, short);
    var longs := FatNames.Written(name, FatNames.Checksum(short, 11), n, n);
    var part := slots[base..base + n + 1];
    forall i | base <= i < base + n
      ensures HasEntry(g, d, slots[i]) && EntryBytes(g, d, slots[i]) == longs[i - base]
    {
      assert part[i - base] == slots[i];
    }
    assert EntriesAt(g, d, slots, base, n) == longs;
  }

  lemma ShortHead(short: seq<byte>, directory: bool, first: nat)
    requires |short| == 11
    ensures ShortEntry(short, directory, first)[0] == short[0]
  {
  }

  lemma NamedNow(g: Geometry, d: Disk, now: map<Ref, seq<nat>>, q: Ref, base: nat, places: seq<Ref>, name: seq<byte>, short: seq<byte>,
                 directory: bool, ch: seq<nat>, longs: seq<seq<byte>>)
    requires FatNames.ValidName(name) && |short| == 11 && short[0] != 0 && FatNames.Entries(|name|) <= 20 && FatNames.Entries(|name|) < |places|
    requires longs == FatNames.Written(name, FatNames.Checksum(short, 11), FatNames.Entries(|name|), FatNames.Entries(|name|))
    requires Laid(g, d, now, q, base, places)
    requires Holds(g, d, places, longs + [ShortEntry(short, directory, if ch == [] then 0 else ch[0])])
    ensures Named(g, d, Slots(g, now[q]), base, name, short, directory, ch, places[FatNames.Entries(|name|)])
  {
    hide Slots, DirectoryRef, FatNames.ValidName, FatNames.Written, FatNames.Entries, Holds, Open, ShortEntry;
    var n, slots := FatNames.Entries(|name|), Slots(g, now[q]);
    var last := ShortEntry(short, directory, if ch == [] then 0 else ch[0]);
    ShortHead(short, directory, if ch == [] then 0 else ch[0]);
    FatListing.WrittenHeads(name, FatNames.Checksum(short, 11), n, n);
    NameEntries(name);
    var entries := longs + [last];
    FilledReach(g, d, now, q, base, places, entries);
    var part := slots[base..base + n + 1];
    assert part == places[..n + 1];
    HoldsPart(g, d, places, part, entries);
    assert slots[base + n] == places[n];
  }

  lemma UpheldDirectory(g: Geometry, d0: Disk, files: map<Ref, seq<nat>>, d: Disk, now: map<Ref, seq<nat>>, p: Ref)
    requires Upheld(g, d0, files, d, now) && p in files && DirectoryRef(g, d0, p)
    ensures p in now && DirectoryRef(g, d, p)
  {
    hide Consistent, IsDirectory, EntryBytes, ReadFile;
    ConsistentDisk(g, d, now);
    assert Stays(g, d0, files[p], d, now, p);
  }

  lemma NamedKind(g: Geometry, d: Disk, slots: seq<Ref>, base: nat, name: seq<byte>, short: seq<byte>, directory: bool, ch: seq<nat>, place: Ref)
    requires FatNames.ValidName(name) && |short| == 11 && short[0] != 0 && short[0] != 0xe5
    requires Named(g, d, slots, base, name, short, directory, ch, place)
    ensures DirectoryRef(g, d, place) <==> directory
  {
    hide FatNames.ValidName, FatNames.Entries, FatNames.Written, EntryBytes, ShortEntry, Open, IsDirectory, LiveEntry, FirstCluster, FileSize;
    var n := FatNames.Entries(|name|);
    NameEntries(name);
    FatListing.WrittenHeads(name, FatNames.Checksum(short, 11), n, n);
    ShortKind(short, directory, if ch == [] then 0 else ch[0]);
    assert slots[base..base + n + 1][n] == place;
  }

  lemma ShortKind(short: seq<byte>, directory: bool, first: nat)
    requires |short| == 11
    ensures IsDirectory(ShortEntry(short, directory, first)) <==> directory
  {
  }

  /** Places that nobody saw before show nothing but the new object. */
  lemma QuietNow(g: Geometry, d0: Disk, files: map<Ref, seq<nat>>, d: Disk, start: map<Ref, seq<nat>>, q: Ref, base: nat, places: seq<Ref>,
                 end: bool, d1: Disk, name: seq<byte>, short: seq<byte>, directory: bool, ch: seq<nat>, place: Ref)
    requires FatNames.ValidName(name) && |short| == 11 && Upheld(g, d0, files, d, start) && Longer(files, start, q)
    requires Marked(g, d, files[q], start[q]) && (files[q] == [] ==> start == files) && ListsKept(g, d0, d, files)
    requires Room(g, d, start, q, base, places, FatNames.Entries(|name|) + 1, end) && OnlyPlaces(g, d, d1, start, places)
    requires FatNames.Entries(|name|) + 1 <= |places| && (end ==> FatNames.Entries(|name|) + 1 < |places| && EndMark(g, d1, places[FatNames.Entries(|name|) + 1]))
    requires Named(g, d1, Slots(g, start[q]), base, name, short, directory, ch, place) && place !in start
    ensures Quiet(g, d0, files, d1, start[place := ch])
  {
    hide Upheld, Slots, DirectoryRef, ListsKept, Marked, Room, OnlyPlaces, EndMark, Named, Open, HasEntry, EntryBytes, LiveEntry, FatNames.ValidName,
      FatNames.Entries;
    var now := start[place := ch];
    forall p, k: nat | p in files && DirectoryRef(g, d0, p) && p in now && Lists(g, d1, Slots(g, now[p]), k)
      ensures (Slots(g, now[p])[k] in now && Slots(g, now[p])[k] !in files) || (Slots(g, files[p]) <= Slots(g, now[p]) && Lists(g, d0, Slots(g, files[p]), k))
    {
      UpheldDirectory(g, d0, files, d, start, p);
      UpheldConsistent(g, d0, files, d, start);
      RoomPlaces(g, d, start, q, base, places, FatNames.Entries(|name|) + 1, end);
      if p != q {
        QuietOther(g, d, start, q, base, places, d1, p, k);
        ListAt(g, d0, d, files, p);
        ListsSame(g, d0, d, Slots(g, files[p]), k);
      } else {
        QuietPlace(g, d0, files, d, start, q, base, places, end, d1, name, short, directory, ch, place, k);
      }
    }
  }

  /** What was listed still is. */
  lemma RetainedNow(g: Geometry, d0: Disk, files: map<Ref, seq<nat>>, d: Disk, start: map<Ref, seq<nat>>, q: Ref, base: nat, places: seq<Ref>,
                    end: bool, d1: Disk, name: seq<byte>, short: seq<byte>, directory: bool, ch: seq<nat>, place: Ref)
    requires FatNames.ValidName(name) && |short| == 11 && Upheld(g, d0, files, d, start) && Longer(files, start, q)
    requires (files[q] == [] ==> start == files) && ListsKept(g, d0, d, files)
    requires Room(g, d, start, q, base, places, FatNames.Entries(|name|) + 1, end) && OnlyPlaces(g, d, d1, start, places)
    requires Named(g, d1, Slots(g, start[q]), base, name, short, directory, ch, place) && place !in start
    ensures Retained(g, d0, files, d1, start[place := ch])
  {
    hide Upheld, Slots, DirectoryRef, ListsKept, Room, OnlyPlaces, Named, Open, Lists, StillLists, FatNames.ValidName, FatNames.Entries, Consistent;
    var now := start[place := ch];
    forall p, k: nat | p in files && DirectoryRef(g, d0, p) && p in now && Lists(g, d0, Slots(g, files[p]), k)
      ensures Slots(g, files[p]) <= Slots(g, now[p]) && StillLists(g, d0, d1, Slots(g, now[p]), k)
    {
      UpheldDirectory(g, d0, files, d, start, p);
      UpheldConsistent(g, d0, files, d, start);
      LongerSlots(g, files, start, q, p);
      ListAt(g, d0, d, files, p);
      StillSame(g, d0, d, Slots(g, files[p]), Slots(g, start[p]), k);
      StillIs(g, d0, d, Slots(g, start[p]), k);
      if p != q {
        RoomPlaces(g, d, start, q, base, places, FatNames.Entries(|name|) + 1, end);
        StillOther(g, d, start, q, base, places, d1, p, k);
        StillJoin(g, d0, d, d1, Slots(g, start[p]), k);
      } else {
        NamedOpen(g, d1, Slots(g, start[q]), base, name, short, directory, ch, place);
        StillHere(g, d, start, q, base, places, FatNames.Entries(|name|) + 1, end, d1, k);
        StillJoin(g, d0, d, d1, Slots(g, start[p]), k);
      }
    }
  }

  lemma StillIs(g: Geometry, d: Disk, d1: Disk, slots: seq<Ref>, k: nat)
    requires StillLists(g, d, d1, slots, k)
    ensures Lists(g, d1, slots, k)
  {
    hide Lists;
  }

  lemma StillJoin(g: Geometry, a: Disk, b: Disk, c: Disk, slots: seq<Ref>, k: nat)
    requires StillLists(g, a, b, slots, k) && StillLists(g, b, c, slots, k)
    ensures StillLists(g, a, c, slots, k)
  {
    hide Open, EntryBytes, HasEntry, LiveEntry;
  }

  lemma NamedOpen(g: Geometry, d: Disk, slots: seq<Ref>, base: nat, name: seq<byte>, short: seq<byte>, directory: bool, ch: seq<nat>, place: Ref)
    requires FatNames.ValidName(name) && |short| == 11 && Named(g, d, slots, base, name, short, directory, ch, place)
    ensures Open(g, d, slots, base + FatNames.Entries(|name|) + 1)
  {
    hide Open, Holds, FatNames.ValidName, FatNames.Entries, FatNames.Written;
  }

  lemma LongerSlots(g: Geometry, files: map<Ref, seq<nat>>, now: map<Ref, seq<nat>>, q: Ref, p: Ref)
    requires Longer(files, now, q) && (files[q] == [] ==> now == files) && p in files
    ensures p in now && Slots(g, files[p]) <= Slots(g, now[p])
  {
    hide Slots;
    if p == q && files[q] != [] {
      SlotsPrefix(g, files[q], now[q]);
    }
  }

  lemma UpheldConsistent(g: Geometry, d0: Disk, files: map<Ref, seq<nat>>, d: Disk, now: map<Ref, seq<nat>>)
    requires Upheld(g, d0, files, d, now)
    ensures Consistent(g, d, now)
  {
    hide Consistent, Stays;
  }

  lemma QuietPlace(g: Geometry, d0: Disk, files: map<Ref, seq<nat>>, d: Disk, start: map<Ref, seq<nat>>, q: Ref, base: nat, places: seq<Ref>,
                   end: bool, d1: Disk, name: seq<byte>, short: seq<byte>, directory: bool, ch: seq<nat>, place: Ref, k: nat)
    requires FatNames.ValidName(name) && |short| == 11 && Consistent(g, d, start) && Longer(files, start, q)
    requires Marked(g, d, files[q], start[q]) && (files[q] == [] ==> start == files) && ListsKept(g, d0, d, files)
    requires Room(g, d, start, q, base, places, FatNames.Entries(|name|) + 1, end) && OnlyPlaces(g, d, d1, start, places)
    requires FatNames.Entries(|name|) + 1 <= |places| && (end ==> FatNames.Entries(|name|) + 1 < |places| && EndMark(g, d1, places[FatNames.Entries(|name|) + 1]))
    requires Named(g, d1, Slots(g, start[q]), base, name, short, directory, ch, place)
    requires Lists(g, d1, Slots(g, start[q]), k)
    ensures k < |Slots(g, start[q])|
    ensures Slots(g, start[q])[k] == place || (Slots(g, files[q]) <= Slots(g, start[q]) && Lists(g, d0, Slots(g, files[q]), k))
  {
    hide Consistent, Slots, DirectoryRef, ListsKept, Marked, Room, OnlyPlaces, EndMark, Named, Lists, FatNames.ValidName, FatNames.Entries;
    var n := FatNames.Entries(|name|);
    ListedNumber(g, d1, Slots(g, start[q]), k);
    if base <= k < base + n + 1 {
      NamedLists(g, d1, Slots(g, start[q]), base, name, short, directory, ch, place, k);
    } else {
      QuietHere(g, d, start, q, base, places, n + 1, end, d1, k);
      MarkedLists(g, d, files[q], start[q], k);
      ListAt(g, d0, d, files, q);
      ListsSame(g, d0, d, Slots(g, files[q]), k);
    }
  }

  lemma ListedNumber(g: Geometry, d: Disk, slots: seq<Ref>, k: nat)
    requires Lists(g, d, slots, k)
    ensures k < |slots|
  {
  }

  /** What an added cluster starts with ends the listing. */
  lemma MarkedLists(g: Geometry, d: Disk, was: seq<nat>, ch: seq<nat>, k: nat)
    requires Marked(g, d, was, ch) && (was == [] ==> ch == []) && Lists(g, d, Slots(g, ch), k)
    ensures Slots(g, was) <= Slots(g, ch) && Lists(g, d, Slots(g, was), k)
  {
    hide ChainSlots, EndMark, HasEntry, EntryBytes, LiveEntry, RootSlots;
    if was != [] {
      SlotsPrefix(g, was, ch);
      assert |was| == |ch| ==> was == ch;
      if k >= |Slots(g, was)| {
        assert false;
      }
    }
  }

  /** Among the entries of a name only the last one is an object. */
  lemma NamedLists(g: Geometry, d: Disk, slots: seq<Ref>, base: nat, name: seq<byte>, short: seq<byte>, directory: bool, ch: seq<nat>,
                   place: Ref, k: nat)
    requires FatNames.ValidName(name) && |short| == 11 && Named(g, d, slots, base, name, short, directory, ch, place)
    requires Lists(g, d, slots, k) && base <= k < base + FatNames.Entries(|name|) + 1
    ensures slots[k] == place
  {
    hide FatNames.ValidName, FatNames.Entries, FatNames.Written, EntryBytes, HasEntry, ShortEntry, Open;
    var n := FatNames.Entries(|name|);
    NameEntries(name);
    FatListing.WrittenHeads(name, FatNames.Checksum(short, 11), n, n);
    assert slots[base..base + n + 1][k - base] == slots[k];
    if k < base + n {
      assert false;
    }
  }

  lemma ListsFewer(g: Geometry, d: Disk, d1: Disk, now: map<Ref, seq<nat>>, r: Ref, ch: seq<nat>)
    requires ListsKept(g, d, d1, now[r := ch]) && r !in now
    ensures ListsKept(g, d, d1, now)
  {
    hide SameBytes, Slots;
    forall q | q in now
      ensures SameBytes(g, d, d1, Slots(g, now[q]))
    {
      assert q in now[r := ch] && now[r := ch][q] == now[q];
    }
  }

  /** The same directories, one of them shorter. */
  lemma ListsShorter(g: Geometry, d: Disk, d1: Disk, files: map<Ref, seq<nat>>, now: map<Ref, seq<nat>>, q: Ref)
    requires ListsKept(g, d, d1, now) && Longer(files, now, q) && files[q] != []
    ensures ListsKept(g, d, d1, files)
  {
    hide Slots, SectorBytes;
    forall p | p in files
      ensures SameBytes(g, d, d1, Slots(g, files[p]))
    {
      assert SameBytes(g, d, d1, Slots(g, now[p]));
      if p == q {
        SlotsPrefix(g, files[q], now[q]);
      }
    }
  }

  lemma SlotsPrefix(g: Geometry, a: seq<nat>, b: seq<nat>)
    requires a <= b && a != []
    ensures Slots(g, a) <= Slots(g, b)
  {
    hide ChainSlots;
    ChainSlotsGrow(g, b, |a|);
    assert b[..|a|] == a;
  }

  lemma FillPrefix(g: Geometry, d: Disk, rs: seq<Ref>, entries: seq<seq<byte>>, h0: seq<Disk>, h: seq<Disk>, n: nat)
    requires n <= |entries| <= |rs| && FillStates(g, d, rs, entries, h0, h, n)
    ensures |h| == |h0| + n && h[..|h| - n] == h0
  {
    hide Filled;
  }

  lemma ZeroIsEnd(g: Geometry, d: Disk, r: Ref)
    requires ValidDisk(g, d) && HasEntry(g, d, r)
    ensures EndMark(g, WithEntry(g, d, r, Zeros(32)), r)
  {
    hide WithEntry, EntryBytes;
    WithEntryOthers(g, d, r, Zeros(32), r);
  }

  lemma HoldsNone(g: Geometry, d: Disk, places: seq<Ref>)
    ensures Holds(g, d, places, [])
  {
  }

  lemma SameSector(g: Geometry, d: Disk, d1: Disk, a: Addr)
    requires d1.sectors == d.sectors
    ensures SectorBytes(g, d1, a) == SectorBytes(g, d, a)
  {
  }

  lemma SectorsDirs(g: Geometry, d: Disk, d1: Disk, q: Ref)
    requires d1.sectors == d.sectors && DirectoryRef(g, d, q)
    ensures DirectoryRef(g, d1, q)
  {
    hide IsDirectory;
  }

  lemma {:induction false} ClusterHead(g: Geometry, d: Disk, c: nat, n: nat)
    requires ValidDisk(g, d) && n > 0
    ensures |ClusterPart(g, d, c, n)| >= g.sector && ClusterPart(g, d, c, n)[..g.sector] == SectorBytes(g, d, Data(c, 0))
  {
    assert |SectorBytes(g, d, Data(c, 0))| == g.sector;
    if n == 1 {
      assert ClusterPart(g, d, c, 0) == [];
    } else {
      ClusterHead(g, d, c, n - 1);
    }
  }

  /** A cluster of zeros starts with a sector of zeros. */
  lemma ZeroCluster(g: Geometry, d: Disk, c: nat)
    requires ValidGeometry(g) && ValidDisk(g, d) && ClusterBytes(g, d, c) == Zeros(ClusterSize(g))
    ensures SectorBytes(g, d, Data(c, 0)) == Zeros(g.sector)
  {
    ClusterHead(g, d, c, g.spc);
    assert forall i :: 0 <= i < g.sector ==> SectorBytes(g, d, Data(c, 0))[i] == ClusterPart(g, d, c, g.spc)[i];
  }

  lemma ValidSector(g: Geometry)
    requires ValidGeometry(g)
    ensures g.sector >= 512 && g.spc > 0
  {
  }

  // ---------------------------------------------------------------- what is listed

  lemma ViewSame(g: Geometry, d: Disk, d1: Disk, slots: seq<Ref>)
    requires SameBytes(g, d, d1, slots)
    ensures FatListing.View(g, d1, slots) == FatListing.View(g, d, slots)
  {
    hide SectorBytes;
  }

  lemma ViewPrefix(g: Geometry, d: Disk, slots: seq<Ref>, more: seq<Ref>)
    requires slots <= more
    ensures FatListing.View(g, d, slots) <= FatListing.View(g, d, more)
  {
    hide FatListing.At;
    assert forall k :: 0 <= k < |slots| ==> more[k] == slots[k];
  }

  /** A longer directory lists the same before anything is named in it. */
  lemma OldListing(g: Geometry, d0: Disk, files: map<Ref, seq<nat>>, d: Disk, start: map<Ref, seq<nat>>, q: Ref, p: Ref)
    requires Longer(files, start, q) && Marked(g, d, files[q], start[q]) && (files[q] == [] ==> start == files) && ListsKept(g, d0, d, files)
    requires p in files
    ensures FatListing.Directory(g, d, Slots(g, start[p])) == FatListing.Directory(g, d0, Slots(g, files[p]))
  {
    hide Slots, ListsKept, SameBytes, FatListing.View, FatListing.Listing, FatListing.At;
    var was, now := Slots(g, files[p]), Slots(g, start[p]);
    ListAt(g, d0, d, files, p);
    ViewSame(g, d0, d, was);
    LongerSlots(g, files, start, q, p);
    ViewPrefix(g, d, was, now);
    MarkedNext(g, d, files, start, q, p);
    FatListing.ListingLonger(was, FatListing.View(g, d, was), now, FatListing.View(g, d, now));
  }

  lemma MarkedNext(g: Geometry, d: Disk, files: map<Ref, seq<nat>>, start: map<Ref, seq<nat>>, q: Ref, p: Ref)
    requires Longer(files, start, q) && Marked(g, d, files[q], start[q]) && (files[q] == [] ==> start == files) && p in files
    ensures var was, now := Slots(g, files[p]), Slots(g, start[p]);
      |was| < |now| ==> FatListing.At(g, d, now[|was|])[0] == 0
  {
    hide ChainSlots, EntryBytes, HasEntry, RootSlots, RootSectors;
    if p == q && files[q] != [] {
      assert |files[q]| == |start[q]| ==> files[q] == start[q];
    }
  }

  lemma ViewOutside(g: Geometry, d: Disk, d1: Disk, slots: seq<Ref>, places: seq<Ref>, k: nat)
    requires Outside(g, d, d1, slots, places) && k < |slots| && slots[k] !in places
    ensures FatListing.At(g, d1, slots[k]) == FatListing.At(g, d, slots[k])
  {
    hide EntryBytes, HasEntry;
  }

  lemma OtherListing(g: Geometry, d: Disk, now: map<Ref, seq<nat>>, q: Ref, base: nat, places: seq<Ref>, d1: Disk, p: Ref)
    requires Consistent(g, d, now) && Laid(g, d, now, q, base, places) && OnlyPlaces(g, d, d1, now, places)
    requires p in now && DirectoryRef(g, d, p) && p != q
    ensures FatListing.Directory(g, d1, Slots(g, now[p])) == FatListing.Directory(g, d, Slots(g, now[p]))
  {
    hide Consistent, Slots, DirectoryRef, Laid, Outside, FatListing.Listing, FatListing.At;
    var slots := Slots(g, now[p]);
    assert Outside(g, d, d1, slots, places);
    forall k | 0 <= k < |slots|
      ensures FatListing.At(g, d1, slots[k]) == FatListing.At(g, d, slots[k])
    {
      NotAmong(g, d, now, q, base, places, p, k);
      ViewOutside(g, d, d1, slots, places, k);
    }
    assert FatListing.View(g, d1, slots) == FatListing.View(g, d, slots);
  }

  /** Entry places of a directory hold entries, and end marks are what they look like. */
  lemma ViewOpen(g: Geometry, d: Disk, ch: seq<nat>, n: nat)
    requires ValidDisk(g, d) && n <= |Slots(g, ch)|
    ensures FatListing.NoEnd(FatListing.View(g, d, Slots(g, ch)), n) <==> Open(g, d, Slots(g, ch), n)
  {
    hide Slots, ValidDisk, EntryBytes, HasEntry;
    var slots := Slots(g, ch);
    forall k | 0 <= k < |slots|
      ensures HasEntry(g, d, slots[k]) && FatListing.View(g, d, slots)[k] == EntryBytes(g, d, slots[k])
    {
      SlotEntry(g, d, ch, slots[k]);
    }
  }

  lemma RoomUnused(g: Geometry, d: Disk, now: map<Ref, seq<nat>>, q: Ref, base: nat, places: seq<Ref>, need: nat, end: bool)
    requires ValidDisk(g, d) && Room(g, d, now, q, base, places, need, end)
    ensures base + |places| <= |Slots(g, now[q])| && |places| == need + (if end then 1 else 0)
    ensures var es := FatListing.View(g, d, Slots(g, now[q]));
      FatListing.NoEnd(es, base) && FatListing.Unused(es, base, |places|) && (end <==> !FatListing.NoEnd(es, base + |places|))
  {
    hide Slots, ValidDisk, EntryBytes, HasEntry, AllFree, DirectoryRef, FatListing.NoEnd, Open;
    var slots := Slots(g, now[q]);
    var es := FatListing.View(g, d, slots);
    ViewOpen(g, d, now[q], base);
    ViewOpen(g, d, now[q], base + |places|);
    forall k | base <= k < base + |places|
      ensures es[k][0] == 0xe5 || !FatListing.NoEnd(es, k + 1)
    {
      assert Vacant(g, d, slots, k);
      ViewOpen(g, d, now[q], k + 1);
    }
  }

  lemma NamedSpelled(g: Geometry, d: Disk, slots: seq<Ref>, base: nat, name: seq<byte>, short: seq<byte>, directory: bool, ch: seq<nat>, place: Ref)
    requires FatNames.ValidName(name) && |short| == 11 && short[0] != 0 && short[0] != 0xe5
    requires Named(g, d, slots, base, name, short, directory, ch, place)
    ensures FatListing.Spelled(FatListing.View(g, d, slots), base, name, ShortEntry(short, directory, if ch == [] then 0 else ch[0]))
    ensures base + FatNames.Entries(|name|) < |slots| && slots[base + FatNames.Entries(|name|)] == place
  {
    hide FatNames.ValidName, FatNames.Entries, FatNames.Written, EntryBytes, ShortEntry, Open, LiveEntry, HasEntry, FatNames.Checksum;
    var n, first := FatNames.Entries(|name|), if ch == [] then 0 else ch[0];
    var last := ShortEntry(short, directory, first);
    NameEntries(name);
    ShortStart(short, directory, first);
    var longs := FatNames.Written(name, FatNames.Checksum(short, 11), n, n);
    FatListing.WrittenHeads(name, FatNames.Checksum(short, 11), n, n);
    var part := slots[base..base + n + 1];
    forall i | 0 <= i < n + 1
      ensures FatListing.View(g, d, slots)[base + i] == (longs + [last])[i]
    {
      assert part[i] == slots[base + i];
    }
    assert (longs + [last])[n] == last;
    assert forall i :: 0 <= i < n ==> (longs + [last])[i] == longs[i];
  }

  lemma ShortStart(short: seq<byte>, directory: bool, first: nat)
    requires |short| == 11 && short[0] != 0 && short[0] != 0xe5
    ensures ShortEntry(short, directory, first)[..11] == short && LiveEntry(ShortEntry(short, directory, first))
  {
  }

  /** The directory lists one name more, every other directory what it listed. */
  lemma ListingNow(g: Geometry, d0: Disk, files: map<Ref, seq<nat>>, d: Disk, start: map<Ref, seq<nat>>, q: Ref, base: nat, places: seq<Ref>,
                   end: bool, d1: Disk, name: seq<byte>, short: seq<byte>, directory: bool, ch: seq<nat>, place: Ref)
    requires FatNames.ValidName(name) && |short| == 11 && short[0] != 0 && short[0] != 0xe5 && Upheld(g, d0, files, d, start)
    requires Longer(files, start, q) && Marked(g, d, files[q], start[q]) && (files[q] == [] ==> start == files) && ListsKept(g, d0, d, files)
    requires Room(g, d, start, q, base, places, FatNames.Entries(|name|) + 1, end) && OnlyPlaces(g, d, d1, start, places)
    requires end ==> FatNames.Entries(|name|) + 1 < |places| && EndMark(g, d1, places[FatNames.Entries(|name|) + 1])
    requires Named(g, d1, Slots(g, start[q]), base, name, short, directory, ch, place)
    ensures FatListing.Adds(FatListing.Directory(g, d0, Slots(g, files[q])), FatListing.Directory(g, d1, Slots(g, start[q])), FatListing.Item(name, place))
    ensures forall p :: p in files && DirectoryRef(g, d0, p) && p != q ==>
      p in start && FatListing.Directory(g, d1, Slots(g, start[p])) == FatListing.Directory(g, d0, Slots(g, files[p]))
  {
    hide Upheld, Slots, DirectoryRef, ListsKept, Marked, Room, OnlyPlaces, EndMark, Named, FatNames.ValidName, FatNames.Entries, FatListing.Directory,
      Consistent, FatListing.Adds;
    UpheldConsistent(g, d0, files, d, start);
    RoomPlaces(g, d, start, q, base, places, FatNames.Entries(|name|) + 1, end);
    OldListing(g, d0, files, d, start, q, q);
    HereListing(g, d, start, q, base, places, end, d1, name, short, directory, ch, place);
    forall p | p in files && DirectoryRef(g, d0, p) && p != q
      ensures p in start && FatListing.Directory(g, d1, Slots(g, start[p])) == FatListing.Directory(g, d0, Slots(g, files[p]))
    {
      UpheldDirectory(g, d0, files, d, start, p);
      OldListing(g, d0, files, d, start, q, p);
      OtherListing(g, d, start, q, base, places, d1, p);
    }
  }

  lemma HereListing(g: Geometry, d: Disk, now: map<Ref, seq<nat>>, q: Ref, base: nat, places: seq<Ref>, end: bool, d1: Disk, name: seq<byte>,
                    short: seq<byte>, directory: bool, ch: seq<nat>, place: Ref)
    requires FatNames.ValidName(name) && |short| == 11 && short[0] != 0 && short[0] != 0xe5 && Consistent(g, d, now)
    requires Room(g, d, now, q, base, places, FatNames.Entries(|name|) + 1, end) && OnlyPlaces(g, d, d1, now, places)
    requires end ==> FatNames.Entries(|name|) + 1 < |places| && EndMark(g, d1, places[FatNames.Entries(|name|) + 1])
    requires Named(g, d1, Slots(g, now[q]), base, name, short, directory, ch, place)
    ensures FatListing.Adds(FatListing.Directory(g, d, Slots(g, now[q])), FatListing.Directory(g, d1, Slots(g, now[q])), FatListing.Item(name, place))
  {
    hide Slots, DirectoryRef, Room, Named, FatNames.ValidName, FatNames.Entries, FatListing.Adds, Consistent, FatListing.Listing, FatListing.At,
      FatListing.Spelled, FatListing.Unused, FatListing.NoEnd, Outside, Open, ShortEntry;
    RoomPlaces(g, d, now, q, base, places, FatNames.Entries(|name|) + 1, end);
    var slots, n := Slots(g, now[q]), FatNames.Entries(|name|);
    ConsistentDisk(g, d, now);
    RoomUnused(g, d, now, q, base, places, n + 1, end);
    NamedSpelled(g, d1, slots, base, name, short, directory, ch, place);
    var a, b := FatListing.View(g, d, slots), FatListing.View(g, d1, slots);
    assert Outside(g, d, d1, slots, places);
    forall k | 0 <= k < |slots| && !(base <= k < base + |places|)
      ensures a[k] == b[k]
    {
      if slots[k] in places {
        var i :| 0 <= i < |places| && places[i] == slots[k];
        LaidDistinct(g, d, now, q, base, places, k, i);
        assert false;
      }
      ViewOutside(g, d, d1, slots, places, k);
    }
    if end {
      assert places[n + 1] == slots[base + (n + 1)];
      EndSeen(g, d1, slots[base + n + 1]);
    }
    FatListing.NewListing(slots, a, b, base, name, ShortEntry(short, directory, if ch == [] then 0 else ch[0]), end);
  }

  lemma EndSeen(g: Geometry, d: Disk, r: Ref)
    requires EndMark(g, d, r)
    ensures FatListing.At(g, d, r)[0] == 0
  {
  }

  /** Looking for a name gives the new object for its own name and what it gave for every other. */
  ghost predicate NameAdded(g: Geometry, d0: Disk, was: seq<nat>, d: Disk, now: seq<nat>, name: seq<byte>, place: Ref) {
    var before, after := FatListing.Directory(g, d0, Slots(g, was)), FatListing.Directory(g, d, Slots(g, now));
    forall other: seq<byte> :: FatListing.Find(after, other) == if FatListing.SameName(other, name) then Some(place) else FatListing.Find(before, other)
  }

  lemma AddsName(g: Geometry, d0: Disk, was: seq<nat>, d: Disk, now: seq<nat>, name: seq<byte>, place: Ref)
    requires FatListing.Find(FatListing.Directory(g, d0, Slots(g, was)), name).None?
    requires FatListing.Adds(FatListing.Directory(g, d0, Slots(g, was)), FatListing.Directory(g, d, Slots(g, now)), FatListing.Item(name, place))
    ensures NameAdded(g, d0, was, d, now, name, place)
  {
    hide FatListing.Find, FatListing.SameName, FatListing.Inserted, FatListing.Directory, Slots;
    var before, after := FatListing.Directory(g, d0, Slots(g, was)), FatListing.Directory(g, d, Slots(g, now));
    var i: nat :| FatListing.Inserted(before, after, FatListing.Item(name, place), i);
    forall other: seq<byte>
      ensures FatListing.Find(after, other) == if FatListing.SameName(other, name) then Some(place) else FatListing.Find(before, other)
    {
      FatListing.FindInserted(before, after, FatListing.Item(name, place), i, other);
    }
  }

  /** Of the listed objects only the one at the place has the short name. */
  ghost predicate OnlyShort(g: Geometry, d: Disk, slots: seq<Ref>, short: seq<byte>, place: Ref) {
    forall k: nat :: Lists(g, d, slots, k) && EntryBytes(g, d, slots[k])[..11] == short ==> slots[k] == place
  }

  lemma ShortUnique(g: Geometry, d0: Disk, files: map<Ref, seq<nat>>, d: Disk, now: map<Ref, seq<nat>>, q: Ref, place: Ref, short: seq<byte>)
    requires ValidDisk(g, d0) && Quiet(g, d0, files, d, now) && Retained(g, d0, files, d, now) && q in files && DirectoryRef(g, d0, q)
    requires q in now && (forall r :: r in now ==> r in files || r == place) && !FatLookup.Taken(FatListing.View(g, d0, Slots(g, files[q])), short)
    ensures OnlyShort(g, d, Slots(g, now[q]), short, place)
  {
    hide Slots, DirectoryRef, FatListing.View, FatLookup.Taken, HasEntry, EntryBytes, LiveEntry, Open;
    var slots, was := Slots(g, now[q]), Slots(g, files[q]);
    forall k: nat | Lists(g, d, slots, k) && EntryBytes(g, d, slots[k])[..11] == short
      ensures slots[k] == place
    {
      if slots[k] in now && slots[k] !in files {
      } else {
        assert Lists(g, d0, was, k) && was <= slots;
        assert StillLists(g, d0, d, slots, k);
        assert was[k] == slots[k];
        ShortSeen(g, d0, files[q], k, short);
        assert false;
      }
    }
  }

  lemma ShortSeen(g: Geometry, d: Disk, ch: seq<nat>, k: nat, short: seq<byte>)
    requires ValidDisk(g, d) && Lists(g, d, Slots(g, ch), k) && EntryBytes(g, d, Slots(g, ch)[k])[..11] == short
    ensures FatLookup.Taken(FatListing.View(g, d, Slots(g, ch)), short)
  {
    hide Slots, EntryBytes, HasEntry, LiveEntry, FatListing.NoEnd, Open, ValidDisk;
    var e := EntryBytes(g, d, Slots(g, ch)[k]);
    ViewOpen(g, d, ch, k + 1);
    FatListing.LiveHead(e);
    assert FatListing.View(g, d, Slots(g, ch))[k] == e;
  }

  // ---------------------------------------------------------------- a replacement shows in no listing

  ghost predicate SameListings(g: Geometry, d0: Disk, files: map<Ref, seq<nat>>, d: Disk) {
    forall q :: q in files && DirectoryRef(g, d0, q) ==>
      FatListing.Directory(g, d, Slots(g, files[q])) == FatListing.Directory(g, d0, Slots(g, files[q]))
  }

  lemma WithEntryView(g: Geometry, d: Disk, r: Ref, e: seq<byte>, slots: seq<Ref>, k: nat)
    requires ValidDisk(g, d) && HasEntry(g, d, r) && |e| == 32 && LiveEntry(e) && LiveEntry(EntryBytes(g, d, r)) && e[..11] == EntryBytes(g, d, r)[..11]
    requires k < |slots|
    ensures FatListing.Renewed(FatListing.At(g, d, slots[k]), FatListing.At(g, WithEntry(g, d, r, e), slots[k]))
  {
    hide WithEntry, EntryBytes, HasEntry, LiveEntry;
    WithEntryHas(g, d, r, e, slots[k]);
    if HasEntry(g, d, slots[k]) {
      WithEntryOthers(g, d, r, e, slots[k]);
    }
  }

  lemma ReplacedListings(g: Geometry, b: Disk, files: map<Ref, seq<nat>>, d: Disk, r: Ref, ch: seq<nat>, e: seq<byte>, d2: Disk)
    requires Consistent(g, b, files) && Phase(g, b, files, d) && Replaceable(g, d, files, r, ch, e) && e[..11] == EntryBytes(g, d, r)[..11]
    requires Phase(g, WithEntry(g, d, r, e), files[r := ch], d2)
    ensures SameListings(g, b, files, d2)
  {
    hide Consistent, Phase, Slots, ListsKept, SameBytes, EntryBytes, LiveEntry, IsDirectory, FileSize, FirstCluster, IsChain, HasEntry, WithEntry,
      FatListing.Listing, FatListing.At, FatListing.Renewed, EntryOk, Housed;
    PhaseConsistent(g, b, files, d);
    ObjectOk(g, d, files, r);
    ObjectLive(g, d, files, r);
    PhaseLists(g, b, files, d);
    PhaseLists(g, WithEntry(g, d, r, e), files[r := ch], d2);
    forall q | q in files && DirectoryRef(g, b, q)
      ensures FatListing.Directory(g, d2, Slots(g, files[q])) == FatListing.Directory(g, b, Slots(g, files[q]))
    {
      var slots := Slots(g, files[q]);
      FileIsNoDirectory(g, b, files, d, r, q);
      ListAt(g, b, d, files, q);
      ViewSame(g, b, d, slots);
      assert files[r := ch][q] == files[q];
      ListAt(g, WithEntry(g, d, r, e), d2, files[r := ch], q);
      ViewSame(g, WithEntry(g, d, r, e), d2, slots);
      forall k | 0 <= k < |slots|
        ensures FatListing.Renewed(FatListing.View(g, d, slots)[k], FatListing.View(g, WithEntry(g, d, r, e), slots)[k])
      {
        WithEntryView(g, d, r, e, slots, k);
      }
      FatListing.ListingRenewed(slots, FatListing.View(g, d, slots), FatListing.View(g, WithEntry(g, d, r, e), slots));
    }
  }

  lemma ObjectLive(g: Geometry, d: Disk, files: map<Ref, seq<nat>>, r: Ref)
    requires Consistent(g, d, files) && r in files && r.Entry?
    ensures HasEntry(g, d, r) && LiveEntry(EntryBytes(g, d, r))
  {
    hide IsChain, Housed, LiveEntry, EntryBytes, HasEntry;
  }

  lemma FileIsNoDirectory(g: Geometry, b: Disk, files: map<Ref, seq<nat>>, d: Disk, r: Ref, q: Ref)
    requires Consistent(g, b, files) && Phase(g, b, files, d) && q in files && DirectoryRef(g, b, q)
    requires r.Entry? && HasEntry(g, d, r) && !IsDirectory(EntryBytes(g, d, r))
    ensures q != r
  {
    hide Consistent, Phase, EntryBytes, IsDirectory;
    PhaseDirectory(g, b, files, d, q);
  }
}
