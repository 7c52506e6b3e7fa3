/**
 The two scans of a directory that come before a creation: the search for a name, which walks the
 directory as every listing does, and the choice of a short name that no entry has.
 */
module FatLookup {
  import opened Basics
  import opened FatDisk
  import opened FatSlots
  import opened FatChains
  import opened FatListing
  import opened FatAudit
  import FatNames

  // ---------------------------------------------------------------- looking for a name

  /** The places seen show no object of the name, and x has read them. */
  ghost predicate Missed(g: Geometry, d: Disk, slots: seq<Ref>, seen: seq<Ref>, name: seq<byte>, x: FatNames.Decoder) {
    && seen <= slots
    && (var es := View(g, d, slots);
        NoEnd(es, |seen|) && Walk(slots, es, |seen|).x == x && Find(Walk(slots, es, |seen|).items, name).None?)
  }

  lemma MissedNone(g: Geometry, d: Disk, slots: seq<Ref>, name: seq<byte>)
    ensures Missed(g, d, slots, [], name, Begin().x)
  {
  }

  /** At an end mark, or with nothing left, the name is not there. */
  lemma MissedAll(g: Geometry, d: Disk, slots: seq<Ref>, seen: seq<Ref>, name: seq<byte>, x: FatNames.Decoder)
    requires Missed(g, d, slots, seen, name, x) && (seen == slots || At(g, d, slots[|seen|])[0] == 0)
    ensures Find(Directory(g, d, slots), name).None?
  {
    hide Walk, Stop, At;
    StopIs(View(g, d, slots), |seen|);
  }

  lemma MissedStep(g: Geometry, d: Disk, slots: seq<Ref>, seen: seq<Ref>, name: seq<byte>, x: Reading)
    requires Missed(g, d, slots, seen, name, x) && |seen| < |slots| && At(g, d, slots[|seen|])[0] != 0
    ensures var e, r := At(g, d, slots[|seen|]), slots[|seen|];
      if Shows(x, e).Some? && SameName(name, Shows(x, e).value) then Find(Directory(g, d, slots), name) == Some(r)
      else Missed(g, d, slots, seen + [r], name, After(x, e))
  {
    hide Walk, Stop, At, Shows, After, SameName, Find;
    var es, n := View(g, d, slots), |seen|;
    var e := es[n];
    WalkStep(slots, es, n);
    var w := Walk(slots, es, n);
    assert NoEnd(es, n + 1);
    if Shows(x, e).Some? {
      FindStep(w.items, Item(Shows(x, e).value, slots[n]), name);
    }
    var m := Stop(es, |es|);
    assert n < m;
    if Shows(x, e).Some? && SameName(name, Shows(x, e).value) {
      WalkMore(slots, es, n + 1, m);
      FindPrefix(Walk(slots, es, n + 1).items, Walk(slots, es, m).items, name);
    }
  }

  /** The first cluster of an entry is one that a listing accepts. */
  predicate Followable(g: Geometry, e: seq<byte>)
    requires |e| == 32
  {
    (g.wide ==> FirstCluster(g, e) < 0x1000_0000) && (IsDirectory(e) || FileSize(e) != 0 ==> InRange(g, FirstCluster(g, e)))
  }

  /** Some listed object starts outside the volume. */
  ghost predicate Blocked(g: Geometry, d: Disk, slots: seq<Ref>) {
    exists k :: 0 <= k < |Directory(g, d, slots)| && !Followable(g, At(g, d, Directory(g, d, slots)[k].place))
  }

  lemma BlockedHere(g: Geometry, d: Disk, slots: seq<Ref>, seen: seq<Ref>, name: seq<byte>, x: Reading)
    requires Missed(g, d, slots, seen, name, x) && |seen| < |slots| && At(g, d, slots[|seen|])[0] != 0
    requires Shows(x, At(g, d, slots[|seen|])).Some? && !Followable(g, At(g, d, slots[|seen|]))
    ensures Blocked(g, d, slots)
  {
    hide Walk, Stop, At, Shows, After, Find, Followable;
    var es, n := View(g, d, slots), |seen|;
    WalkStep(slots, es, n);
    assert NoEnd(es, n + 1);
    var m := Stop(es, |es|);
    assert n < m;
    WalkMore(slots, es, n + 1, m);
    var k := |Walk(slots, es, n).items|;
    assert Walk(slots, es, n + 1).items[k].place == slots[n];
    assert Directory(g, d, slots)[k].place == slots[n];
  }

  /** Item k stands for a live entry before the end. */
  lemma {:induction false} ItemFrom(slots: seq<Ref>, es: seq<seq<byte>>, n: nat, k: nat) returns (i: nat)
    requires Rows(slots, es) && n <= |es| && k < |Walk(slots, es, n).items|
    ensures i < n && slots[i] == Walk(slots, es, n).items[k].place && LiveEntry(es[i])
    decreases n
  {
    hide After, NameOf, LiveEntry, IsDot;
    if k < |Walk(slots, es, n - 1).items| {
      i := ItemFrom(slots, es, n - 1, k);
    } else {
      i := n - 1;
    }
  }

  /** On a volume that an audit accepts no listing is blocked. */
  lemma NothingBlocked(g: Geometry, d: Disk, files: map<Ref, seq<nat>>, skip: Ref -> bool, q: Ref)
    requires Consistent(g, d, files) && Closed(g, d, skip, files) && q in files && DirectoryRef(g, d, q)
    requires forall k :: 0 <= k < |Directory(g, d, Slots(g, files[q]))| ==> !skip(Directory(g, d, Slots(g, files[q]))[k].place)
    ensures !Blocked(g, d, Slots(g, files[q]))
  {
    hide Slots, Walk, Stop, EntryBytes, HasEntry, IsChain, Housed, LiveEntry, Followable, EntryOk;
    var slots := Slots(g, files[q]);
    var es := View(g, d, slots);
    var n: nat :| n <= |slots| && (n == |slots| || EndMark(g, d, slots[n])) && Seen(g, d, skip, files, slots[..n]);
    forall k | 0 <= k < |Directory(g, d, slots)|
      ensures Followable(g, At(g, d, Directory(g, d, slots)[k].place))
    {
      var m := Stop(es, |es|);
      var i := ItemFrom(slots, es, m, k);
      var r := slots[i];
      assert es[i] == At(g, d, r);
      if i >= n {
        assert false;
      }
      NamesLive(g, d, skip, r);
      assert r == slots[..n][i];
      FollowsOk(g, d, files, r);
    }
  }

  lemma NamesLive(g: Geometry, d: Disk, skip: Ref -> bool, r: Ref)
    requires LiveEntry(At(g, d, r)) && !skip(r)
    ensures Names(g, d, skip, r) && r.Entry?
  {
  }

  lemma FollowsOk(g: Geometry, d: Disk, files: map<Ref, seq<nat>>, r: Ref)
    requires Consistent(g, d, files) && r in files && r.Entry?
    ensures Followable(g, At(g, d, r))
  {
    hide Housed, EntryBytes, HasEntry, FirstCluster, FileSize, LiveEntry, IsDirectory;
    if files[r] != [] {
      assert InRange(g, files[r][0]);
    }
  }

  /** One sector of fat_directory with fat_find_cb. */
  method FindSector(g: Geometry, d: Disk, healthy: bool, a: Addr, fixed: bool, name: seq<byte>, reader: FatNames.Reader, scanned: nat, ghost slots: seq<Ref>,
                    ghost seen: seq<Ref>)
    returns (e: Error, hit: Option<Ref>, ended: bool, total: nat, ghost now: seq<Ref>)
    requires ValidDisk(g, d) && reader.name.Length == FatNames.NAME_MAX + 1 && Missed(g, d, slots, seen, name, reader.View())
    requires |seen| == scanned && (fixed ==> scanned <= g.rootEntries && slots == Slots(g, []))
    requires seen + SectorSlots(g, a, g.sector / 32) <= if fixed then RootSlots(g, RootSectors(g)) else slots
    modifies reader, reader.name
    ensures e == Ok && (hit.Some? || ended) ==> hit == Find(Directory(g, d, slots), name)
    ensures e == Ok && hit.None? && !ended ==>
      && now == seen + SectorSlots(g, a, g.sector / 32) && |now| == total && Missed(g, d, slots, now, name, reader.View())
      && (fixed ==> total <= g.rootEntries)
    ensures e in {Ok, EIO, E2BIG} && (e == EIO ==> !healthy || Blocked(g, d, slots)) && (e == E2BIG ==> |slots| > 65536)
  {
    hide Missed, Directory, Slots, RootSlots, RootSectors, NameOf, Find, At, After, Blocked, Followable, FatNames.LongStep, FatNames.Reader.View;
    total, now, hit, ended := scanned, seen, None, false;
    var readable := Answers(healthy);
    if !readable {
      return EIO, hit, ended, total, now;
    }
    ghost var all := SectorSlots(g, a, g.sector / 32);
    assert forall k :: 0 <= k < g.sector / 32 ==> all[k] == Entry(a, 32 * k);
    hide SectorSlots;
    SectorHolds(g, d, a);
    var i := 0;
    while i < g.sector / 32
      invariant 0 <= i <= g.sector / 32 == |all| && now == seen + all[..i] && |now| == total && (fixed ==> total <= g.rootEntries)
      invariant Missed(g, d, slots, now, name, reader.View())
    {
      if fixed && total >= g.rootEntries {
        RootSeen(g, d, now, name, reader.View());
        return Ok, None, true, total, now;
      }
      PrefixStep(seen, all, i);
      if fixed {
        RootPrefix(g, now + [all[i]]);
      }
      if total + 1 > 65536 {
        return E2BIG, hit, ended, total, now;
      }
      ghost var x := reader.View();
      var entry := EntryBytes(g, d, Entry(a, 32 * i));
      NextPlace(g, d, slots, now, all[i]);
      if entry[0] == 0 {
        MissedAll(g, d, slots, now, name, x);
        return Ok, None, true, total, now;
      }
      ReaderFits(reader);
      MissedStep(g, d, slots, now, name, x);
      var bad, found := FindEntry(g, entry, name, reader);
      if bad {
        BlockedHere(g, d, slots, now, name, x);
        return EIO, hit, ended, total, now;
      }
      if found {
        return Ok, Some(Entry(a, 32 * i)), false, total, now;
      }
      now, total, i := now + [all[i]], total + 1, i + 1;
    }
    assert all[..i] == all;
    return Ok, None, false, total, now;
  }

  lemma ReaderFits(reader: FatNames.Reader)
    requires reader.name.Length == FatNames.NAME_MAX + 1
    ensures |reader.View().name| == FatNames.NAME_MAX + 1
  {
  }

  lemma NextPlace(g: Geometry, d: Disk, slots: seq<Ref>, now: seq<Ref>, r: Ref)
    requires now + [r] <= slots && HasEntry(g, d, r)
    ensures |now| < |slots| && slots[|now|] == r && At(g, d, r) == EntryBytes(g, d, r)
  {
  }

  lemma RootSeen(g: Geometry, d: Disk, seen: seq<Ref>, name: seq<byte>, x: FatNames.Decoder)
    requires Missed(g, d, Slots(g, []), seen, name, x) && |seen| == g.rootEntries
    ensures Find(Directory(g, d, Slots(g, [])), name).None?
  {
    hide RootSlots, RootSectors, Directory, At, Find, Walk;
    assert seen == Slots(g, []);
    MissedAll(g, d, Slots(g, []), seen, name, x);
  }

  /** One entry that is no end mark. */
  method FindEntry(g: Geometry, entry: seq<byte>, name: seq<byte>, reader: FatNames.Reader) returns (bad: bool, found: bool)
    requires |entry| == 32 && entry[0] != 0 && reader.name.Length == FatNames.NAME_MAX + 1
    modifies reader, reader.name
    ensures |old(reader.View()).name| == FatNames.NAME_MAX + 1 && reader.View() == After(old(reader.View()), entry)
    ensures bad <==> Shows(old(reader.View()), entry).Some? && !Followable(g, entry)
    ensures !bad ==> (found <==> Shows(old(reader.View()), entry).Some? && SameName(name, Shows(old(reader.View()), entry).value))
  {
    hide FatNames.LongStep, FatNames.Text, ShortName, IsDot, SameName, FatNames.Checksum;
    bad, found := false, false;
    if entry[0] != 0xe5 && entry[11] == 0x0f {
      reader.Take(entry);
      return;
    }
    var long := reader.lfn && reader.expected == 0 && reader.sum == FatNames.Checksum(entry[..11], 11) && reader.name[0] != 0;
    reader.lfn := false;
    if entry[0] == 0xe5 || entry[11] / 8 % 2 == 1 {
      return;
    }
    var text := if long then FatNames.Text(reader.name[..]) else ShortName(entry);
    if IsDot(text) {
      return;
    }
    var child := FirstCluster(g, entry);
    if (g.wide && child >= 0x1000_0000) || ((IsDirectory(entry) || FileSize(entry) != 0) && !InRange(g, child)) {
      bad := true;
      return;
    }
    found := SameName(name, text);
  }

  method FindCluster(g: Geometry, d: Disk, healthy: bool, c: nat, name: seq<byte>, reader: FatNames.Reader, scanned: nat, ghost slots: seq<Ref>, ghost seen: seq<Ref>)
    returns (e: Error, hit: Option<Ref>, ended: bool, total: nat, ghost now: seq<Ref>)
    requires ValidDisk(g, d) && reader.name.Length == FatNames.NAME_MAX + 1 && Missed(g, d, slots, seen, name, reader.View())
    requires |seen| == scanned && seen + ClusterSlots(g, c, g.spc) <= slots
    modifies reader, reader.name
    ensures e == Ok && (hit.Some? || ended) ==> hit == Find(Directory(g, d, slots), name)
    ensures e == Ok && hit.None? && !ended ==>
      now == seen + ClusterSlots(g, c, g.spc) && |now| == total && Missed(g, d, slots, now, name, reader.View())
    ensures e in {Ok, EIO, E2BIG} && (e == EIO ==> !healthy || Blocked(g, d, slots)) && (e == E2BIG ==> |slots| > 65536)
  {
    hide Missed, Directory, SectorSlots, Find, Blocked, FatNames.Reader.View;
    total, now, hit, ended := scanned, seen, None, false;
    var s := 0;
    while s < g.spc
      invariant 0 <= s <= g.spc && now == seen + ClusterSlots(g, c, s) && |now| == total && Missed(g, d, slots, now, name, reader.View())
    {
      ghost var before := now;
      ClusterSlotsGrow(g, c, s + 1, g.spc);
      assert before + SectorSlots(g, Data(c, s), g.sector / 32) == seen + ClusterSlots(g, c, s + 1);
      e, hit, ended, total, now := FindSector(g, d, healthy, Data(c, s), false, name, reader, total, slots, now);
      if e != Ok || hit.Some? || ended {
        return;
      }
      assert now == seen + ClusterSlots(g, c, s + 1);
      s := s + 1;
    }
    return Ok, None, false, total, now;
  }

  /** The fixed root area. */
  method FindRoot(g: Geometry, d: Disk, healthy: bool, name: seq<byte>, reader: FatNames.Reader) returns (e: Error, hit: Option<Ref>)
    requires ValidDisk(g, d) && reader.name.Length == FatNames.NAME_MAX + 1 && reader.View() == Begin().x
    modifies reader, reader.name
    ensures e == Ok ==> hit == Find(Directory(g, d, Slots(g, [])), name)
    ensures e in {Ok, EIO, E2BIG} && (e == EIO ==> !healthy || Blocked(g, d, Slots(g, []))) && (e == E2BIG ==> |Slots(g, [])| > 65536)
  {
    hide Missed, Directory, SectorSlots, Find, Blocked, RootSectors, FatNames.Reader.View, Begin;
    ghost var slots := Slots(g, []);
    MissedNone(g, d, slots, name);
    var total, ended := 0, false;
    ghost var now: seq<Ref> := [];
    var s := 0;
    while s < RootSectors(g)
      invariant 0 <= s <= RootSectors(g) && now == RootSlots(g, s) && |now| == total <= g.rootEntries
      invariant Missed(g, d, slots, now, name, reader.View())
    {
      ghost var before := now;
      RootSlotsGrow(g, s + 1, RootSectors(g));
      assert before + SectorSlots(g, Root(s), g.sector / 32) == RootSlots(g, s + 1);
      e, hit, ended, total, now := FindSector(g, d, healthy, Root(s), true, name, reader, total, slots, now);
      if e != Ok || hit.Some? || ended {
        return;
      }
      s := s + 1;
    }
    assert now == slots;
    MissedAll(g, d, slots, now, name, reader.View());
    return Ok, None;
  }

  /** A directory held in a chain, with the cycle check. */
  method FindChain(g: Geometry, d: Disk, healthy: bool, cluster: nat, name: seq<byte>, reader: FatNames.Reader, ghost ch: seq<nat>)
    returns (e: Error, hit: Option<Ref>)
    requires ValidGeometry(g) && ValidDisk(g, d) && ch != [] && cluster == ch[0] && IsChain(g, Fat(g, d), ch)
    requires reader.name.Length == FatNames.NAME_MAX + 1 && reader.View() == Begin().x
    modifies reader, reader.name
    ensures e == Ok ==> hit == Find(Directory(g, d, Slots(g, ch)), name)
    ensures e in {Ok, EIO, E2BIG} && (e == E2BIG ==> |Slots(g, ch)| > 65536)
    ensures e == EIO ==> !healthy || Blocked(g, d, Slots(g, ch)) || |ch| > 65536
  {
    assert g.active < |d.fat|;
    hide Slots, ValidDisk, ChainSlots, Missed, Directory, ClusterSlots, Find, Blocked, IsChain, Next, FatNames.Reader.View, Begin, InRange,
      ValidGeometry;
    ChainSlotsAre(g, ch);
    NoSlots(g, ch);
    MissedNone(g, d, ChainSlots(g, ch), name);
    ghost var now: seq<Ref> := [];
    ghost var k, t := 0, 0;
    var total, visited, c, tortoise, ended := 0, 0, cluster, cluster, false;
    while true
      invariant 0 <= k < |ch| && c == ch[k] && visited == k <= 65536 && now == ChainSlots(g, ch[..k]) && |now| == total
      invariant 0 <= 2 * t <= k && tortoise == ch[t]
      invariant reader.name.Length == FatNames.NAME_MAX + 1
      invariant Missed(g, d, ChainSlots(g, ch), now, name, reader.View())
      decreases 65536 - visited
    {
      visited := visited + 1;
      ChainBounds(g, d, ch, k);
      if !InRange(g, c) || visited > 65536 || visited > g.clusters {
        return EIO, None;
      }
      ghost var before := now;
      NextSlots(g, ch, k);
      ChainSlotsGrow(g, ch, k + 1);
      e, hit, ended, total, now := FindCluster(g, d, healthy, c, name, reader, total, ChainSlots(g, ch), now);
      if e != Ok || hit.Some? || ended {
        return;
      }
      var ok, next;
      ok, next, tortoise, t := Follow(g, d, c, tortoise, visited, ch, k, t);
      if !ok {
        return EIO, None;
      }
      if next == END {
        assert ch[..k + 1] == ch;
        MissedAll(g, d, ChainSlots(g, ch), now, name, reader.View());
        return Ok, None;
      }
      c, k := next, k + 1;
    }
  }

  /** fat_directory with fat_find_cb, from the first cluster of a directory, or 0 for the fixed root area. */
  method LookUp(g: Geometry, d: Disk, healthy: bool, cluster: nat, name: seq<byte>, ghost ch: seq<nat>) returns (e: Error, hit: Option<Ref>)
    requires ValidGeometry(g) && ValidDisk(g, d) && cluster == (if ch == [] then 0 else ch[0]) && (ch != [] ==> IsChain(g, Fat(g, d), ch))
    ensures e == Ok ==> hit == Find(Directory(g, d, Slots(g, ch)), name)
    ensures e in {Ok, EIO, E2BIG} && (e == E2BIG ==> |Slots(g, ch)| > 65536)
    ensures e == EIO ==> !healthy || Blocked(g, d, Slots(g, ch)) || (g.wide && ch == []) || |ch| > 65536
  {
    assert g.active < |d.fat|;
    hide Slots, ValidDisk, ChainSlots, Missed, Directory, SectorSlots, ClusterSlots, RootSlots, Find, Blocked, RootSectors, IsChain, Next, FatNames.Reader.View, Begin, InRange, ValidGeometry;
    FirstOfChain(g, d, ch);
    hit := None;
    if cluster == 0 && g.wide {
      return EIO, hit;
    }
    var reader := new FatNames.Reader();
    Begins(reader);
    if cluster == 0 {
      e, hit := FindRoot(g, d, healthy, name, reader);
      return;
    }
    e, hit := FindChain(g, d, healthy, cluster, name, reader, ch);
  }

  lemma Begins(reader: FatNames.Reader)
    requires reader.View() == FatNames.Decoder(false, 0, 0, FatNames.Blank())
    ensures reader.View() == Begin().x
  {
  }

  lemma FirstOfChain(g: Geometry, d: Disk, ch: seq<nat>)
    requires ValidGeometry(g) && ValidDisk(g, d) && (ch != [] ==> IsChain(g, Fat(g, d), ch))
    ensures ch != [] ==> ch[0] >= 2
  {
  }

  // ---------------------------------------------------------------- a short name that no entry has

  /** An entry, of an object or a volume label, with the short name. */
  predicate Bears(e: seq<byte>, short: seq<byte>)
    requires |e| == 32
  {
    e[0] != 0xe5 && e[11] != 0x0f && e[..11] == short
  }

  ghost predicate Taken(es: seq<seq<byte>>, short: seq<byte>)
    requires forall k :: 0 <= k < |es| ==> |es[k]| == 32
  {
    exists k :: 0 <= k < |es| && NoEnd(es, k + 1) && Bears(es[k], short)
  }

  /** The places seen are before the end and none has the short name. */
  ghost predicate Without(g: Geometry, d: Disk, slots: seq<Ref>, seen: seq<Ref>, short: seq<byte>) {
    && seen <= slots
    && (var es := View(g, d, slots);
        NoEnd(es, |seen|) && forall k :: 0 <= k < |seen| ==> !Bears(es[k], short))
  }

  lemma WithoutAll(g: Geometry, d: Disk, slots: seq<Ref>, seen: seq<Ref>, short: seq<byte>)
    requires Without(g, d, slots, seen, short) && (seen == slots || At(g, d, slots[|seen|])[0] == 0)
    ensures !Taken(View(g, d, slots), short)
  {
    hide At, Bears;
  }

  lemma WithoutStep(g: Geometry, d: Disk, slots: seq<Ref>, seen: seq<Ref>, short: seq<byte>)
    requires Without(g, d, slots, seen, short) && |seen| < |slots| && At(g, d, slots[|seen|])[0] != 0
    ensures if Bears(At(g, d, slots[|seen|]), short) then Taken(View(g, d, slots), short) else Without(g, d, slots, seen + [slots[|seen|]], short)
  {
    hide At, Bears;
    var es := View(g, d, slots);
    assert NoEnd(es, |seen| + 1);
  }

  datatype Verdict = Yes | No | More | Failed

  method TakenSector(g: Geometry, d: Disk, healthy: bool, a: Addr, fixed: bool, short: seq<byte>, ghost slots: seq<Ref>, ghost seen: seq<Ref>, before: nat)
    returns (v: Verdict)
    requires ValidDisk(g, d) && Without(g, d, slots, seen, short) && (fixed ==> before == |seen| <= g.rootEntries && slots == Slots(g, []))
    requires seen + SectorSlots(g, a, g.sector / 32) <= if fixed then RootSlots(g, RootSectors(g)) else slots
    ensures v == Yes ==> Taken(View(g, d, slots), short)
    ensures v == Failed ==> !healthy
    ensures v == No ==> !Taken(View(g, d, slots), short)
    ensures v == More ==> Without(g, d, slots, seen + SectorSlots(g, a, g.sector / 32), short)
    ensures v == More && fixed ==> |seen + SectorSlots(g, a, g.sector / 32)| <= g.rootEntries
  {
    hide Without, Taken, Slots, RootSlots, RootSectors, At;
    var readable := Answers(healthy);
    if !readable {
      return Failed;
    }
    ghost var now, all := seen, SectorSlots(g, a, g.sector / 32);
    assert forall k :: 0 <= k < g.sector / 32 ==> all[k] == Entry(a, 32 * k);
    hide SectorSlots;
    SectorHolds(g, d, a);
    var i := 0;
    while i < g.sector / 32
      invariant 0 <= i <= g.sector / 32 == |all| && now == seen + all[..i] && (fixed ==> |now| <= g.rootEntries)
      invariant Without(g, d, slots, now, short)
    {
      if fixed && before + i >= g.rootEntries {
        RootWithout(g, d, now, short);
        return No;
      }
      PrefixStep(seen, all, i);
      if fixed {
        RootPrefix(g, now + [all[i]]);
      }
      var entry := EntryBytes(g, d, Entry(a, 32 * i));
      NextPlace(g, d, slots, now, all[i]);
      if entry[0] == 0 {
        WithoutAll(g, d, slots, now, short);
        return No;
      }
      WithoutStep(g, d, slots, now, short);
      if entry[0] != 0xe5 && entry[11] != 0x0f && entry[..11] == short {
        return Yes;
      }
      now := now + [all[i]];
      i := i + 1;
    }
    assert all[..i] == all;
    return More;
  }

  lemma RootWithout(g: Geometry, d: Disk, seen: seq<Ref>, short: seq<byte>)
    requires Without(g, d, Slots(g, []), seen, short) && |seen| == g.rootEntries
    ensures !Taken(View(g, d, Slots(g, [])), short)
  {
    hide RootSlots, RootSectors, Taken, At, Bears;
    assert seen == Slots(g, []);
    WithoutAll(g, d, Slots(g, []), seen, short);
  }

  method TakenCluster(g: Geometry, d: Disk, healthy: bool, c: nat, short: seq<byte>, ghost slots: seq<Ref>, ghost seen: seq<Ref>) returns (v: Verdict)
    requires ValidDisk(g, d) && Without(g, d, slots, seen, short) && seen + ClusterSlots(g, c, g.spc) <= slots
    ensures v == Yes ==> Taken(View(g, d, slots), short)
    ensures v == Failed ==> !healthy
    ensures v == No ==> !Taken(View(g, d, slots), short)
    ensures v == More ==> Without(g, d, slots, seen + ClusterSlots(g, c, g.spc), short)
  {
    hide Without, Taken, SectorSlots, ValidDisk, View;
    ghost var now := seen;
    var s := 0;
    while s < g.spc
      invariant 0 <= s <= g.spc && now == seen + ClusterSlots(g, c, s) && Without(g, d, slots, now, short)
    {
      ghost var before := now;
      ClusterSlotsGrow(g, c, s + 1, g.spc);
      assert before + SectorSlots(g, Data(c, s), g.sector / 32) == seen + ClusterSlots(g, c, s + 1);
      v := TakenSector(g, d, healthy, Data(c, s), false, short, slots, now, 0);
      if v != More {
        return;
      }
      now := before + SectorSlots(g, Data(c, s), g.sector / 32);
      s := s + 1;
    }
    return More;
  }

  method TakenRoot(g: Geometry, d: Disk, healthy: bool, short: seq<byte>) returns (v: Verdict)
    requires ValidDisk(g, d)
    ensures v == Yes ==> Taken(View(g, d, Slots(g, [])), short)
    ensures v == Failed ==> !healthy
    ensures v == No ==> !Taken(View(g, d, Slots(g, [])), short)
    ensures v != More
  {
    hide Taken, SectorSlots, RootSectors, Bears, At;
    ghost var slots, now := Slots(g, []), [];
    var s, before := 0, 0;
    while s < RootSectors(g)
      invariant 0 <= s <= RootSectors(g) && now == RootSlots(g, s) && |now| == before <= g.rootEntries && Without(g, d, slots, now, short)
    {
      RootSlotsGrow(g, s + 1, RootSectors(g));
      assert now + SectorSlots(g, Root(s), g.sector / 32) == RootSlots(g, s + 1);
      v := TakenSector(g, d, healthy, Root(s), true, short, slots, now, before);
      if v != More {
        return;
      }
      now := now + SectorSlots(g, Root(s), g.sector / 32);
      SectorCount(g, Root(s));
      before := before + g.sector / 32;
      s := s + 1;
    }
    assert now == slots;
    WithoutAll(g, d, slots, now, short);
    return No;
  }

  lemma SectorCount(g: Geometry, a: Addr)
    ensures |SectorSlots(g, a, g.sector / 32)| == g.sector / 32
  {
  }

  /** fat_sfn_exists. */
  method ShortTaken(g: Geometry, d: Disk, healthy: bool, fat: seq<Cell>, cluster: nat, short: seq<byte>, ghost ch: seq<nat>) returns (v: Verdict)
    requires ValidGeometry(g) && ValidDisk(g, d) && cluster == (if ch == [] then 0 else ch[0]) && |fat| == Limit(g)
    requires ch != [] ==> IsChain(g, fat, ch) && |ch| <= 65536
    ensures v == Yes ==> Taken(View(g, d, Slots(g, ch)), short)
    ensures v == Failed ==> !healthy
    ensures v == No ==> !Taken(View(g, d, Slots(g, ch)), short)
    ensures v != More
  {
    hide Without, Taken, SectorSlots, ClusterSlots, RootSlots, RootSectors;
    if cluster == 0 {
      v := TakenRoot(g, d, healthy, short);
      return;
    }
    ghost var now: seq<Ref>, k := [], 0;
    var c, visited := cluster, 0;
    assert ch[..0] == [];
    WithoutNone(g, d, ChainSlots(g, ch), short);
    while visited < 65536
      invariant 0 <= k < |ch| && c == ch[k] && visited == k && now == ChainSlots(g, ch[..k]) && Without(g, d, ChainSlots(g, ch), now, short)
    {
      assert ch[..k + 1][..k] == ch[..k];
      assert now + ClusterSlots(g, c, g.spc) == ChainSlots(g, ch[..k + 1]);
      ChainSlotsGrow(g, ch, k + 1);
      v := TakenCluster(g, d, healthy, c, short, ChainSlots(g, ch), now);
      if v != More {
        return;
      }
      now := now + ClusterSlots(g, c, g.spc);
      var next := fat[c].value;
      if IsEnd(g, next) {
        if k + 1 < |ch| {
          LinkIsNoEnd(g, fat, ch, k);
        }
        assert ch[..k + 1] == ch;
        WithoutAll(g, d, ChainSlots(g, ch), now, short);
        return No;
      }
      assert k + 1 < |ch|;
      c, visited, k := next, visited + 1, k + 1;
    }
    assert false;
  }

  lemma WithoutNone(g: Geometry, d: Disk, slots: seq<Ref>, short: seq<byte>)
    ensures Without(g, d, slots, [], short)
  {
  }

  function Hex(n: nat): byte { var k := n % 16; if k < 10 then 48 + k else 55 + k }

  /** K, seven hexadecimal digits of a number, and FIL. */
  function ShortFor(serial: nat): (s: seq<byte>)
    ensures |s| == 11 && s[0] == 75
  {
    [75, Hex(serial / 0x100_0000), Hex(serial / 0x10_0000), Hex(serial / 0x1_0000), Hex(serial / 0x1000), Hex(serial / 0x100), Hex(serial / 0x10),
     Hex(serial), 70, 73, 76]
  }

  /** The first of the short names that is free. */
  method PickShort(g: Geometry, d: Disk, healthy: bool, fat: seq<Cell>, cluster: nat, ghost ch: seq<nat>) returns (e: Error, short: seq<byte>)
    requires ValidGeometry(g) && ValidDisk(g, d) && cluster == (if ch == [] then 0 else ch[0]) && |fat| == Limit(g)
    requires ch != [] ==> IsChain(g, fat, ch) && |ch| <= 65536
    ensures |short| == 11 && short[0] == 75
    ensures e == Ok ==> !Taken(View(g, d, Slots(g, ch)), short)
    ensures e == Ok ==> exists n: nat :: 1 <= n < 65536 && short == ShortFor(n) && forall k :: 1 <= k < n ==> Taken(View(g, d, Slots(g, ch)), ShortFor(k))
    ensures e == E2BIG ==> forall k :: 1 <= k < 65536 ==> Taken(View(g, d, Slots(g, ch)), ShortFor(k))
    ensures e in {Ok, EIO, E2BIG} && (e == EIO ==> !healthy)
  {
    hide Taken, Slots, ShortFor, IsChain, View;
    var serial := 1;
    short := ShortFor(0);
    while serial < 65536
      invariant 1 <= serial <= 65536 && |short| == 11 && short[0] == 75
      invariant forall k :: 1 <= k < serial ==> Taken(View(g, d, Slots(g, ch)), ShortFor(k))
    {
      short := ShortFor(serial);
      var v := ShortTaken(g, d, healthy, fat, cluster, short, ch);
      if v == Failed {
        return EIO, short;
      }
      if v == No {
        return Ok, short;
      }
      serial := serial + 1;
    }
    return E2BIG, short;
  }
}
