/**
 A small FAT16 volume that the writer accepts and on which a creation shows a stale entry
 between two of its writes.
 */
module FatStale {
  import opened Basics
  import opened FatDisk
  import opened FatSlots
  import opened FatChains
  import opened FatCrash
  import opened FatAudit
  import opened FatGrowth
  import opened FatSearch
  import opened FatQuiet
  import opened FatVolume

  /** The smallest FAT16 volume: one FAT of 16 sectors, a root area of one sector, clusters of one sector. */
  function SmallGeometry(): Geometry { Geometry(false, 4085, 256, 16, 1, 0, true, 1, 512, 0, 0, 16, 0xf8) }

  /** An end mark, an old entry behind it, and zeros. */
  function OldSector(): seq<byte> { Zeros(32) + ([65] + Zeros(31)) + Zeros(448) }

  /** No cluster is in use; mark is the second cell of the FAT. */
  function SmallFat(mark: nat): seq<Cell> {
    seq(4087, c => Cell(0, if c == 0 then 0xfff8 else if c == 1 then mark else 0))
  }

  function SmallDisk(mark: nat): Disk { Disk([SmallFat(mark)], map[Root(0) := OldSector()]) }

  function Empty(): map<Ref, seq<nat>> { map[RootDir := []] }

  function Places(): seq<Ref> { [Entry(Root(0), 0), Entry(Root(0), 32), Entry(Root(0), 64)] }

  lemma SmallSlots()
    ensures var slots := Slots(SmallGeometry(), []); |slots| == 16 && slots[0..3] == Places()
  {
    var g := SmallGeometry();
    assert RootSectors(g) == 1;
    assert RootSlots(g, 0) == [];
    assert RootSlots(g, 1) == SectorSlots(g, Root(0), 16);
  }

  lemma SmallEntries(mark: nat)
    ensures var g, d, ps := SmallGeometry(), SmallDisk(mark), Places();
      && ValidGeometry(g) && ValidDisk(g, d) && (forall i :: 0 <= i < 3 ==> HasEntry(g, d, ps[i]))
      && EntryBytes(g, d, ps[0]) == Zeros(32) && LiveEntry(EntryBytes(g, d, ps[1])) && EntryBytes(g, d, ps[2]) == Zeros(32)
  {
    var g, d := SmallGeometry(), SmallDisk(mark);
    assert SectorBytes(g, d, Root(0)) == OldSector();
    assert EntryBytes(g, d, Entry(Root(0), 32)) == [65] + Zeros(31);
    assert EntryBytes(g, d, Entry(Root(0), 0)) == Zeros(32);
    assert EntryBytes(g, d, Entry(Root(0), 64)) == Zeros(32);
  }

  lemma SmallConsistent(mark: nat)
    ensures Consistent(SmallGeometry(), SmallDisk(mark), Empty())
  {
    hide EntryBytes, HasEntry, LiveEntry, SmallGeometry, SmallDisk, ValidGeometry, ValidDisk;
    SmallEntries(mark);
  }

  lemma SmallFree(mark: nat)
    ensures Accounted(SmallGeometry(), SmallFat(mark), {}, 4085)
  {
    hide Numbers;
    var g := SmallGeometry();
    assert FreeCells(g, SmallFat(mark)) == Numbers(2, 4087);
    NumbersCount(2, 4087);
  }

  /** The volume passes everything that is asked before a first write, and lists nothing. */
  lemma SmallAccepted()
    ensures var g, d := SmallGeometry(), SmallDisk(0xffff);
      && ValidGeometry(g) && ValidDisk(g, d) && CellsFit(g, d) && Loadable(g, d) && Consistent(g, d, Empty())
      && Accounted(g, Fat(g, d), Owned(Empty()), 4085) && Closed(g, d, _ => false, Empty())
  {
    hide Accounted, Consistent, Closed, EntryBytes, HasEntry, LiveEntry, ValidGeometry, ValidDisk;
    SmallEntries(0xffff);
    SmallConsistent(0xffff);
    SmallFree(0xffff);
    assert Owned(Empty()) == {};
    SmallClosed();
  }

  lemma SmallClosed()
    ensures Closed(SmallGeometry(), SmallDisk(0xffff), _ => false, Empty())
  {
    hide Slots, EntryBytes, HasEntry, LiveEntry, SmallGeometry, SmallDisk, ValidGeometry, ValidDisk;
    var g, d := SmallGeometry(), SmallDisk(0xffff);
    SmallEntries(0xffff);
    SmallSlots();
    var slots := Slots(g, []);
    assert slots[0] == slots[0..3][0];
    assert EndMark(g, d, slots[0]);
    assert Seen(g, d, _ => false, Empty(), slots[..0]);
    assert Listed(g, d, _ => false, Empty(), slots);
  }

  lemma SmallMarked()
    ensures var g, before, d := SmallGeometry(), SmallDisk(0xffff), SmallDisk(0x7fff);
      d == before.(fat := [Fat(g, before)[1 := Cell(0, MarkDirty(g, Fat(g, before)[1].value))]])
  {
    assert MarkDirty(SmallGeometry(), 0xffff) == 0x7fff;
    assert SmallFat(0xffff)[1 := Cell(0, 0x7fff)] == SmallFat(0x7fff);
  }

  /** The search finds the first three places; the end mark behind the two that are needed is there already. */
  lemma SmallRoom(mark: nat)
    ensures var g, d := SmallGeometry(), SmallDisk(mark);
      && Room(g, d, Empty(), RootDir, 0, Places(), 2, true) && HasEntry(g, d, Places()[2])
      && WithEntry(g, d, Places()[2], Zeros(32)) == d
  {
    hide Slots, EntryBytes, HasEntry, LiveEntry, SmallGeometry, SmallDisk, ValidGeometry, ValidDisk, WithEntry;
    var g, d := SmallGeometry(), SmallDisk(mark);
    SmallEntries(mark);
    SmallSlots();
    SmallSame(mark);
    var slots := Slots(g, []);
    assert slots[0] == slots[0..3][0];
    assert EndMark(g, d, slots[0]);
  }

  lemma SmallSame(mark: nat)
    ensures HasEntry(SmallGeometry(), SmallDisk(mark), Places()[2])
    ensures WithEntry(SmallGeometry(), SmallDisk(mark), Places()[2], Zeros(32)) == SmallDisk(mark)
  {
    var d := SmallDisk(mark);
    assert Patched(OldSector(), 64, Zeros(32)) == OldSector();
    assert d.sectors[Root(0) := OldSector()] == d.sectors;
  }

  /**
   A creation on that volume: behind the dirty mark the search finds the first three places of the root area, and after
   one placeholder the old entry shows.
   */
  lemma StaleExample()
    ensures var g, before, d := SmallGeometry(), SmallDisk(0xffff), SmallDisk(0x7fff);
      && ValidGeometry(g) && ValidDisk(g, before) && CellsFit(g, before) && Loadable(g, before) && Consistent(g, before, Empty())
      && Accounted(g, Fat(g, before), Owned(Empty()), 4085) && Closed(g, before, _ => false, Empty())
      && d == before.(fat := [Fat(g, before)[1 := Cell(0, MarkDirty(g, Fat(g, before)[1].value))]])
      && Consistent(g, d, Empty()) && Room(g, d, Empty(), RootDir, 0, Places(), 2, true)
      && HasEntry(g, d, Places()[2]) && WithEntry(g, d, Places()[2], Zeros(32)) == d
      && !Exposes(g, d, Empty(), RootDir, 0, Places(), 2, 0) && Exposes(g, d, Empty(), RootDir, 0, Places(), 2, 1)
  {
    hide Slots, EntryBytes, HasEntry, LiveEntry, SmallGeometry, SmallDisk, ValidGeometry, ValidDisk, WithEntry, Accounted, Consistent, Closed,
      Loadable, CellsFit, MarkDirty, Owned, Filled;
    var g, d := SmallGeometry(), SmallDisk(0x7fff);
    SmallAccepted();
    SmallMarked();
    SmallConsistent(0x7fff);
    SmallRoom(0x7fff);
    SmallEntries(0x7fff);
    SmallHidden();
    StaleExposed(g, d, Empty(), RootDir, 0, Places(), 2, 1);
  }

  /** Before the first placeholder the end mark hides the old entry. */
  lemma SmallHidden()
    ensures !Exposes(SmallGeometry(), SmallDisk(0x7fff), Empty(), RootDir, 0, Places(), 2, 0)
  {
    hide Slots, EntryBytes, HasEntry, LiveEntry, SmallGeometry, SmallDisk, ValidGeometry, ValidDisk;
    var g, d := SmallGeometry(), SmallDisk(0x7fff);
    SmallEntries(0x7fff);
    SmallSlots();
    var slots := Slots(g, []);
    assert slots[0] == slots[0..3][0];
    assert EndMark(g, d, slots[0]);
    assert Filled(g, d, Places(), Placeholders(2), 0) == d;
  }
}
