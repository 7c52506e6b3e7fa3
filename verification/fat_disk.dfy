/**
 A FAT16/FAT32 volume on disk: FAT copies, data and root-directory sectors,
 32-byte directory entries, sector writes, and reading a file back from the
 directory entry and the active FAT.
 */
module FatDisk {
  import opened Basics

  datatype Error = Ok | EIO | EINVAL | ENOENT | EEXIST | EROFS | ENOSPC | E2BIG | ENOMEM | EAGAIN

  /** One FAT entry; FAT32 keeps four reserved bits above the 28-bit value. */
  datatype Cell = Cell(high: nat, value: nat)

  /** A sector outside the FATs. */
  datatype Addr = Data(cluster: nat, index: nat) | Root(index: nat) | Info(index: nat)

  /** Layout as fat_mount computes it; infos is the number of FSInfo sectors in the reserved area. */
  datatype Geometry = Geometry(
    wide: bool, clusters: nat, perSector: nat, fatSectors: nat, copies: nat, active: nat,
    mirrored: bool, spc: nat, sector: nat, infos: nat, rootCluster: nat, rootEntries: nat, media: nat)

  datatype Disk = Disk(fat: seq<seq<Cell>>, sectors: map<Addr, seq<byte>>)

  ghost predicate ValidGeometry(g: Geometry) {
    && 0 < g.clusters && 0 < g.spc && 512 <= g.sector && g.sector % 32 == 0
    && 1 <= g.copies <= 2 && g.active < g.copies && (g.mirrored ==> g.active == 0)
    && g.perSector == g.sector / (if g.wide then 4 else 2) && g.clusters + 2 <= g.perSector * g.fatSectors
    && (if g.wide then InRange(g, g.rootCluster) else g.rootCluster == 0)
    && g.clusters <= (if g.wide then 0x0fff_ffee else 0xffee)
  }

  function Limit(g: Geometry): nat { g.clusters + 2 }
  predicate InRange(g: Geometry, c: nat) { 2 <= c < Limit(g) }

  function FirstEnd(g: Geometry): nat { if g.wide then 0x0fff_fff8 else 0xfff8 }
  function Eoc(g: Geometry): nat { if g.wide then 0x0fff_ffff else 0xffff }
  function Bad(g: Geometry): nat { if g.wide then 0x0fff_fff7 else 0xfff7 }
  predicate IsEnd(g: Geometry, v: nat) { v >= FirstEnd(g) }

  function CleanBit(g: Geometry): nat { if g.wide then 0x0800_0000 else 0x8000 }
  predicate Clean(g: Geometry, v: nat) { v / CleanBit(g) % 2 == 1 }
  function MarkDirty(g: Geometry, v: nat): nat { if Clean(g, v) then v - CleanBit(g) else v }
  function MarkClean(g: Geometry, v: nat): nat { if Clean(g, v) then v else v + CleanBit(g) }

  lemma CleanMarks(g: Geometry, v: nat)
    ensures !Clean(g, MarkDirty(g, v)) && Clean(g, MarkClean(g, v))
    ensures v <= Eoc(g) ==> MarkDirty(g, v) <= Eoc(g) && MarkClean(g, v) <= Eoc(g)
  {
    if g.wide {
      HalfStep(v, 0x0800_0000);
    } else {
      HalfStep(v, 0x8000);
    }
  }

  lemma HalfStep(v: nat, b: nat)
    requires b > 0
    ensures v / b % 2 == 1 ==> v >= b && (v - b) / b % 2 == 0
    ensures v / b % 2 != 1 ==> (v + b) / b % 2 == 1
  {
    OneMore(v, b);
    if v / b % 2 == 1 {
      OneLess(v, b);
    }
  }

  lemma OneMore(v: nat, b: nat)
    requires b > 0
    ensures (v + b) / b == v / b + 1
  {
    var q, r := v / b, v % b;
    assert v + b == (q + 1) * b + r;
    DivideUnique(v + b, b, q + 1, r);
  }

  lemma OneLess(v: nat, b: nat)
    requires b > 0 && v / b >= 1
    ensures v >= b && (v - b) / b == v / b - 1
  {
    var q, r := v / b, v % b;
    assert v - b == (q - 1) * b + r;
    assert (q - 1) * b >= 0;
    DivideUnique(v - b, b, q - 1, r);
  }

  /** The FAT sector that holds an entry. */
  function SectorOf(g: Geometry, c: nat): nat { if g.perSector == 0 then 0 else c / g.perSector }

  lemma SectorInFat(g: Geometry, c: nat)
    requires ValidGeometry(g) && c < Limit(g)
    ensures SectorOf(g, c) < g.fatSectors
  {
    var q := SectorOf(g, c);
    assert c == q * g.perSector + c % g.perSector;
    if q >= g.fatSectors {
      Multiples(g.fatSectors, q, g.perSector);
      assert false;
    }
  }

  /** A sector of the table holds the cells, of two or four bytes each, that fill it. */
  lemma SectorSpan(g: Geometry, c: nat, s: nat)
    requires ValidGeometry(g)
    ensures var per := g.sector / (if g.wide then 4 else 2); SectorOf(g, c) == s <==> s * per <= c < (s + 1) * per
  {
    var per := g.perSector;
    var q, r := c / per, c % per;
    assert c == q * per + r && (s + 1) * per == s * per + per;
    if s * per <= c < (s + 1) * per {
      DivideUnique(c, per, s, c - s * per);
    }
  }

  ghost predicate ValidDisk(g: Geometry, d: Disk) {
    && |d.fat| == g.copies && (forall f :: 0 <= f < |d.fat| ==> |d.fat[f]| == Limit(g))
    && (forall a :: a in d.sectors ==> |d.sectors[a]| == g.sector)
  }

  function Fat(g: Geometry, d: Disk): seq<Cell>
    requires g.active < |d.fat|
  {
    d.fat[g.active]
  }

  // ---------------------------------------------------------------- sector writes

  datatype Write = FatWrite(copy: nat, sector: nat, cells: seq<Cell>) | SectorWrite(addr: Addr, bytes: seq<byte>)

  /** One whole FAT sector of a copy taken over from cells. */
  function Spliced(g: Geometry, prev: seq<Cell>, sector: nat, cells: seq<Cell>): (r: seq<Cell>)
    requires |prev| == |cells|
    ensures |r| == |prev|
    ensures forall c :: 0 <= c < |r| ==> r[c] == if SectorOf(g, c) == sector then cells[c] else prev[c]
  {
    seq(|prev|, c requires 0 <= c < |prev| => if SectorOf(g, c) == sector then cells[c] else prev[c])
  }

  function Apply(g: Geometry, d: Disk, w: Write): Disk {
    match w
    case FatWrite(f, s, cells) =>
      if f < |d.fat| && |d.fat[f]| == |cells| then d.(fat := d.fat[f := Spliced(g, d.fat[f], s, cells)]) else d
    case SectorWrite(a, b) => if |b| == g.sector then d.(sectors := d.sectors[a := b]) else d
  }

  /** One write changes one sector: that of one copy of the table, or one outside the tables. */
  lemma WriteReaches(g: Geometry, d: Disk, w: Write)
    requires ValidGeometry(g)
    ensures var d', per := Apply(g, d, w), g.sector / (if g.wide then 4 else 2);
      && |d'.fat| == |d.fat| && (forall f :: 0 <= f < |d.fat| ==> |d'.fat[f]| == |d.fat[f]|)
      && (forall f: nat, c: nat :: f < |d.fat| && c < |d.fat[f]| && d'.fat[f][c] != d.fat[f][c] ==>
            w.FatWrite? && f == w.copy && w.sector * per <= c < (w.sector + 1) * per && d'.fat[f][c] == w.cells[c])
      && (forall a :: SectorBytes(g, d', a) != SectorBytes(g, d, a) ==> w.SectorWrite? && a == w.addr && SectorBytes(g, d', a) == w.bytes)
  {
    hide ValidGeometry, SectorOf;
    if w.FatWrite? {
      forall c: nat
        ensures SectorOf(g, c) == w.sector ==> var per := g.sector / (if g.wide then 4 else 2); w.sector * per <= c < (w.sector + 1) * per
      {
        SectorSpan(g, c, w.sector);
      }
    }
  }

  // ---------------------------------------------------------------- reading

  function SectorBytes(g: Geometry, d: Disk, a: Addr): seq<byte> {
    if a in d.sectors then d.sectors[a] else seq(g.sector, i => 0 as byte)
  }

  /** The first n sectors of a cluster. */
  function ClusterPart(g: Geometry, d: Disk, c: nat, n: nat): seq<byte> {
    if n == 0 then [] else ClusterPart(g, d, c, n - 1) + SectorBytes(g, d, Data(c, n - 1))
  }

  function ClusterBytes(g: Geometry, d: Disk, c: nat): seq<byte> { ClusterPart(g, d, c, g.spc) }

  function ChainBytes(g: Geometry, d: Disk, ch: seq<nat>): seq<byte> {
    if ch == [] then [] else ClusterBytes(g, d, ch[0]) + ChainBytes(g, d, ch[1..])
  }

  const END: nat := 0xffff_ffff

  /** fat_next: the cluster after c, END after the last one, None for a link that cannot be followed. */
  function Next(g: Geometry, d: Disk, c: nat): Option<nat>
    requires g.active < |d.fat|
  {
    if !InRange(g, c) || c >= |Fat(g, d)| then None
    else
      var v := Fat(g, d)[c].value;
      if IsEnd(g, v) then Some(END) else if InRange(g, v) then Some(v) else None
  }

  /** The loop of fat_read from cluster c with need bytes to go; every other step moves the tortoise. */
  function Collect(g: Geometry, d: Disk, c: nat, tortoise: nat, need: nat, steps: nat): Option<seq<byte>>
    requires g.active < |d.fat|
    decreases 65537 - steps
  {
    if !InRange(g, c) || steps >= g.clusters || steps > 65536 then None
    else
      var b := ClusterBytes(g, d, c);
      if need <= |b| then Some(b[..need])
      else
        var next := Next(g, d, c);
        var slow := if steps % 2 == 1 then Next(g, d, tortoise) else Some(tortoise);
        if next.None? || next.value == END || slow.None? || next == slow then None
        else match Collect(g, d, next.value, slow.value, need - |b|, steps + 1)
             case None => None
             case Some(rest) => Some(b + rest)
  }

  /** Place of a 32-byte directory entry. */
  datatype Ref = RootDir | Entry(addr: Addr, at: nat)

  predicate HasEntry(g: Geometry, d: Disk, r: Ref) {
    r.Entry? && r.at % 32 == 0 && r.at + 32 <= |SectorBytes(g, d, r.addr)|
  }

  function EntryBytes(g: Geometry, d: Disk, r: Ref): (e: seq<byte>)
    requires HasEntry(g, d, r)
    ensures |e| == 32
  {
    SectorBytes(g, d, r.addr)[r.at..r.at + 32]
  }

  /** In use, and not a volume label or part of a long name. */
  predicate LiveEntry(e: seq<byte>)
    requires |e| == 32
  {
    e[0] != 0 && e[0] != 0xe5 && e[11] / 8 % 2 == 0
  }

  predicate IsDirectory(e: seq<byte>)
    requires |e| == 32
  {
    e[11] / 16 % 2 == 1
  }

  function FirstCluster(g: Geometry, e: seq<byte>): nat
    requires |e| == 32
  {
    Rd16(e, 26) + if g.wide then 0x1_0000 * Rd16(e, 20) else 0
  }

  function FileSize(e: seq<byte>): nat
    requires |e| == 32
  {
    Rd32(e, 28)
  }

  /** fat_refresh accepts the entry. */
  predicate EntryFollows(g: Geometry, e: seq<byte>)
    requires |e| == 32
  {
    LiveEntry(e) && (FileSize(e) != 0 || IsDirectory(e) || FirstCluster(g, e) != 0 ==> InRange(g, FirstCluster(g, e)))
  }

  /** fat_refresh and then fat_read of the whole file. */
  function ReadFile(g: Geometry, d: Disk, r: Ref): Option<seq<byte>>
    requires g.active < |d.fat|
  {
    if !HasEntry(g, d, r) then None
    else
      var e := EntryBytes(g, d, r);
      if !EntryFollows(g, e) then None
      else if FileSize(e) == 0 then Some([])
      else Collect(g, d, FirstCluster(g, e), FirstCluster(g, e), FileSize(e), 0)
  }
}
