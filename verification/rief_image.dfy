/**
 RIEF images: the records of the format, and the image that output() writes for
 a compiled program.
 */
module RiefImage {
  import opened Basics
  import opened LittleEndian

  datatype Header = Header(
    magic: nat, major: nat, minor: nat, arch: nat, flags: nat, headerSize: nat,
    regions: nat, relocs: nat, imports: nat, exports: nat,
    regionOff: nat, relocOff: nat, importOff: nat, exportOff: nat, stringOff: nat, stringSize: nat,
    entryRegion: nat, reserved: nat, entryOffset: nat)

  datatype Region = Region(flags: nat, alignment: nat, fileOffset: nat, fileSize: nat, memorySize: nat)

  /** addend is the raw 64-bit field. */
  datatype Reloc = Reloc(patchRegion: nat, kind: nat, targetRegion: nat, reserved: nat, patchOffset: nat, targetOffset: nat, addend: nat)

  datatype Export = Export(nameOffset: nat, region: nat, offset: nat)

  datatype Import = Import(nameOffset: nat, reserved: nat)

  const MAGIC: nat := 0x46454952

  // ---------------------------------------------------------------- records in bytes

  function HeaderOf(b: seq<byte>): Header
    requires |b| >= 96
  {
    Header(Field(b, 0, 4), Field(b, 4, 2), Field(b, 6, 2), Field(b, 8, 2), Field(b, 10, 2), Field(b, 12, 4),
           Field(b, 16, 4), Field(b, 20, 4), Field(b, 24, 4), Field(b, 28, 4),
           Field(b, 32, 8), Field(b, 40, 8), Field(b, 48, 8), Field(b, 56, 8), Field(b, 64, 8), Field(b, 72, 8),
           Field(b, 80, 4), Field(b, 84, 4), Field(b, 88, 8))
  }

  function HeaderBytes(h: Header): (r: seq<byte>)
    ensures |r| == 96
  {
    Le(h.magic, 4) + Le(h.major, 2) + Le(h.minor, 2) + Le(h.arch, 2) + Le(h.flags, 2) + Le(h.headerSize, 4)
    + Le(h.regions, 4) + Le(h.relocs, 4) + Le(h.imports, 4) + Le(h.exports, 4)
    + Le(h.regionOff, 8) + Le(h.relocOff, 8) + Le(h.importOff, 8) + Le(h.exportOff, 8) + Le(h.stringOff, 8) + Le(h.stringSize, 8)
    + Le(h.entryRegion, 4) + Le(h.reserved, 4) + Le(h.entryOffset, 8)
  }

  function RegionOf(b: seq<byte>): Region
    requires |b| >= 32
  {
    Region(Field(b, 0, 4), Field(b, 4, 4), Field(b, 8, 8), Field(b, 16, 8), Field(b, 24, 8))
  }

  function RegionBytes(r: Region): (b: seq<byte>)
    ensures |b| == 32
  {
    Le(r.flags, 4) + Le(r.alignment, 4) + Le(r.fileOffset, 8) + Le(r.fileSize, 8) + Le(r.memorySize, 8)
  }

  function RelocOf(b: seq<byte>): Reloc
    requires |b| >= 40
  {
    Reloc(Field(b, 0, 4), Field(b, 4, 4), Field(b, 8, 4), Field(b, 12, 4), Field(b, 16, 8), Field(b, 24, 8), Field(b, 32, 8))
  }

  function RelocBytes(r: Reloc): (b: seq<byte>)
    ensures |b| == 40
  {
    Le(r.patchRegion, 4) + Le(r.kind, 4) + Le(r.targetRegion, 4) + Le(r.reserved, 4)
    + Le(r.patchOffset, 8) + Le(r.targetOffset, 8) + Le(r.addend, 8)
  }

  function ExportOf(b: seq<byte>): Export
    requires |b| >= 16
  {
    Export(Field(b, 0, 4), Field(b, 4, 4), Field(b, 8, 8))
  }

  function ImportOf(b: seq<byte>): Import
    requires |b| >= 8
  {
    Import(Field(b, 0, 4), Field(b, 4, 4))
  }

  function ExportBytes(e: Export): (b: seq<byte>)
    ensures |b| == 16
  {
    Le(e.nameOffset, 4) + Le(e.region, 4) + Le(e.offset, 8)
  }

  // ---------------------------------------------------------------- records round trip

  const W2: nat := 0x1_0000
  const W4: nat := 0x1_0000_0000
  const W8: nat := 0x1_0000_0000_0000_0000

  lemma FieldBack(b: seq<byte>, at: nat, n: nat, v: nat)
    requires at + n <= |b| && b[at..at + n] == Le(v, n)
    requires (n == 2 && v < W2) || (n == 4 && v < W4) || (n == 8 && v < W8)
    ensures Field(b, at, n) == v
  {
    hide Le, Value, Pow256;
    Powers();
    LeBack(v, n);
  }

  predicate HeaderFits(h: Header) {
    && h.magic < W4 && h.major < W2 && h.minor < W2 && h.arch < W2 && h.flags < W2 && h.headerSize < W4
    && h.regions < W4 && h.relocs < W4 && h.imports < W4 && h.exports < W4
    && h.regionOff < W8 && h.relocOff < W8 && h.importOff < W8 && h.exportOff < W8 && h.stringOff < W8 && h.stringSize < W8
    && h.entryRegion < W4 && h.reserved < W4 && h.entryOffset < W8
  }

  lemma HeaderSlices(h: Header)
    ensures var b := HeaderBytes(h);
      && b[0..4] == Le(h.magic, 4) && b[4..6] == Le(h.major, 2) && b[6..8] == Le(h.minor, 2) && b[8..10] == Le(h.arch, 2)
      && b[10..12] == Le(h.flags, 2) && b[12..16] == Le(h.headerSize, 4)
      && b[16..20] == Le(h.regions, 4) && b[20..24] == Le(h.relocs, 4) && b[24..28] == Le(h.imports, 4) && b[28..32] == Le(h.exports, 4)
      && b[32..40] == Le(h.regionOff, 8) && b[40..48] == Le(h.relocOff, 8) && b[48..56] == Le(h.importOff, 8)
      && b[56..64] == Le(h.exportOff, 8) && b[64..72] == Le(h.stringOff, 8) && b[72..80] == Le(h.stringSize, 8)
      && b[80..84] == Le(h.entryRegion, 4) && b[84..88] == Le(h.reserved, 4) && b[88..96] == Le(h.entryOffset, 8)
  {
    hide Le;
  }

  lemma HeaderBack(h: Header)
    requires HeaderFits(h)
    ensures HeaderOf(HeaderBytes(h)) == h
  {
    hide HeaderBytes, Le, Field;
    var b := HeaderBytes(h);
    HeaderSlices(h);
    FieldBack(b, 0, 4, h.magic);
    FieldBack(b, 4, 2, h.major);
    FieldBack(b, 6, 2, h.minor);
    FieldBack(b, 8, 2, h.arch);
    FieldBack(b, 10, 2, h.flags);
    FieldBack(b, 12, 4, h.headerSize);
    FieldBack(b, 16, 4, h.regions);
    FieldBack(b, 20, 4, h.relocs);
    FieldBack(b, 24, 4, h.imports);
    FieldBack(b, 28, 4, h.exports);
    FieldBack(b, 32, 8, h.regionOff);
    FieldBack(b, 40, 8, h.relocOff);
    FieldBack(b, 48, 8, h.importOff);
    FieldBack(b, 56, 8, h.exportOff);
    FieldBack(b, 64, 8, h.stringOff);
    FieldBack(b, 72, 8, h.stringSize);
    FieldBack(b, 80, 4, h.entryRegion);
    FieldBack(b, 84, 4, h.reserved);
    FieldBack(b, 88, 8, h.entryOffset);
  }

  lemma RegionSlices(r: Region)
    ensures var b := RegionBytes(r);
      && b[0..4] == Le(r.flags, 4) && b[4..8] == Le(r.alignment, 4) && b[8..16] == Le(r.fileOffset, 8)
      && b[16..24] == Le(r.fileSize, 8) && b[24..32] == Le(r.memorySize, 8)
  {
    hide Le;
    var x := Le(r.flags, 4) + Le(r.alignment, 4) + Le(r.fileOffset, 8) + Le(r.fileSize, 8);
    Slice(x, Le(r.memorySize, 8), []);
    assert RegionBytes(r) == x + Le(r.memorySize, 8) + [];
  }

  lemma RelocSlices(r: Reloc)
    ensures var b := RelocBytes(r);
      && b[0..4] == Le(r.patchRegion, 4) && b[4..8] == Le(r.kind, 4) && b[8..12] == Le(r.targetRegion, 4)
      && b[12..16] == Le(r.reserved, 4) && b[16..24] == Le(r.patchOffset, 8) && b[24..32] == Le(r.targetOffset, 8)
      && b[32..40] == Le(r.addend, 8)
  {
    hide Le;
    var x := Le(r.patchRegion, 4) + Le(r.kind, 4) + Le(r.targetRegion, 4) + Le(r.reserved, 4)
      + Le(r.patchOffset, 8) + Le(r.targetOffset, 8);
    Slice(x, Le(r.addend, 8), []);
    assert RelocBytes(r) == x + Le(r.addend, 8) + [];
  }

  lemma RegionBack(r: Region)
    requires r.flags < W4 && r.alignment < W4 && r.fileOffset < W8 && r.fileSize < W8 && r.memorySize < W8
    ensures RegionOf(RegionBytes(r)) == r
  {
    hide Le, Field, RegionBytes;
    var b := RegionBytes(r);
    RegionSlices(r);
    FieldBack(b, 0, 4, r.flags);
    FieldBack(b, 4, 4, r.alignment);
    FieldBack(b, 8, 8, r.fileOffset);
    FieldBack(b, 16, 8, r.fileSize);
    FieldBack(b, 24, 8, r.memorySize);
  }

  lemma RelocBack(r: Reloc)
    requires r.patchRegion < W4 && r.kind < W4 && r.targetRegion < W4 && r.reserved < W4
    requires r.patchOffset < W8 && r.targetOffset < W8 && r.addend < W8
    ensures RelocOf(RelocBytes(r)) == r
  {
    hide Le, Field, RelocBytes;
    var b := RelocBytes(r);
    RelocSlices(r);
    FieldBack(b, 0, 4, r.patchRegion);
    FieldBack(b, 4, 4, r.kind);
    FieldBack(b, 8, 4, r.targetRegion);
    FieldBack(b, 12, 4, r.reserved);
    FieldBack(b, 16, 8, r.patchOffset);
    FieldBack(b, 24, 8, r.targetOffset);
    FieldBack(b, 32, 8, r.addend);
  }

  lemma ExportBack(e: Export)
    requires e.nameOffset < W4 && e.region < W4 && e.offset < W8
    ensures ExportOf(ExportBytes(e)) == e
  {
    hide Le, Field;
    var b := ExportBytes(e);
    FieldBack(b, 0, 4, e.nameOffset);
    FieldBack(b, 4, 4, e.region);
    FieldBack(b, 8, 8, e.offset);
  }

  // ---------------------------------------------------------------- the writer

  /** A reference from the code to data (region 1) or to a string (region 2). */
  datatype Ref = Ref(offset: nat, target: nat, to: nat)

  datatype Func = Func(name: seq<byte>, offset: nat)

  datatype Program = Program(code: seq<byte>, data: seq<byte>, rodata: seq<byte>, refs: seq<Ref>, funcs: seq<Func>)

  function Align8(n: nat): (r: nat)
    ensures n <= r < n + 8 && r % 8 == 0
  {
    (n + 7) / 8 * 8
  }

  function Names(fs: seq<Func>): seq<byte> {
    if fs == [] then [] else Names(fs[..|fs| - 1]) + fs[|fs| - 1].name + [0]
  }

  function ExportOff(w: Program): nat { Align8(192 + 40 * |w.refs|) }
  function StringOff(w: Program): nat { ExportOff(w) + 16 * |w.funcs| }
  function CodeOff(w: Program): nat { Align8(StringOff(w) + |Names(w.funcs)|) }
  function DataOff(w: Program): nat { Align8(CodeOff(w) + |w.code|) }
  function RoOff(w: Program): nat { Align8(DataOff(w) + |w.data|) }
  function Total(w: Program): nat { RoOff(w) + |w.rodata| }

  function HeaderFor(w: Program): Header {
    Header(MAGIC, 1, 0, 1, 0, 96, 3, |w.refs|, 0, |w.funcs|,
           96, if |w.refs| > 0 then 192 else 0, 0, ExportOff(w), StringOff(w), |Names(w.funcs)|, 0, 0, 0)
  }

  function RegionFor(w: Program, i: nat): Region {
    var bytes, off, flags :=
      if i == 0 then w.code else if i == 1 then w.data else w.rodata,
      if i == 0 then CodeOff(w) else if i == 1 then DataOff(w) else RoOff(w),
      if i == 0 then 5 else if i == 1 then 3 else 1;
    Region(flags, 4096, if bytes == [] then 0 else off, |bytes|, if bytes == [] then 1 else |bytes|)
  }

  function RelocFor(r: Ref): Reloc { Reloc(0, 1, r.target, 0, r.offset, r.to, 0) }

  function Relocs(rs: seq<Ref>): seq<byte> {
    if rs == [] then [] else Relocs(rs[..|rs| - 1]) + RelocBytes(RelocFor(rs[|rs| - 1]))
  }

  function Exports(fs: seq<Func>): seq<byte> {
    if fs == [] then []
    else Exports(fs[..|fs| - 1]) + ExportBytes(Export(|Names(fs[..|fs| - 1])|, 0, fs[|fs| - 1].offset))
  }

  /** The file that output() writes, section after section. */
  function Image(w: Program): seq<byte> {
    HeaderBytes(HeaderFor(w))
    + (RegionBytes(RegionFor(w, 0)) + RegionBytes(RegionFor(w, 1)) + RegionBytes(RegionFor(w, 2)))
    + Relocs(w.refs) + Zeros(ExportOff(w) - 192 - 40 * |w.refs|)
    + Exports(w.funcs) + Names(w.funcs) + Zeros(CodeOff(w) - StringOff(w) - |Names(w.funcs)|)
    + w.code + Zeros(DataOff(w) - CodeOff(w) - |w.code|)
    + w.data + Zeros(RoOff(w) - DataOff(w) - |w.data|)
    + w.rodata
  }

  lemma {:induction false} RelocsSize(rs: seq<Ref>)
    ensures |Relocs(rs)| == 40 * |rs|
  {
    hide RelocBytes;
    if rs != [] {
      RelocsSize(rs[..|rs| - 1]);
    }
  }

  lemma {:induction false} RelocsAt(rs: seq<Ref>, i: nat)
    requires i < |rs|
    ensures |Relocs(rs)| == 40 * |rs| && Relocs(rs)[40 * i..40 * i + 40] == RelocBytes(RelocFor(rs[i]))
  {
    hide RelocBytes;
    RelocsSize(rs);
    var n := |rs| - 1;
    RelocsSize(rs[..n]);
    if i < n {
      RelocsAt(rs[..n], i);
      assert Relocs(rs)[40 * i..40 * i + 40] == Relocs(rs[..n])[40 * i..40 * i + 40];
    }
  }

  lemma {:induction false} ExportsSize(fs: seq<Func>)
    ensures |Exports(fs)| == 16 * |fs|
  {
    hide ExportBytes, Names;
    if fs != [] {
      ExportsSize(fs[..|fs| - 1]);
    }
  }

  lemma {:induction false} ExportsAt(fs: seq<Func>, i: nat)
    requires i < |fs|
    ensures |Exports(fs)| == 16 * |fs|
    ensures Exports(fs)[16 * i..16 * i + 16] == ExportBytes(Export(|Names(fs[..i])|, 0, fs[i].offset))
  {
    hide ExportBytes, Names;
    ExportsSize(fs);
    var n := |fs| - 1;
    ExportsSize(fs[..n]);
    if i < n {
      ExportsAt(fs[..n], i);
      assert fs[..n][..i] == fs[..i];
      assert Exports(fs)[16 * i..16 * i + 16] == Exports(fs[..n])[16 * i..16 * i + 16];
    }
  }

  lemma {:induction false} NamesAt(fs: seq<Func>, i: nat)
    requires i < |fs|
    ensures |Names(fs[..i])| + |fs[i].name| + 1 <= |Names(fs)|
    ensures Names(fs)[|Names(fs[..i])|..|Names(fs[..i])| + |fs[i].name| + 1] == fs[i].name + [0]
  {
    var n := |fs| - 1;
    if i < n {
      NamesAt(fs[..n], i);
      assert fs[..n][..i] == fs[..i];
      var at := |Names(fs[..i])|;
      assert Names(fs)[at..at + |fs[i].name| + 1] == Names(fs[..n])[at..at + |fs[i].name| + 1];
    } else {
      assert Names(fs) == Names(fs[..n]) + (fs[n].name + [0]);
    }
  }

  // ---------------------------------------------------------------- where the sections are

  lemma TablesAligned(w: Program)
    ensures ExportOff(w) == 192 + 40 * |w.refs| && StringOff(w) % 8 == 0
  {
    hide Align8;
    var n := 24 + 5 * |w.refs|;
    assert 192 + 40 * |w.refs| == 8 * n;
    Eights(n);
    assert StringOff(w) == 8 * (n + 2 * |w.funcs|);
    Eights(n + 2 * |w.funcs|);
  }

  lemma Eights(n: nat)
    ensures Align8(8 * n) == 8 * n && 8 * n % 8 == 0
  {
  }

  lemma Offsets(w: Program)
    ensures CodeOff(w) + |w.code| <= DataOff(w) && DataOff(w) + |w.data| <= RoOff(w) && Total(w) == RoOff(w) + |w.rodata|
  {
    hide Align8, StringOff, CodeOff;
  }

  lemma Slice(a: seq<byte>, b: seq<byte>, c: seq<byte>)
    ensures (a + b + c)[|a|..|a| + |b|] == b
  {
  }

  /** Everything before the code. */
  function Front(w: Program): seq<byte> {
    HeaderBytes(HeaderFor(w))
    + (RegionBytes(RegionFor(w, 0)) + RegionBytes(RegionFor(w, 1)) + RegionBytes(RegionFor(w, 2)))
    + Relocs(w.refs) + Zeros(ExportOff(w) - 192 - 40 * |w.refs|)
    + Exports(w.funcs) + Names(w.funcs) + Zeros(CodeOff(w) - StringOff(w) - |Names(w.funcs)|)
  }

  lemma FrontSections(w: Program)
    ensures var f := Front(w);
      && |f| == CodeOff(w) && 192 <= ExportOff(w) <= StringOff(w) && StringOff(w) + |Names(w.funcs)| <= CodeOff(w)
      && f[0..96] == HeaderBytes(HeaderFor(w))
      && f[96..128] == RegionBytes(RegionFor(w, 0)) && f[128..160] == RegionBytes(RegionFor(w, 1)) && f[160..192] == RegionBytes(RegionFor(w, 2))
      && f[192..192 + 40 * |w.refs|] == Relocs(w.refs)
      && f[ExportOff(w)..StringOff(w)] == Exports(w.funcs)
      && f[StringOff(w)..StringOff(w) + |Names(w.funcs)|] == Names(w.funcs)
  {
    hide HeaderBytes, RegionBytes, Relocs, Exports, Names, HeaderFor, RegionFor, Align8;
    RelocsSize(w.refs);
    ExportsSize(w.funcs);
    TablesAligned(w);
  }

  lemma FrontLength(w: Program)
    ensures |Front(w)| == CodeOff(w)
  {
    hide Front;
    FrontSections(w);
  }

  lemma ImageSections(w: Program)
    ensures var m := Image(w);
      && |m| == Total(w) && CodeOff(w) + |w.code| <= DataOff(w) && DataOff(w) + |w.data| <= RoOff(w)
      && m[..CodeOff(w)] == Front(w)
      && m[CodeOff(w)..CodeOff(w) + |w.code|] == w.code
      && m[DataOff(w)..DataOff(w) + |w.data|] == w.data
      && m[RoOff(w)..RoOff(w) + |w.rodata|] == w.rodata
  {
    FrontLength(w);
    FrontIs(w);
    Offsets(w);
    hide Front, Image, StringOff, CodeOff, DataOff, RoOff, Total;
    Blocks(Front(w), w.code, w.data, w.rodata, DataOff(w) - CodeOff(w) - |w.code|, RoOff(w) - DataOff(w) - |w.data|);
  }

  lemma Blocks(f: seq<byte>, c: seq<byte>, d: seq<byte>, r: seq<byte>, x: nat, y: nat)
    ensures var m := f + c + Zeros(x) + d + Zeros(y) + r;
      var at := |f| + |c| + x;
      && m[..|f|] == f && m[|f|..|f| + |c|] == c && m[at..at + |d|] == d && m[at + |d| + y..at + |d| + y + |r|] == r
      && |m| == at + |d| + y + |r|
  {
  }

  lemma FrontIs(w: Program)
    ensures Image(w) == Front(w) + w.code + Zeros(DataOff(w) - CodeOff(w) - |w.code|) + w.data + Zeros(RoOff(w) - DataOff(w) - |w.data|) + w.rodata
  {
    hide HeaderBytes, RegionBytes, Relocs, Exports, Names, HeaderFor, RegionFor, Align8;
  }

  /** A slice of the front is a slice of the image. */
  lemma InFront(w: Program, a: nat, b: nat)
    requires a <= b <= CodeOff(w)
    ensures |Image(w)| >= CodeOff(w) == |Front(w)| && Image(w)[a..b] == Front(w)[a..b]
  {
    hide Front, Image, CodeOff, DataOff, RoOff, Total;
    ImageSections(w);
    FrontLength(w);
    Offsets(w);
    SubSlice(Image(w), CodeOff(w), a, b);
  }

  lemma SubSlice(m: seq<byte>, n: nat, a: nat, b: nat)
    requires a <= b <= n <= |m|
    ensures m[..n][a..b] == m[a..b]
  {
  }

  /** Program that the compiler hands to output(). */
  ghost predicate Compiled(w: Program) {
    && 0 < |w.code| && Total(w) <= 4 * 1024 * 1024
    && 1 <= |w.funcs| <= 64 && |w.refs| <= 4096
    && (forall i :: 0 <= i < |w.funcs| ==> FuncOk(w, w.funcs[i]))
    && (forall i, j :: 0 <= i < j < |w.funcs| ==> w.funcs[i].name != w.funcs[j].name)
    && (forall i :: 0 <= i < |w.refs| ==> RefOk(w, w.refs[i]))
    && (forall i :: 0 <= i < |w.refs| - 1 ==> w.refs[i].offset + 8 <= w.refs[i + 1].offset)
  }

  /** An identifier of 1 to 95 characters, and an offset in the code. */
  ghost predicate FuncOk(w: Program, f: Func) {
    1 <= |f.name| <= 95 && (forall k :: 0 <= k < |f.name| ==> 33 <= f.name[k] <= 126) && f.offset < |w.code|
  }

  ghost predicate RefOk(w: Program, r: Ref) {
    r.offset + 8 <= |w.code| && ((r.target == 1 && r.to <= |w.data|) || (r.target == 2 && r.to <= |w.rodata|))
  }

  /** output(): the tables and the names are written entry by entry. */
  method Output(w: Program) returns (out: Result)
    ensures out == if Total(w) > 4 * 1024 * 1024 then TooBig else File(Image(w))
  {
    hide HeaderBytes, RegionBytes, RelocBytes, ExportBytes, Align8, HeaderFor, RegionFor;
    var names, i := 0, 0;
    var text: seq<byte> := [];
    var exports: seq<byte> := [];
    assert w.funcs[..0] == [];
    while i < |w.funcs|
      invariant 0 <= i <= |w.funcs| && text == Names(w.funcs[..i]) && exports == Exports(w.funcs[..i]) && names == |text|
    {
      var f := w.funcs[i];
      assert w.funcs[..i + 1][..i] == w.funcs[..i];
      exports := exports + ExportBytes(Export(names, 0, f.offset));
      text := text + f.name + [0];
      names := names + |f.name| + 1;
      i := i + 1;
    }
    assert w.funcs[..i] == w.funcs;
    var relocs: seq<byte> := [];
    i := 0;
    assert w.refs[..0] == [];
    while i < |w.refs|
      invariant 0 <= i <= |w.refs| && relocs == Relocs(w.refs[..i])
    {
      assert w.refs[..i + 1][..i] == w.refs[..i];
      relocs := relocs + RelocBytes(RelocFor(w.refs[i]));
      i := i + 1;
    }
    assert w.refs[..i] == w.refs;
    if Total(w) > 4 * 1024 * 1024 {
      return TooBig;
    }
    return File(HeaderBytes(HeaderFor(w))
      + (RegionBytes(RegionFor(w, 0)) + RegionBytes(RegionFor(w, 1)) + RegionBytes(RegionFor(w, 2)))
      + relocs + Zeros(ExportOff(w) - 192 - 40 * |w.refs|)
      + exports + text + Zeros(CodeOff(w) - StringOff(w) - |text|)
      + w.code + Zeros(DataOff(w) - CodeOff(w) - |w.code|)
      + w.data + Zeros(RoOff(w) - DataOff(w) - |w.data|)
      + w.rodata);
  }

  datatype Result = TooBig | File(bytes: seq<byte>)
}
