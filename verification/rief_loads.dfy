/**
 Writer and loader agree: every image that output() writes passes the loader's
 checks, and loading it leaves each relocated slot with the address it stands
 for and every other byte as the compiler wrote it.
 */
module RiefLoads {
  import opened Basics
  import opened LittleEndian
  import opened RiefImage
  import opened RiefLoader

  // ---------------------------------------------------------------- reading the tables back

  lemma FieldPrefix(b: seq<byte>, at: nat, n: nat, len: nat)
    requires at + n <= len <= |b|
    ensures Field(b, at, n) == Field(b[..len], at, n)
  {
    SubSlice(b, len, at, at + n);
  }

  lemma HeaderPrefix(b: seq<byte>)
    requires |b| >= 96
    ensures HeaderOf(b) == HeaderOf(b[..96])
  {
    hide Field;
    FieldPrefix(b, 0, 4, 96);
    FieldPrefix(b, 4, 2, 96);
    FieldPrefix(b, 6, 2, 96);
    FieldPrefix(b, 8, 2, 96);
    FieldPrefix(b, 10, 2, 96);
    FieldPrefix(b, 12, 4, 96);
    FieldPrefix(b, 16, 4, 96);
    FieldPrefix(b, 20, 4, 96);
    FieldPrefix(b, 24, 4, 96);
    FieldPrefix(b, 28, 4, 96);
    FieldPrefix(b, 32, 8, 96);
    FieldPrefix(b, 40, 8, 96);
    FieldPrefix(b, 48, 8, 96);
    FieldPrefix(b, 56, 8, 96);
    FieldPrefix(b, 64, 8, 96);
    FieldPrefix(b, 72, 8, 96);
    FieldPrefix(b, 80, 4, 96);
    FieldPrefix(b, 84, 4, 96);
    FieldPrefix(b, 88, 8, 96);
  }

  lemma Sizes(w: Program)
    requires Compiled(w)
    ensures 192 + 40 * |w.refs| == ExportOff(w) <= StringOff(w) <= CodeOff(w) < DataOff(w) <= RoOff(w) <= Total(w) <= 4 * 1024 * 1024
    ensures StringOff(w) == ExportOff(w) + 16 * |w.funcs| && StringOff(w) + |Names(w.funcs)| <= CodeOff(w)
    ensures CodeOff(w) + |w.code| <= DataOff(w) && DataOff(w) + |w.data| <= RoOff(w) && RoOff(w) + |w.rodata| == Total(w)
    ensures |Image(w)| == Total(w) && ExportOff(w) % 8 == 0
  {
    hide Image, Names, Align8, FuncOk, RefOk;
    TablesAligned(w);
    ImageSections(w);
    Offsets(w);
  }

  lemma HeaderRead(w: Program)
    requires Compiled(w)
    ensures |Image(w)| >= 96 && HeaderOf(Image(w)) == HeaderFor(w)
  {
    hide Image, HeaderBytes, HeaderOf, Compiled, ExportOff, StringOff, CodeOff, DataOff, RoOff, Total, Front, Names;
    Sizes(w);
    FrontSections(w);
    InFront(w, 0, 96);
    HeaderPrefix(Image(w));
    HeaderBack(HeaderFor(w));
    assert Image(w)[0..96] == Image(w)[..96];
  }

  /** Part of a table is part of what holds the table. */
  lemma RowOf(f: seq<byte>, at: nat, t: seq<byte>, k: nat, n: nat)
    requires at + |t| <= |f| && f[at..at + |t|] == t && k + n <= |t|
    ensures f[at + k..at + k + n] == t[k..k + n]
  {
    var x, y := f[at + k..at + k + n], t[k..k + n];
    forall i | 0 <= i < n
      ensures x[i] == y[i]
    {
      assert t[k + i] == f[at..at + |t|][k + i];
    }
  }

  lemma FrontRelocs(w: Program)
    ensures |Relocs(w.refs)| == 40 * |w.refs| && 192 + 40 * |w.refs| <= |Front(w)| && Front(w)[192..192 + 40 * |w.refs|] == Relocs(w.refs)
  {
    hide Relocs, Front, CodeOff;
    FrontSections(w);
    RelocsSize(w.refs);
    TablesAligned(w);
  }

  lemma FrontExports(w: Program)
    ensures |Exports(w.funcs)| == 16 * |w.funcs| && ExportOff(w) + |Exports(w.funcs)| == StringOff(w) <= |Front(w)|
    ensures Front(w)[ExportOff(w)..ExportOff(w) + |Exports(w.funcs)|] == Exports(w.funcs)
  {
    hide Exports, Front, CodeOff, ExportOff, Names;
    FrontSections(w);
    ExportsSize(w.funcs);
  }

  lemma FrontRegion(w: Program, i: nat)
    requires i < 3
    ensures |Front(w)| >= 192 && Front(w)[96 + 32 * i..96 + 32 * i + 32] == RegionBytes(RegionFor(w, i))
  {
    hide RegionBytes, RegionFor, ExportOff, StringOff, CodeOff, Front;
    FrontSections(w);
    if i == 0 {
      assert 96 + 32 * i == 96;
    } else if i == 1 {
      assert 96 + 32 * i == 128;
    } else {
      assert 96 + 32 * i == 160;
    }
  }

  lemma FrontReloc(w: Program, i: nat)
    requires i < |w.refs|
    ensures |Front(w)| >= 192 + 40 * |w.refs| && Front(w)[192 + 40 * i..192 + 40 * i + 40] == RelocBytes(RelocFor(w.refs[i]))
  {
    hide RelocBytes, Relocs, CodeOff, Front;
    FrontRelocs(w);
    RelocsAt(w.refs, i);
    RowOf(Front(w), 192, Relocs(w.refs), 40 * i, 40);
  }

  lemma FrontExport(w: Program, i: nat)
    requires i < |w.funcs|
    ensures |Front(w)| >= StringOff(w)
    ensures Front(w)[ExportOff(w) + 16 * i..ExportOff(w) + 16 * i + 16] == ExportBytes(Export(|Names(w.funcs[..i])|, 0, w.funcs[i].offset))
  {
    hide ExportBytes, Exports, Names, Front, ExportOff, StringOff;
    FrontExports(w);
    ExportsAt(w.funcs, i);
    RowOf(Front(w), ExportOff(w), Exports(w.funcs), 16 * i, 16);
  }

  lemma RegionRead(w: Program, i: nat)
    requires Compiled(w) && i < 3
    ensures |Image(w)| >= 192 && RegionOf(Image(w)[96 + 32 * i..96 + 32 * i + 32]) == RegionFor(w, i)
  {
    hide Image, RegionBytes, RegionOf, RegionFor, Compiled, ExportOff, StringOff, CodeOff, DataOff, RoOff, Total, Front;
    Sizes(w);
    RegionSize(w, i);
    FrontRegion(w, i);
    InFront(w, 96 + 32 * i, 96 + 32 * i + 32);
    RegionBack(RegionFor(w, i));
  }

  lemma RegionSize(w: Program, i: nat)
    requires Compiled(w) && i < 3
    ensures var r := RegionFor(w, i);
      r.flags < 8 && r.alignment == 4096 && r.fileOffset < W4 && r.fileSize < W4 && r.memorySize < W4
  {
    hide Compiled, ExportOff, StringOff, CodeOff, DataOff, RoOff, Total, Image, Names;
    Sizes(w);
  }

  lemma RelocRead(w: Program, i: nat)
    requires Compiled(w) && i < |w.refs|
    ensures |Image(w)| >= 192 + 40 * |w.refs| && RelocOf(Image(w)[192 + 40 * i..192 + 40 * i + 40]) == RelocFor(w.refs[i])
  {
    hide Image, RelocBytes, RelocOf, Compiled, ExportOff, StringOff, CodeOff, DataOff, RoOff, Total, Front;
    Sizes(w);
    RefFits(w, i);
    FrontReloc(w, i);
    InFront(w, 192 + 40 * i, 192 + 40 * i + 40);
    RelocBack(RelocFor(w.refs[i]));
  }

  lemma RefFits(w: Program, i: nat)
    requires Compiled(w) && i < |w.refs|
    ensures w.refs[i].target < W4 && w.refs[i].offset < W8 && w.refs[i].to < W8
  {
    Sizes(w);
    assert RefOk(w, w.refs[i]);
  }

  lemma ExportRead(w: Program, i: nat)
    requires Compiled(w) && i < |w.funcs|
    ensures |Image(w)| >= StringOff(w)
    ensures ExportOf(Image(w)[ExportOff(w) + 16 * i..ExportOff(w) + 16 * i + 16]) == Export(|Names(w.funcs[..i])|, 0, w.funcs[i].offset)
  {
    hide Image, ExportBytes, ExportOf, Names, Compiled, ExportOff, StringOff, CodeOff, DataOff, RoOff, Total, Front;
    Sizes(w);
    ExportFits(w, i);
    FrontExport(w, i);
    InFront(w, ExportOff(w) + 16 * i, ExportOff(w) + 16 * i + 16);
    ExportBack(Export(|Names(w.funcs[..i])|, 0, w.funcs[i].offset));
  }

  lemma ExportFits(w: Program, i: nat)
    requires Compiled(w) && i < |w.funcs|
    ensures |Names(w.funcs[..i])| < W4 && w.funcs[i].offset < W8
  {
    Sizes(w);
    assert FuncOk(w, w.funcs[i]);
    NamesAt(w.funcs, i);
  }

  lemma FrontStrings(w: Program)
    ensures StringOff(w) + |Names(w.funcs)| <= |Front(w)| && Front(w)[StringOff(w)..StringOff(w) + |Names(w.funcs)|] == Names(w.funcs)
  {
    hide Front, Names, StringOff, ExportOff;
    FrontSections(w);
  }

  lemma StringsRead(w: Program)
    requires Compiled(w)
    ensures |Image(w)| >= StringOff(w) + |Names(w.funcs)|
    ensures Image(w)[StringOff(w)..StringOff(w) + |Names(w.funcs)|] == Names(w.funcs)
  {
    hide Image, Names, Compiled, StringOff, CodeOff, Front;
    FrontLength(w);
    FrontStrings(w);
    InFront(w, StringOff(w), StringOff(w) + |Names(w.funcs)|);
  }

  lemma {:induction false} NameReads(s: seq<byte>, at: nat, n: nat, name: seq<byte>)
    requires at + |name| + 1 <= |s| && s[at..at + |name| + 1] == name + [0] && n + |name| < 128 && n + |name| > 0
    requires forall k :: 0 <= k < |name| ==> 33 <= name[k] <= 126
    ensures NameFrom(s, at, n) == Some(name)
    decreases |name|
  {
    assert s[at] == s[at..at + |name| + 1][0] == (name + [0])[0];
    if name != [] {
      assert s[at + 1..at + 1 + (|name| - 1) + 1] == s[at..at + |name| + 1][1..] == name[1..] + [0];
      NameReads(s, at + 1, n + 1, name[1..]);
      assert [name[0]] + name[1..] == name;
    }
  }

  // ---------------------------------------------------------------- the image passes the checks

  lemma NamesSome(w: Program)
    requires Compiled(w)
    ensures |Names(w.funcs)| > 0
  {
    hide Names;
    NamesAt(w.funcs, 0);
  }

  lemma ImageMetas(w: Program)
    requires Compiled(w)
    ensures HeaderOk(HeaderFor(w), |Image(w)|) && MetasOk(HeaderFor(w), |Image(w)|)
  {
    Sizes(w);
    NamesSome(w);
    assert 1 <= |w.funcs| <= 64 && |w.refs| <= 4096;
    hide Compiled, Names, Image, ExportOff, StringOff, CodeOff, DataOff, RoOff, Total;
    var h, size := HeaderFor(w), |Image(w)|;
    var ms := Metas(h);
    assert ms == [Span(0, 96), Span(96, 96), Span(h.relocOff, |w.refs| * 40), Span(0, 0),
                  Span(ExportOff(w), |w.funcs| * 16), Span(StringOff(w), |Names(w.funcs)|)];
    forall i | 0 <= i < 6
      ensures MetaOk(ms, i, size)
    {
      MetaCase(w, i, ms, size);
    }
  }

  lemma MetaCase(w: Program, i: nat, ms: seq<Span>, size: nat)
    requires i < 6 && 192 + 40 * |w.refs| == ExportOff(w) && StringOff(w) == ExportOff(w) + 16 * |w.funcs|
    requires StringOff(w) + |Names(w.funcs)| <= size && ExportOff(w) % 8 == 0 && |Names(w.funcs)| > 0 && |w.funcs| > 0
    requires ms == [Span(0, 96), Span(96, 96), Span(if |w.refs| > 0 then 192 else 0, |w.refs| * 40), Span(0, 0),
                    Span(ExportOff(w), |w.funcs| * 16), Span(StringOff(w), |Names(w.funcs)|)]
    ensures MetaOk(ms, i, size)
  {
    hide ExportOff, StringOff, Names;
    if i == 0 {
    } else if i == 1 {
    } else if i == 2 {
    } else if i == 3 {
    } else if i == 4 {
    } else {
    }
  }

  function RegionsFor(w: Program): seq<Region> { [RegionFor(w, 0), RegionFor(w, 1), RegionFor(w, 2)] }

  lemma RegionsRead(w: Program)
    requires Compiled(w)
    ensures SpanOk(96, 3 * 32, |Image(w)|) && RegionsOf(Image(w), HeaderFor(w)) == RegionsFor(w)
  {
    hide Compiled, Image, RegionOf, RegionFor;
    RegionRead(w, 0);
    RegionRead(w, 1);
    RegionRead(w, 2);
    var b, h := Image(w), HeaderFor(w);
    assert RegionAt(b, h, 0) == RegionFor(w, 0) && RegionAt(b, h, 1) == RegionFor(w, 1) && RegionAt(b, h, 2) == RegionFor(w, 2);
    assert RegionsOf(b, h) == RegionsFor(w);
  }

  lemma RelocsRead(w: Program)
    requires Compiled(w)
    ensures var b, h := Image(w), HeaderFor(w);
      SpanOk(h.relocOff, h.relocs * 40, |b|) && |RelocsOf(b, h)| == |w.refs|
      && forall i :: 0 <= i < |w.refs| ==> RelocsOf(b, h)[i] == RelocFor(w.refs[i])
  {
    hide Compiled, Image, RelocOf, RelocFor;
    var b, h := Image(w), HeaderFor(w);
    Sizes(w);
    forall i | 0 <= i < |w.refs|
      ensures SpanOk(h.relocOff, h.relocs * 40, |b|) && RelocsOf(b, h)[i] == RelocFor(w.refs[i])
    {
      RelocRead(w, i);
    }
  }

  lemma ExportSpan(w: Program)
    requires Compiled(w)
    ensures var h := HeaderFor(w);
      SpanOk(h.exportOff, h.exports * 16, |Image(w)|) && h.exportOff == ExportOff(w) && h.exports == |w.funcs|
  {
    hide Image, Names;
    Sizes(w);
  }

  lemma ExportsRead(w: Program)
    requires Compiled(w)
    ensures var b, h := Image(w), HeaderFor(w);
      SpanOk(h.exportOff, h.exports * 16, |b|) && |ExportsOf(b, h)| == |w.funcs|
      && forall i :: 0 <= i < |w.funcs| ==> ExportsOf(b, h)[i] == Export(|Names(w.funcs[..i])|, 0, w.funcs[i].offset)
  {
    hide Compiled, Image, ExportOf, Names, ExportOff, StringOff, HeaderFor;
    ExportSpan(w);
    var b, h := Image(w), HeaderFor(w);
    forall i | 0 <= i < |w.funcs|
      ensures ExportAt(b, h, i) == Export(|Names(w.funcs[..i])|, 0, w.funcs[i].offset)
    {
      ExportRead(w, i);
    }
  }

  lemma Page()
    ensures Power2(4096)
  {
    assert Power2(1) && Power2(2) && Power2(4) && Power2(8);
    assert Power2(16) && Power2(32) && Power2(64) && Power2(128);
    assert Power2(256) && Power2(512) && Power2(1024) && Power2(2048);
  }

  lemma ImageRegion(w: Program, i: nat)
    requires Compiled(w) && i < 3
    ensures RegionOk(RegionsFor(w), i, Metas(HeaderFor(w)), |Image(w)|)
  {
    hide Compiled, Image, RegionShape, Clear, Metas, HeaderFor, RegionFor;
    RegionInside(w, i);
    MetasBefore(w);
    RegionStart(w, i);
    var rs, ms := RegionsFor(w), Metas(HeaderFor(w));
    forall j | 0 <= j < |ms|
      ensures Clear(rs[i], ms[j])
    {
      ApartClear(rs[i], ms[j]);
    }
    forall j | 0 <= j < i
      ensures Clear(rs[i], Span(rs[j].fileOffset, rs[j].fileSize))
    {
      RegionsApart(w, j, i);
      ApartClear(rs[i], Span(rs[j].fileOffset, rs[j].fileSize));
    }
  }

  lemma ApartClear(r: Region, s: Span)
    requires r.fileSize == 0 || s.off + s.len <= r.fileOffset
    ensures Clear(r, s)
  {
  }

  lemma MetasBefore(w: Program)
    requires Compiled(w)
    ensures forall j :: 0 <= j < 6 ==> Metas(HeaderFor(w))[j].off + Metas(HeaderFor(w))[j].len <= CodeOff(w)
  {
    hide Compiled, Names, Image, ExportOff, StringOff, CodeOff, DataOff, RoOff, Total;
    Sizes(w);
    var ms := Metas(HeaderFor(w));
    assert ms == [Span(0, 96), Span(96, 96), Span(if |w.refs| > 0 then 192 else 0, |w.refs| * 40), Span(0, 0),
                  Span(ExportOff(w), |w.funcs| * 16), Span(StringOff(w), |Names(w.funcs)|)];
  }

  lemma RegionStart(w: Program, i: nat)
    requires Compiled(w) && i < 3
    ensures RegionFor(w, i).fileSize == 0 || CodeOff(w) <= RegionFor(w, i).fileOffset
  {
    hide Compiled, Names, Image, ExportOff, StringOff, CodeOff, DataOff, RoOff, Total;
    Sizes(w);
  }

  lemma RegionsApart(w: Program, j: nat, i: nat)
    requires Compiled(w) && j < i < 3
    ensures RegionFor(w, i).fileSize == 0 || RegionFor(w, j).fileOffset + RegionFor(w, j).fileSize <= RegionFor(w, i).fileOffset
  {
    hide Compiled, Names, Image, ExportOff, StringOff, CodeOff, DataOff, RoOff, Total;
    Sizes(w);
  }

  lemma RegionInside(w: Program, i: nat)
    requires Compiled(w) && i < 3
    ensures RegionShape(RegionFor(w, i), |Image(w)|) && RegionFor(w, i).memorySize <= 4 * 1024 * 1024
  {
    hide Compiled, Names, Image, Power2, ExportOff, StringOff, CodeOff, DataOff, RoOff, Total, RegionShape;
    Sizes(w);
    if i == 0 {
      ShapeFrom(5, CodeOff(w), w.code, |Image(w)|);
    } else if i == 1 {
      ShapeFrom(3, DataOff(w), w.data, |Image(w)|);
    } else {
      ShapeFrom(1, RoOff(w), w.rodata, |Image(w)|);
    }
  }

  lemma ShapeFrom(flags: nat, off: nat, bytes: seq<byte>, size: nat)
    requires flags in {1, 3, 5} && off + |bytes| <= size <= 4 * 1024 * 1024
    ensures RegionShape(Region(flags, 4096, if bytes == [] then 0 else off, |bytes|, if bytes == [] then 1 else |bytes|), size)
  {
    hide Power2;
    Page();
  }

  lemma ImagePages(w: Program)
    requires Compiled(w)
    ensures PagesOf(RegionsFor(w)) <= LIMIT && EntryOk(HeaderFor(w), RegionsFor(w))
  {
    assert |w.code| > 0;
    hide Compiled, Image, PagesOf, RegionShape, CodeOff, DataOff, RoOff;
    RegionInside(w, 0);
    RegionInside(w, 1);
    RegionInside(w, 2);
    PagesThree(RegionFor(w, 0), RegionFor(w, 1), RegionFor(w, 2));
  }

  lemma PagesThree(a: Region, b: Region, c: Region)
    ensures PagesOf([a, b, c]) <= a.memorySize + b.memorySize + c.memorySize + 3 * 4095
  {
    assert [a, b, c][..2] == [a, b] && [a, b][..1] == [a] && [a][..0] == [];
    PageRound(a.memorySize);
    PageRound(b.memorySize);
    PageRound(c.memorySize);
    assert PagesOf([a]) == (a.memorySize + 4095) / 4096 * 4096;
    assert PagesOf([a, b]) == PagesOf([a]) + (b.memorySize + 4095) / 4096 * 4096;
  }

  lemma PageRound(n: nat)
    ensures (n + 4095) / 4096 * 4096 <= n + 4095
  {
  }

  lemma ImageReloc(w: Program, i: nat)
    requires Compiled(w) && i < |w.refs|
    ensures RelocShape(RelocFor(w.refs[i]), RegionsFor(w), 0)
    ensures i > 0 ==> InOrder(RelocFor(w.refs[i - 1]), RelocFor(w.refs[i]))
  {
    assert RefOk(w, w.refs[i]);
    if i > 0 {
      assert w.refs[i - 1].offset + 8 <= w.refs[i].offset;
    }
    hide Compiled, ExportOff, StringOff, CodeOff, DataOff, RoOff, Total;
  }

  lemma ImageExport(w: Program, i: nat)
    requires Compiled(w) && i < |w.funcs|
    ensures NameFrom(Names(w.funcs), |Names(w.funcs[..i])|, 0) == Some(w.funcs[i].name) && w.funcs[i].offset < RegionFor(w, 0).memorySize
  {
    hide Names, NameFrom, ExportOff, StringOff, CodeOff, DataOff, RoOff, Total;
    assert FuncOk(w, w.funcs[i]);
    NamesAt(w.funcs, i);
    NameReads(Names(w.funcs), |Names(w.funcs[..i])|, 0, w.funcs[i].name);
  }

  lemma ImageTables(w: Program)
    requires Compiled(w)
    ensures var b, h := Image(w), HeaderFor(w);
      SpanOk(h.relocOff, h.relocs * 40, |b|) && SpanOk(h.exportOff, h.exports * 16, |b|)
      && TablesOk(h, RegionsFor(w), RelocsOf(b, h), ExportsOf(b, h), Names(w.funcs), |b|)
  {
    hide Image, Names, RelocsOf, ExportsOf, RegionOk, RelocShape, InOrder, NameFrom, PagesOf, EntryOk, Width, RegionFor, HeaderFor;
    NoImports(w);
    var b, h, rs := Image(w), HeaderFor(w), RegionsFor(w);
    RelocsRead(w);
    ExportsRead(w);
    ImagePages(w);
    forall i | 0 <= i < |rs|
      ensures RegionOk(rs, i, Metas(h), |b|)
    {
      ImageRegion(w, i);
    }
    var ls, es := RelocsOf(b, h), ExportsOf(b, h);
    forall i | 0 <= i < |ls|
      ensures RelocOk(ls, i, rs, h.imports)
    {
      ImageReloc(w, i);
    }
    forall i | 0 <= i < |es|
      ensures ExportOk(es, i, rs, Names(w.funcs))
    {
      ImageExport(w, i);
      forall j | 0 <= j < i
        ensures NameFrom(Names(w.funcs), es[j].nameOffset, 0) != NameFrom(Names(w.funcs), es[i].nameOffset, 0)
      {
        ImageExport(w, j);
      }
    }
    EntryFirst(w);
  }

  lemma NoImports(w: Program)
    ensures HeaderFor(w).imports == 0
  {
  }

  lemma EntryFirst(w: Program)
    ensures HeaderFor(w).entryRegion == 0
  {
  }

  /** Whatever the compiler writes, the loader takes. */
  lemma ImageAccepted(w: Program, host: Host)
    requires Compiled(w) && |host.bindings| <= 64
    ensures Accepts(Image(w), host)
  {
    hide Compiled, Image, HeaderOf, HeaderOk, MetasOk, MetaOk, TablesOk, RegionsOf, RelocsOf, ExportsOf, Names;
    var b, h := Image(w), HeaderFor(w);
    ImageMetas(w);
    HeaderRead(w);
    ImageSize(w);
    MetasInside(h, |b|);
    RegionsRead(w);
    StringsRead(w);
    ImageTables(w);
  }

  lemma ImageSize(w: Program)
    requires Compiled(w)
    ensures 96 <= |Image(w)| <= LIMIT
  {
    Sizes(w);
  }

  // ---------------------------------------------------------------- the loaded program

  lemma FileBytes(w: Program, i: nat)
    requires Compiled(w) && i < 3
    ensures var r := RegionFor(w, i);
      r.fileOffset + r.fileSize <= |Image(w)|
      && Image(w)[r.fileOffset..r.fileOffset + r.fileSize] == if i == 0 then w.code else if i == 1 then w.data else w.rodata
  {
    hide Compiled, Image, ExportOff, StringOff, CodeOff, DataOff, RoOff, Total, Front;
    Sizes(w);
    ImageSections(w);
  }

  /** The memory of a program before relocation. */
  function Fresh(bytes: seq<byte>): seq<byte> { if bytes == [] then [0] else bytes }

  /** Where the regions are; each lies in user memory. */
  ghost predicate Placed(w: Program, at: Placement) {
    |at.bases| == 3 && forall i :: 0 <= i < 3 ==> USER_BASE <= at.bases[i] && at.bases[i] + RegionFor(w, i).memorySize < USER_LIMIT
  }

  lemma LoadedRegion(w: Program, i: nat)
    requires Compiled(w) && i < 3
    ensures var r := RegionFor(w, i);
      && r.fileOffset + r.fileSize <= |Image(w)| && r.fileSize <= r.memorySize
      && Loaded(Image(w), r) == Fresh(if i == 0 then w.code else if i == 1 then w.data else w.rodata)
  {
    hide Compiled, Image, ExportOff, StringOff, CodeOff, DataOff, RoOff, Total;
    FileBytes(w, i);
    var bytes := if i == 0 then w.code else if i == 1 then w.data else w.rodata;
    assert bytes + Zeros(0) == bytes;
    assert [] + Zeros(1) == [0];
  }

  lemma LoadedMemory(w: Program)
    requires Compiled(w)
    ensures Initial(Image(w), RegionsFor(w)) == Some([Fresh(w.code), Fresh(w.data), Fresh(w.rodata)])
  {
    hide Compiled, Image, RegionFor, Loaded, Fresh;
    LoadedRegion(w, 0);
    LoadedRegion(w, 1);
    LoadedRegion(w, 2);
    var b, rs := Image(w), RegionsFor(w);
    assert |rs| == 3 && Initial(b, rs).Some?;
    assert Initial(b, rs).value == [Fresh(w.code), Fresh(w.data), Fresh(w.rodata)];
  }

  lemma SlotValue(w: Program, at: Placement, i: nat)
    requires Compiled(w) && Placed(w, at) && i < |w.refs|
    ensures Slot(RelocFor(w.refs[i]), RegionsFor(w), at) == Some(Le(at.bases[w.refs[i].target] + w.refs[i].to, 8))
  {
    hide Le, ExportOff, StringOff, CodeOff, DataOff, RoOff, Total;
    assert RefOk(w, w.refs[i]);
    var r := w.refs[i];
    assert r.to <= RegionFor(w, r.target).memorySize;
    assert USER_BASE <= at.bases[r.target] && at.bases[r.target] + RegionFor(w, r.target).memorySize < USER_LIMIT;
  }

  /** Every reference in the code region holds its address, every other byte is the compiler's. */
  ghost predicate Linked(w: Program, at: Placement, m: Memory)
    requires |at.bases| == 3
  {
    && |m| == 3 && m[1] == Fresh(w.data) && m[2] == Fresh(w.rodata) && |m[0]| == |w.code|
    && (forall i :: 0 <= i < |w.refs| ==> AddressAt(w, at, m[0], i))
    && (forall x :: 0 <= x < |w.code| && !InRef(w, x) ==> m[0][x] == w.code[x])
  }

  ghost predicate AddressAt(w: Program, at: Placement, code: seq<byte>, i: nat)
    requires i < |w.refs| && |at.bases| == 3
  {
    var r := w.refs[i];
    r.offset + 8 <= |code| && r.target < 3 && code[r.offset..r.offset + 8] == Le(at.bases[r.target] + r.to, 8)
  }

  ghost predicate InRef(w: Program, x: nat) {
    exists i :: 0 <= i < |w.refs| && w.refs[i].offset <= x < w.refs[i].offset + 8
  }

  /** Loading what the compiler wrote succeeds and leaves the linked program. */
  lemma LoadedProgram(w: Program, host: Host, at: Placement)
    requires Compiled(w) && |host.bindings| <= 64 && Placed(w, at)
    ensures Accepts(Image(w), host)
    ensures Initial(Image(w), RegionsFor(w)) == Some([Fresh(w.code), Fresh(w.data), Fresh(w.rodata)])
    ensures SpanOk(HeaderFor(w).relocOff, HeaderFor(w).relocs * 40, |Image(w)|)
    ensures var ls := RelocsOf(Image(w), HeaderFor(w));
      var done := Relocated([Fresh(w.code), Fresh(w.data), Fresh(w.rodata)], ls, RegionsFor(w), at, |ls|);
      |ls| == |w.refs| && done.Some? && Linked(w, at, done.value)
  {
    hide Image, Accepts, HeaderFor, Relocated, RelocsOf, Slot, Initial, Le, RegionFor, CodeOff, DataOff, RoOff, Total, StringOff, ExportOff;
    ImageAccepted(w, host);
    LoadedMemory(w);
    RelocsRead(w);
    var mem := [Fresh(w.code), Fresh(w.data), Fresh(w.rodata)];
    var ls, rs := RelocsOf(Image(w), HeaderFor(w)), RegionsFor(w);
    forall i | 0 <= i < |ls|
      ensures RelocFits(mem, ls[i]) && Slot(ls[i], rs, at).Some? && (i > 0 ==> InOrder(ls[i - 1], ls[i]))
    {
      ImageReloc(w, i);
      SlotValue(w, at, i);
      assert RefOk(w, w.refs[i]);
    }
    RelocatedIs(mem, ls, rs, at, |ls|);
    var done := Relocated(mem, ls, rs, at, |ls|).value;
    forall i | 0 <= i < |w.refs|
      ensures AddressAt(w, at, done[0], i)
    {
      assert RefOk(w, w.refs[i]);
      SlotValue(w, at, i);
      assert Holds(done, ls[i], rs, at);
    }
    forall x | 0 <= x < |w.code| && !InRef(w, x)
      ensures done[0][x] == w.code[x]
    {
      assert !Touched(ls, |ls|, 0, x);
    }
    forall k | 1 <= k < 3
      ensures done[k] == mem[k]
    {
      forall x | 0 <= x < |mem[k]|
        ensures done[k][x] == mem[k][x]
      {
        assert !Touched(ls, |ls|, k, x);
      }
    }
  }
}
