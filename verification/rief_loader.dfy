/**
 The RIEF loader: the checks of rief_load_locked, and the relocation of a loaded
 image. Sorted, disjoint relocations leave every slot with its own value and
 every other byte as it is in the file.
 */
module RiefLoader {
  import opened Basics
  import opened LittleEndian
  import opened RiefImage

  datatype Error = Ok | EINVAL | ENOEXEC | E2BIG | ENOENT | EFAULT

  const LIMIT: nat := 64 * 1024 * 1024

  predicate SpanOk(off: nat, n: nat, size: nat) { off <= size && n <= size - off }

  datatype Span = Span(off: nat, len: nat)

  /** Header and tables, in the order of the checks. */
  function Metas(h: Header): (r: seq<Span>)
    ensures |r| == 6
  {
    [Span(0, h.headerSize), Span(h.regionOff, h.regions * 32), Span(h.relocOff, h.relocs * 40),
     Span(h.importOff, h.imports * 8), Span(h.exportOff, h.exports * 16), Span(h.stringOff, h.stringSize)]
  }

  predicate HeaderOk(h: Header, size: nat) {
    && h.magic == MAGIC && h.major == 1 && h.minor == 0 && h.arch == 1 && h.flags == 0 && h.reserved == 0
    && 96 <= h.headerSize <= 4096 && h.headerSize <= size && 1 <= h.regions <= 64 && h.relocs <= 4096
    && h.imports <= 64 && h.exports <= 64 && h.entryRegion < h.regions
  }

  predicate MetaOk(ms: seq<Span>, i: nat, size: nat)
    requires i < |ms|
  {
    && SpanOk(ms[i].off, ms[i].len, size) && (ms[i].len == 0 ==> ms[i].off == 0) && (0 < i < 5 ==> ms[i].off % 8 == 0)
    && forall j :: 0 <= j < i ==> !Overlap(ms[i].off, ms[i].len, ms[j].off, ms[j].len)
  }

  predicate MetasOk(h: Header, size: nat) { forall i :: 0 <= i < 6 ==> MetaOk(Metas(h), i, size) }

  /** Region i of the table. */
  function RegionAt(b: seq<byte>, h: Header, i: nat): Region
    requires SpanOk(h.regionOff, h.regions * 32, |b|) && i < h.regions
  {
    RegionOf(b[h.regionOff + 32 * i..h.regionOff + 32 * i + 32])
  }

  function RelocAt(b: seq<byte>, h: Header, i: nat): Reloc
    requires SpanOk(h.relocOff, h.relocs * 40, |b|) && i < h.relocs
  {
    RelocOf(b[h.relocOff + 40 * i..h.relocOff + 40 * i + 40])
  }

  function ExportAt(b: seq<byte>, h: Header, i: nat): Export
    requires SpanOk(h.exportOff, h.exports * 16, |b|) && i < h.exports
  {
    ExportOf(b[h.exportOff + 16 * i..h.exportOff + 16 * i + 16])
  }

  function ImportAt(b: seq<byte>, h: Header, i: nat): Import
    requires SpanOk(h.importOff, h.imports * 8, |b|) && i < h.imports
  {
    ImportOf(b[h.importOff + 8 * i..h.importOff + 8 * i + 8])
  }

  predicate RegionShape(r: Region, size: nat) {
    && 0 < r.memorySize <= LIMIT && r.fileSize <= r.memorySize && SpanOk(r.fileOffset, r.fileSize, size)
    && Power2(r.alignment) && r.alignment <= 0x4000_0000
    && r.flags < 8 && r.flags % 2 == 1 && !(r.flags / 2 % 2 == 1 && r.flags / 4 % 2 == 1)
  }

  function PagesOf(rs: seq<Region>): nat {
    if rs == [] then 0 else PagesOf(rs[..|rs| - 1]) + (rs[|rs| - 1].memorySize + 4095) / 4096 * 4096
  }

  predicate Clear(r: Region, s: Span) { !Overlap(r.fileOffset, r.fileSize, s.off, s.len) }

  /** Region i is well formed and its bytes are in no table and in no earlier region. */
  predicate RegionOk(rs: seq<Region>, i: nat, ms: seq<Span>, size: nat)
    requires i < |rs|
  {
    && RegionShape(rs[i], size) && (forall j :: 0 <= j < |ms| ==> Clear(rs[i], ms[j]))
    && (forall j :: 0 <= j < i ==> Clear(rs[i], Span(rs[j].fileOffset, rs[j].fileSize)))
  }

  function Width(r: Reloc): nat { if r.kind == 2 then 4 else 8 }

  predicate RelocShape(r: Reloc, rs: seq<Region>, imports: nat) {
    && r.reserved == 0 && 1 <= r.kind <= 4 && r.patchRegion < |rs|
    && SpanOk(r.patchOffset, Width(r), rs[r.patchRegion].memorySize)
    && (if r.kind == 4 then r.targetRegion < imports && r.targetOffset == 0
        else r.targetRegion < |rs| && r.targetOffset <= rs[r.targetRegion].memorySize)
  }

  /** Relocations come in order and do not touch. */
  predicate InOrder(a: Reloc, b: Reloc) {
    a.patchRegion < b.patchRegion || (a.patchRegion == b.patchRegion && a.patchOffset + Width(a) <= b.patchOffset)
  }

  predicate RelocOk(ls: seq<Reloc>, i: nat, rs: seq<Region>, imports: nat)
    requires i < |ls|
  {
    RelocShape(ls[i], rs, imports) && (i > 0 ==> InOrder(ls[i - 1], ls[i]))
  }

  /** The zero-terminated name at an offset of the string table. */
  function NameFrom(s: seq<byte>, at: nat, n: nat): Option<seq<byte>>
    requires n <= 128
    decreases 128 - n
  {
    if n == 128 || at >= |s| then None
    else if s[at] == 0 then (if n == 0 then None else Some([]))
    else if s[at] < 33 || s[at] > 126 then None
    else match NameFrom(s, at + 1, n + 1)
         case None => None
         case Some(r) => Some([s[at]] + r)
  }

  /** A symbol that the caller offers; the name may be missing. */
  datatype Binding = Binding(name: Option<seq<byte>>, address: nat)

  /** What the caller binds, and which addresses of the process can be read. */
  datatype Host = Host(bindings: seq<Binding>, readable: nat -> bool)

  predicate Offers(w: Host, k: nat, name: seq<byte>)
    requires k < |w.bindings|
  {
    w.bindings[k].name == Some(name)
  }

  /** One binding, and only one, has the name, and it can be read. */
  ghost predicate Bound(w: Host, name: seq<byte>, address: nat) {
    exists k :: 0 <= k < |w.bindings| && Offers(w, k, name) && w.bindings[k].address == address && w.readable(address)
      && forall j :: 0 <= j < |w.bindings| && Offers(w, j, name) ==> j == k
  }

  ghost predicate ImportOk(m: Import, strings: seq<byte>, w: Host) {
    && m.reserved == 0 && NameFrom(strings, m.nameOffset, 0).Some?
    && exists a: nat :: Bound(w, NameFrom(strings, m.nameOffset, 0).value, a)
  }

  /** The addresses that the imports stand for. */
  ghost predicate ImportsBound(ms: seq<Import>, strings: seq<byte>, w: Host, addresses: seq<nat>) {
    |addresses| == |ms| && forall i :: 0 <= i < |ms| ==>
      NameFrom(strings, ms[i].nameOffset, 0).Some? && Bound(w, NameFrom(strings, ms[i].nameOffset, 0).value, addresses[i])
  }

  predicate ExportOk(es: seq<Export>, i: nat, rs: seq<Region>, strings: seq<byte>)
    requires i < |es|
  {
    && es[i].region < |rs| && es[i].offset < rs[es[i].region].memorySize && NameFrom(strings, es[i].nameOffset, 0).Some?
    && forall j :: 0 <= j < i ==> NameFrom(strings, es[j].nameOffset, 0) != NameFrom(strings, es[i].nameOffset, 0)
  }

  /** The tables of an image whose header and spans are in order. */
  function RegionsOf(b: seq<byte>, h: Header): seq<Region>
    requires SpanOk(h.regionOff, h.regions * 32, |b|)
  {
    seq(h.regions, i requires 0 <= i < h.regions => RegionAt(b, h, i))
  }

  function RelocsOf(b: seq<byte>, h: Header): seq<Reloc>
    requires SpanOk(h.relocOff, h.relocs * 40, |b|)
  {
    seq(h.relocs, i requires 0 <= i < h.relocs => RelocAt(b, h, i))
  }

  function ExportsOf(b: seq<byte>, h: Header): seq<Export>
    requires SpanOk(h.exportOff, h.exports * 16, |b|)
  {
    seq(h.exports, i requires 0 <= i < h.exports => ExportAt(b, h, i))
  }

  function ImportsOf(b: seq<byte>, h: Header): seq<Import>
    requires SpanOk(h.importOff, h.imports * 8, |b|)
  {
    seq(h.imports, i requires 0 <= i < h.imports => ImportAt(b, h, i))
  }

  function Strings(b: seq<byte>, h: Header): seq<byte>
    requires SpanOk(h.stringOff, h.stringSize, |b|)
  {
    b[h.stringOff..h.stringOff + h.stringSize]
  }

  predicate EntryOk(h: Header, rs: seq<Region>)
    requires h.entryRegion < |rs|
  {
    rs[h.entryRegion].flags / 4 % 2 == 1 && h.entryOffset < rs[h.entryRegion].fileSize
  }

  /** Every check of the loader before it allocates. */
  ghost predicate Accepts(b: seq<byte>, w: Host) {
    && |w.bindings| <= 64 && 96 <= |b| <= LIMIT
    && (var h := HeaderOf(b);
        && HeaderOk(h, |b|) && (forall i :: 96 <= i < h.headerSize ==> b[i] == 0) && MetasOk(h, |b|)
        && (var ms := Metas(h);
            && MetaOk(ms, 1, |b|) && MetaOk(ms, 2, |b|) && MetaOk(ms, 3, |b|) && MetaOk(ms, 4, |b|) && MetaOk(ms, 5, |b|)
            && (forall i :: 0 <= i < h.imports ==> ImportOk(ImportAt(b, h, i), Strings(b, h), w))
            && TablesOk(h, RegionsOf(b, h), RelocsOf(b, h), ExportsOf(b, h), Strings(b, h), |b|)))
  }

  predicate TablesOk(h: Header, rs: seq<Region>, ls: seq<Reloc>, es: seq<Export>, strings: seq<byte>, size: nat) {
    && (forall i :: 0 <= i < |rs| ==> RegionOk(rs, i, Metas(h), size)) && PagesOf(rs) <= LIMIT
    && h.entryRegion < |rs| && EntryOk(h, rs)
    && (forall i :: 0 <= i < |ls| ==> RelocOk(ls, i, rs, h.imports))
    && (forall i :: 0 <= i < |es| ==> ExportOk(es, i, rs, strings))
  }

  // ---------------------------------------------------------------- the loops of the checks

  method CheckMetas(h: Header, size: nat) returns (ok: bool)
    ensures ok <==> MetasOk(h, size)
  {
    hide Metas;
    var ms := Metas(h);
    var i := 0;
    while i < 6
      invariant 0 <= i <= 6 && forall k :: 0 <= k < i ==> MetaOk(ms, k, size)
    {
      if !SpanOk(ms[i].off, ms[i].len, size) || (ms[i].len == 0 && ms[i].off != 0) || (i > 0 && i < 5 && ms[i].off % 8 != 0) {
        assert !MetaOk(ms, i, size);
        return false;
      }
      var j := 0;
      while j < i
        invariant 0 <= j <= i && forall k :: 0 <= k < j ==> !Overlap(ms[i].off, ms[i].len, ms[k].off, ms[k].len)
      {
        if Overlap(ms[i].off, ms[i].len, ms[j].off, ms[j].len) {
          assert !MetaOk(ms, i, size);
          return false;
        }
        j := j + 1;
      }
      i := i + 1;
    }
    return true;
  }

  method CheckRegions(rs: seq<Region>, ms: seq<Span>, size: nat) returns (e: Error)
    ensures e == Ok <==> (forall i :: 0 <= i < |rs| ==> RegionOk(rs, i, ms, size)) && PagesOf(rs) <= LIMIT
    ensures e in {Ok, ENOEXEC, E2BIG}
  {
    hide RegionShape, Overlap;
    var i, total := 0, 0;
    assert rs[..0] == [];
    while i < |rs|
      invariant 0 <= i <= |rs| && (forall k :: 0 <= k < i ==> RegionOk(rs, k, ms, size)) && total == PagesOf(rs[..i]) <= LIMIT
    {
      var r := rs[i];
      if !RegionShape(r, size) {
        assert !RegionOk(rs, i, ms, size);
        return ENOEXEC;
      }
      assert rs[..i + 1][..i] == rs[..i];
      PagesGrow(rs, i + 1);
      total := total + (r.memorySize + 4095) / 4096 * 4096;
      if total > LIMIT {
        return E2BIG;
      }
      var j := 0;
      while j < |ms|
        invariant 0 <= j <= |ms| && forall k :: 0 <= k < j ==> Clear(r, ms[k])
      {
        if Overlap(r.fileOffset, r.fileSize, ms[j].off, ms[j].len) {
          assert !Clear(rs[i], ms[j]);
          assert !RegionOk(rs, i, ms, size);
          return ENOEXEC;
        }
        j := j + 1;
      }
      j := 0;
      while j < i
        invariant 0 <= j <= i && forall k :: 0 <= k < j ==> Clear(r, Span(rs[k].fileOffset, rs[k].fileSize))
      {
        if Overlap(r.fileOffset, r.fileSize, rs[j].fileOffset, rs[j].fileSize) {
          assert !Clear(rs[i], Span(rs[j].fileOffset, rs[j].fileSize));
          assert !RegionOk(rs, i, ms, size);
          return ENOEXEC;
        }
        j := j + 1;
      }
      i := i + 1;
    }
    assert rs[..i] == rs;
    return Ok;
  }

  lemma {:induction false} PagesGrow(rs: seq<Region>, n: nat)
    requires n <= |rs|
    ensures PagesOf(rs[..n]) <= PagesOf(rs)
  {
    if n < |rs| {
      PagesGrow(rs[..|rs| - 1], n);
      assert rs[..|rs| - 1][..n] == rs[..n];
    } else {
      assert rs[..n] == rs;
    }
  }

  method CheckRelocs(ls: seq<Reloc>, rs: seq<Region>, imports: nat) returns (ok: bool)
    ensures ok <==> forall i :: 0 <= i < |ls| ==> RelocOk(ls, i, rs, imports)
  {
    hide RelocShape;
    var lastRegion, lastEnd, i := 0, 0, 0;
    while i < |ls|
      invariant 0 <= i <= |ls| && forall k :: 0 <= k < i ==> RelocOk(ls, k, rs, imports)
      invariant i > 0 ==> lastRegion == ls[i - 1].patchRegion && lastEnd == ls[i - 1].patchOffset + Width(ls[i - 1])
    {
      var r := ls[i];
      if !RelocShape(r, rs, imports)
        || (i > 0 && (r.patchRegion < lastRegion || (r.patchRegion == lastRegion && r.patchOffset < lastEnd))) {
        assert !RelocOk(ls, i, rs, imports);
        return false;
      }
      lastRegion, lastEnd := r.patchRegion, r.patchOffset + Width(r);
      i := i + 1;
    }
    return true;
  }

  /** rief_string. */
  method ReadName(s: seq<byte>, off: nat) returns (name: Option<seq<byte>>)
    ensures name == NameFrom(s, off, 0)
  {
    hide NameFrom, After;
    var text: seq<byte> := [];
    var n := 0;
    AfterNothing(NameFrom(s, off, 0));
    while n < 128 && off + n < |s|
      invariant 0 <= n <= 128 && |text| == n && NameFrom(s, off, 0) == After(text, NameFrom(s, off + n, n))
    {
      NameStep(s, off + n, n, text);
      if s[off + n] == 0 {
        return if n > 0 then Some(text) else None;
      }
      if s[off + n] < 33 || s[off + n] > 126 {
        return None;
      }
      text := text + [s[off + n]];
      n := n + 1;
    }
    NameEnd(s, off + n, n, text);
    return None;
  }

  /** A name that continues a text. */
  function After(text: seq<byte>, rest: Option<seq<byte>>): Option<seq<byte>> {
    match rest case None => None case Some(r) => Some(text + r)
  }

  lemma AfterNothing(rest: Option<seq<byte>>)
    ensures After([], rest) == rest
  {
    if rest.Some? {
      assert [] + rest.value == rest.value;
    }
  }

  lemma NameStep(s: seq<byte>, at: nat, n: nat, text: seq<byte>)
    requires n < 128 && at < |s|
    ensures After(text, NameFrom(s, at, n)) ==
      if s[at] == 0 then (if n == 0 then None else Some(text))
      else if s[at] < 33 || s[at] > 126 then None
      else After(text + [s[at]], NameFrom(s, at + 1, n + 1))
  {
    assert text + [] == text;
    var rest := NameFrom(s, at + 1, n + 1);
    if rest.Some? {
      assert text + ([s[at]] + rest.value) == text + [s[at]] + rest.value;
    }
  }

  lemma NameEnd(s: seq<byte>, at: nat, n: nat, text: seq<byte>)
    requires n <= 128 && (n == 128 || at >= |s|)
    ensures After(text, NameFrom(s, at, n)) == None
  {
  }

  method CheckExports(es: seq<Export>, rs: seq<Region>, strings: seq<byte>) returns (ok: bool)
    ensures ok <==> forall i :: 0 <= i < |es| ==> ExportOk(es, i, rs, strings)
  {
    hide NameFrom;
    var names: seq<seq<byte>> := [];
    var i := 0;
    while i < |es|
      invariant 0 <= i <= |es| && |names| == i && forall k :: 0 <= k < i ==> ExportOk(es, k, rs, strings)
      invariant forall k :: 0 <= k < i ==> NameFrom(strings, es[k].nameOffset, 0) == Some(names[k])
    {
      var e := es[i];
      var name := ReadName(strings, e.nameOffset);
      if e.region >= |rs| || e.offset >= rs[e.region].memorySize || name.None? {
        assert !ExportOk(es, i, rs, strings);
        return false;
      }
      var j := 0;
      while j < i
        invariant 0 <= j <= i && forall k :: 0 <= k < j ==> names[k] != name.value
      {
        if names[j] == name.value {
          assert NameFrom(strings, es[j].nameOffset, 0) == NameFrom(strings, es[i].nameOffset, 0);
          assert !ExportOk(es, i, rs, strings);
          return false;
        }
        j := j + 1;
      }
      names := names + [name.value];
      i := i + 1;
    }
    return true;
  }

  /** The scan of the bindings for one name. */
  method Bind(w: Host, name: seq<byte>) returns (e: Error, address: nat)
    ensures e == Ok ==> Bound(w, name, address)
    ensures e != Ok ==> forall a :: !Bound(w, name, a)
    ensures e == ENOENT <==> forall k :: 0 <= k < |w.bindings| ==> !Offers(w, k, name)
    ensures e in {Ok, ENOENT, EFAULT}
  {
    hide Offers;
    address := 0;
    var found := false;
    ghost var at := 0;
    var k := 0;
    while k < |w.bindings|
      invariant 0 <= k <= |w.bindings|
      invariant if found then 0 <= at < k && Offers(w, at, name) && w.bindings[at].address == address && w.readable(address) else true
      invariant forall j :: 0 <= j < k && Offers(w, j, name) ==> found && j == at
    {
      if Offers(w, k, name) {
        if found || !w.readable(w.bindings[k].address) {
          return EFAULT, 0;
        }
        address, found, at := w.bindings[k].address, true, k;
      }
      k := k + 1;
    }
    e := if found then Ok else ENOENT;
  }

  /** The import table against the bindings. */
  method CheckImports(ms: seq<Import>, strings: seq<byte>, w: Host) returns (e: Error, addresses: seq<nat>)
    ensures e == Ok <==> forall i :: 0 <= i < |ms| ==> ImportOk(ms[i], strings, w)
    ensures e == Ok ==> ImportsBound(ms, strings, w, addresses)
    ensures e in {Ok, ENOEXEC, ENOENT, EFAULT}
  {
    hide NameFrom, Bound;
    addresses := [];
    var i := 0;
    while i < |ms|
      invariant 0 <= i <= |ms| && (forall k :: 0 <= k < i ==> ImportOk(ms[k], strings, w)) && ImportsBound(ms[..i], strings, w, addresses)
    {
      var name := ReadName(strings, ms[i].nameOffset);
      if ms[i].reserved != 0 || name.None? {
        assert !ImportOk(ms[i], strings, w);
        return ENOEXEC, addresses;
      }
      var address;
      e, address := Bind(w, name.value);
      if e != Ok {
        assert !ImportOk(ms[i], strings, w);
        return;
      }
      assert ImportOk(ms[i], strings, w);
      addresses := addresses + [address];
      i := i + 1;
    }
    assert ms[..i] == ms;
    return Ok, addresses;
  }

  /** The checks of rief_load_locked before it allocates. */
  method Check(b: seq<byte>, w: Host) returns (e: Error, addresses: seq<nat>)
    ensures e == Ok <==> Accepts(b, w)
    ensures e == Ok ==> var h := HeaderOf(b);
      SpanOk(h.importOff, h.imports * 8, |b|) && SpanOk(h.stringOff, h.stringSize, |b|)
      && ImportsBound(ImportsOf(b, h), Strings(b, h), w, addresses)
  {
    hide HeaderOf, HeaderOk, MetasOk, RegionOk, RelocOk, ExportOk, PagesOf, RegionsOf, RelocsOf, ExportsOf, EntryOk, ImportOk, ImportOf,
      ImportsBound, Strings;
    addresses := [];
    if |w.bindings| > 64 {
      return EINVAL, addresses;
    }
    if |b| < 96 || |b| > LIMIT {
      return ENOEXEC, addresses;
    }
    var h := HeaderOf(b);
    if !HeaderOk(h, |b|) {
      return ENOEXEC, addresses;
    }
    HeaderBounds(h, |b|);
    var i := 96;
    while i < h.headerSize
      invariant 96 <= i <= h.headerSize && forall k :: 96 <= k < i ==> b[k] == 0
    {
      if b[i] != 0 {
        return ENOEXEC, addresses;
      }
      i := i + 1;
    }
    var metas := CheckMetas(h, |b|);
    if !metas {
      return ENOEXEC, addresses;
    }
    MetasInside(h, |b|);
    var rs, ls, es := RegionsOf(b, h), RelocsOf(b, h), ExportsOf(b, h);
    RegionsCount(b, h);
    e := CheckRegions(rs, Metas(h), |b|);
    if e != Ok {
      return;
    }
    if !EntryOk(h, rs) {
      return ENOEXEC, addresses;
    }
    var ms := ImportsOf(b, h);
    assert forall k :: 0 <= k < h.imports ==> ms[k] == ImportAt(b, h, k);
    e, addresses := CheckImports(ms, Strings(b, h), w);
    if e != Ok {
      return;
    }
    var relocs := CheckRelocs(ls, rs, h.imports);
    if !relocs {
      return ENOEXEC, addresses;
    }
    var exports := CheckExports(es, rs, Strings(b, h));
    e := if exports then Ok else ENOEXEC;
  }

  lemma HeaderBounds(h: Header, size: nat)
    requires HeaderOk(h, size)
    ensures 96 <= h.headerSize <= size && h.entryRegion < h.regions
  {
  }

  lemma MetasInside(h: Header, size: nat)
    requires MetasOk(h, size)
    ensures var ms := Metas(h); MetaOk(ms, 1, size) && MetaOk(ms, 2, size) && MetaOk(ms, 3, size) && MetaOk(ms, 4, size) && MetaOk(ms, 5, size)
    ensures SpanOk(h.regionOff, h.regions * 32, size) && SpanOk(h.relocOff, h.relocs * 40, size)
    ensures SpanOk(h.importOff, h.imports * 8, size) && SpanOk(h.exportOff, h.exports * 16, size) && SpanOk(h.stringOff, h.stringSize, size)
  {
    var ms := Metas(h);
    assert MetaOk(ms, 1, size) && MetaOk(ms, 2, size) && MetaOk(ms, 3, size) && MetaOk(ms, 4, size) && MetaOk(ms, 5, size);
  }

  lemma RegionsCount(b: seq<byte>, h: Header)
    requires SpanOk(h.regionOff, h.regions * 32, |b|)
    ensures |RegionsOf(b, h)| == h.regions
  {
  }

  // ---------------------------------------------------------------- loading and relocating

  type Memory = seq<seq<byte>>

  /** A region as loaded: its file bytes, then zeros. */
  function Loaded(b: seq<byte>, r: Region): seq<byte>
    requires r.fileOffset + r.fileSize <= |b| && r.fileSize <= r.memorySize
  {
    b[r.fileOffset..r.fileOffset + r.fileSize] + Zeros(r.memorySize - r.fileSize)
  }

  function Initial(b: seq<byte>, rs: seq<Region>): Option<Memory> {
    if forall i :: 0 <= i < |rs| ==> rs[i].fileOffset + rs[i].fileSize <= |b| && rs[i].fileSize <= rs[i].memorySize
    then Some(seq(|rs|, i requires 0 <= i < |rs| => Loaded(b, rs[i])))
    else None
  }

  function Signed(v: nat): int { if v < 0x8000_0000_0000_0000 then v else v - W8 }

  /** v modulo 2^(8 n), for n = 4 or 8. */
  function Wrapped(v: int, n: nat): nat { if n == 4 then v % W4 else v % W8 }

  /** Where the regions and the imports are, and which addresses can be read once the regions are there. */
  datatype Placement = Placement(bases: seq<nat>, imports: seq<nat>, readable: nat -> bool)

  /** The address a relocation stands for; None where the loader gives up. */
  function TargetOf(r: Reloc, rs: seq<Region>, at: Placement): Option<nat> {
    if r.targetRegion >= (if r.kind == 4 then |at.imports| else |at.bases|) || (r.kind != 4 && r.targetRegion >= |rs|) then None
    else
      var base := if r.kind == 4 then at.imports[r.targetRegion] else at.bases[r.targetRegion];
      var target := (if r.kind == 4 then base else base + r.targetOffset) + Signed(r.addend);
      if target < 0 || target >= W8 || target < USER_BASE || target >= USER_LIMIT then None
      else if r.kind != 4 && (target < base || target - base > rs[r.targetRegion].memorySize) then None
      else if r.kind == 4 && !at.readable(target) then None
      else Some(target)
  }

  /** The bytes a relocation puts in its slot. */
  function Slot(r: Reloc, rs: seq<Region>, at: Placement): (s: Option<seq<byte>>)
    ensures s.Some? ==> |s.value| == Width(r)
  {
    var target := TargetOf(r, rs, at);
    if target.None? || r.patchRegion >= |at.bases| then None
    else
      var delta := target.value - (at.bases[r.patchRegion] + r.patchOffset + Width(r));
      if r.kind == 2 && (delta < -0x8000_0000 || delta > 0x7fff_ffff) then None
      else Some(Le(if r.kind == 1 || r.kind == 4 then target.value else Wrapped(delta, Width(r)), Width(r)))
  }

  /** n is the number that a 64-bit word, or one of n bits, stands for. */
  predicate Stands(v: nat, n: int, bound: nat) { 0 <= 2 * n + bound < 2 * bound && (v == n || v == n + bound) }

  /** Where a relocation leads: the region's base, or the import, and the offsets. */
  function Goal(r: Reloc, at: Placement, addend: int): int
    requires r.targetRegion < if r.kind == 4 then |at.imports| else |at.bases|
  {
    if r.kind == 4 then at.imports[r.targetRegion] + addend else at.bases[r.targetRegion] + r.targetOffset + addend
  }

  /** The indices of a relocation are within the tables. */
  predicate Indexed(r: Reloc, rs: seq<Region>, at: Placement) {
    r.patchRegion < |at.bases| && if r.kind == 4 then r.targetRegion < |at.imports| else r.targetRegion < |at.bases| && r.targetRegion < |rs|
  }

  /** Behind the slot of a relocation. */
  function EndOf(r: Reloc, at: Placement): nat
    requires r.patchRegion < |at.bases|
  {
    at.bases[r.patchRegion] + r.patchOffset + if r.kind == 2 then 4 else 8
  }

  /**
   A relocation is possible exactly if it leads into its region or to a readable import, and, for a short distance, is near
   enough. Then an absolute slot holds that address, and a relative one the distance to it from behind the slot.
   */
  lemma RelocationReaches(r: Reloc, rs: seq<Region>, at: Placement, addend: int)
    requires 1 <= r.kind <= 4 && Indexed(r, rs, at) && Stands(r.addend, addend, W8)
    ensures var goal, end := Goal(r, at, addend), EndOf(r, at);
      && (Slot(r, rs, at).Some? <==>
            && USER_BASE <= goal < USER_LIMIT
            && (if r.kind == 4 then at.readable(goal) else at.bases[r.targetRegion] <= goal <= at.bases[r.targetRegion] + rs[r.targetRegion].memorySize)
            && (r.kind == 2 ==> -0x8000_0000 <= goal - end <= 0x7fff_ffff))
      && (Slot(r, rs, at).Some? && (r.kind == 1 || r.kind == 4) ==> Slot(r, rs, at).value == Le(goal, 8) && Value(Slot(r, rs, at).value) == goal)
      && (Slot(r, rs, at).Some? && r.kind == 2 ==> |Slot(r, rs, at).value| == 4 && Stands(Value(Slot(r, rs, at).value), goal - end, W4))
      && (Slot(r, rs, at).Some? && r.kind == 3 && end <= W8 / 2 ==> Stands(Value(Slot(r, rs, at).value), goal - end, W8))
  {
    hide Le, Value, Pow256;
    Powers();
    AddendIs(r.addend, addend);
    var target := TargetOf(r, rs, at);
    if Slot(r, rs, at).Some? {
      var goal, end := Goal(r, at, addend), EndOf(r, at);
      assert target == Some(goal as nat);
      if r.kind == 1 || r.kind == 4 {
        LeBack(goal, 8);
      } else {
        WrappedStands(goal - end, Width(r));
        LeBack(Wrapped(goal - end, Width(r)), Width(r));
      }
    }
  }

  lemma AddendIs(v: nat, n: int)
    requires Stands(v, n, W8)
    ensures Signed(v) == n
  {
  }

  lemma WrappedStands(d: int, n: nat)
    requires n == 4 || n == 8
    ensures var bound := if n == 4 then W4 else W8; Wrapped(d, n) < bound && (0 <= 2 * d + bound < 2 * bound ==> Stands(Wrapped(d, n), d, bound))
  {
    var bound := if n == 4 then W4 else W8;
    if 0 <= d < bound {
      DivideUnique(d, bound, 0, d);
    } else if -bound <= d < 0 {
      DivideUnique(d, bound, -1, d + bound);
    }
  }

  predicate RelocFits(mem: Memory, r: Reloc) { r.patchRegion < |mem| && r.patchOffset + Width(r) <= |mem[r.patchRegion]| }

  function Patched(mem: Memory, r: Reloc, s: seq<byte>): (m: Memory)
    requires RelocFits(mem, r) && |s| == Width(r)
    ensures |m| == |mem| && forall k :: 0 <= k < |m| ==> |m[k]| == |mem[k]|
  {
    var t := mem[r.patchRegion];
    mem[r.patchRegion := t[..r.patchOffset] + s + t[r.patchOffset + |s|..]]
  }

  /** The memory after the first n relocations. */
  function Relocated(mem: Memory, ls: seq<Reloc>, rs: seq<Region>, at: Placement, n: nat): (m: Option<Memory>)
    requires n <= |ls|
    ensures m.Some? ==> |m.value| == |mem| && forall k :: 0 <= k < |mem| ==> |m.value[k]| == |mem[k]|
  {
    if n == 0 then Some(mem)
    else match Relocated(mem, ls, rs, at, n - 1)
         case None => None
         case Some(m) =>
           var s := Slot(ls[n - 1], rs, at);
           if s.None? || !RelocFits(m, ls[n - 1]) then None else Some(Patched(m, ls[n - 1], s.value))
  }

  predicate InSlot(r: Reloc, k: nat, x: nat) { r.patchRegion == k && r.patchOffset <= x < r.patchOffset + Width(r) }

  ghost predicate Touched(ls: seq<Reloc>, n: nat, k: nat, x: nat) { exists i :: 0 <= i < n && i < |ls| && InSlot(ls[i], k, x) }

  /** A slot holds its value. */
  ghost predicate Holds(m: Memory, r: Reloc, rs: seq<Region>, at: Placement) {
    RelocFits(m, r) && Slot(r, rs, at).Some?
    && m[r.patchRegion][r.patchOffset..r.patchOffset + Width(r)] == Slot(r, rs, at).value
  }

  lemma {:induction false} OrderJoins(ls: seq<Reloc>, i: nat, j: nat)
    requires i < j < |ls| && forall k :: 0 < k < |ls| ==> InOrder(ls[k - 1], ls[k])
    ensures InOrder(ls[i], ls[j])
    decreases j - i
  {
    assert InOrder(ls[j - 1], ls[j]);
    if i < j - 1 {
      OrderJoins(ls, i, j - 1);
    }
  }

  lemma PatchedKeeps(m: Memory, r: Reloc, s: seq<byte>, q: Reloc)
    requires RelocFits(m, r) && |s| == Width(r) && RelocFits(m, q) && InOrder(q, r)
    ensures Patched(m, r, s)[q.patchRegion][q.patchOffset..q.patchOffset + Width(q)] == m[q.patchRegion][q.patchOffset..q.patchOffset + Width(q)]
    ensures Patched(m, r, s)[r.patchRegion][r.patchOffset..r.patchOffset + Width(r)] == s
  {
  }

  lemma PatchedByte(m: Memory, r: Reloc, s: seq<byte>, k: nat, x: nat)
    requires RelocFits(m, r) && |s| == Width(r) && k < |m| && x < |m[k]| && !InSlot(r, k, x)
    ensures Patched(m, r, s)[k][x] == m[k][x]
  {
  }

  /** Relocations in order: every slot ends up with its own value and no other byte changes. */
  lemma {:induction false} RelocatedIs(mem: Memory, ls: seq<Reloc>, rs: seq<Region>, at: Placement, n: nat)
    requires n <= |ls| && forall i :: 0 <= i < |ls| ==> RelocFits(mem, ls[i]) && Slot(ls[i], rs, at).Some?
    requires forall i :: 0 < i < |ls| ==> InOrder(ls[i - 1], ls[i])
    ensures var m := Relocated(mem, ls, rs, at, n);
      && m.Some? && (forall i :: 0 <= i < n ==> Holds(m.value, ls[i], rs, at))
      && (forall k, x :: 0 <= k < |mem| && 0 <= x < |mem[k]| && !Touched(ls, n, k, x) ==> m.value[k][x] == mem[k][x])
  {
    hide Slot, Patched, Width;
    if n > 0 {
      RelocatedIs(mem, ls, rs, at, n - 1);
      var m0, r := Relocated(mem, ls, rs, at, n - 1).value, ls[n - 1];
      var s := Slot(r, rs, at).value;
      assert RelocFits(mem, r);
      assert RelocFits(m0, r);
      var m := Patched(m0, r, s);
      forall i | 0 <= i < n
        ensures Holds(m, ls[i], rs, at)
      {
        if i < n - 1 {
          OrderJoins(ls, i, n - 1);
          assert Holds(m0, ls[i], rs, at);
          PatchedKeeps(m0, r, s, ls[i]);
        } else {
          PatchedHere(m0, r, s);
        }
      }
      forall k, x | 0 <= k < |mem| && 0 <= x < |mem[k]| && !Touched(ls, n, k, x)
        ensures m[k][x] == mem[k][x]
      {
        assert !InSlot(ls[n - 1], k, x);
        assert !Touched(ls, n - 1, k, x);
        PatchedByte(m0, r, s, k, x);
      }
    }
  }

  lemma PatchedHere(m: Memory, r: Reloc, s: seq<byte>)
    requires RelocFits(m, r) && |s| == Width(r)
    ensures Patched(m, r, s)[r.patchRegion][r.patchOffset..r.patchOffset + Width(r)] == s
  {
  }

  /** The relocation loop of rief_load_locked. */
  method Relocate(mem: Memory, ls: seq<Reloc>, rs: seq<Region>, at: Placement) returns (out: Option<Memory>)
    requires forall i :: 0 <= i < |ls| ==> RelocFits(mem, ls[i])
    ensures out == Relocated(mem, ls, rs, at, |ls|)
  {
    hide Slot, Patched, RelocFits;
    var m, i := mem, 0;
    while i < |ls|
      invariant 0 <= i <= |ls| && Relocated(mem, ls, rs, at, i) == Some(m)
    {
      SameFits(mem, m, ls[i]);
      var s := Slot(ls[i], rs, at);
      if s.None? {
        FailsOn(mem, ls, rs, at, i + 1, |ls|);
        return None;
      }
      m := Patched(m, ls[i], s.value);
      i := i + 1;
    }
    return Some(m);
  }

  lemma SameFits(mem: Memory, m: Memory, r: Reloc)
    requires RelocFits(mem, r) && |m| == |mem| && forall k :: 0 <= k < |mem| ==> |m[k]| == |mem[k]|
    ensures RelocFits(m, r)
  {
  }

  lemma {:induction false} FailsOn(mem: Memory, ls: seq<Reloc>, rs: seq<Region>, at: Placement, i: nat, n: nat)
    requires i <= n <= |ls| && Relocated(mem, ls, rs, at, i).None?
    ensures Relocated(mem, ls, rs, at, n).None?
  {
    hide Slot, Patched, RelocFits;
    if i < n {
      FailsOn(mem, ls, rs, at, i, n - 1);
    }
  }

  // ---------------------------------------------------------------- what an accepted image is

  predicate InFile(r: Region, x: nat) { r.fileOffset <= x < r.fileOffset + r.fileSize }

  /** No place of the file is in two of the regions. */
  ghost predicate FilesApart(rs: seq<Region>) {
    forall i, j, x: nat :: 0 <= i < j < |rs| && InFile(rs[i], x) ==> !InFile(rs[j], x)
  }

  /** No byte is in the slots of two relocations. */
  ghost predicate SlotsApart(ls: seq<Reloc>) {
    forall i, j, k: nat, x: nat :: 0 <= i < j < |ls| && InSlot(ls[i], k, x) ==> !InSlot(ls[j], k, x)
  }

  /** Region i in memory: its bytes of the file and zeros behind them. */
  ghost predicate LoadedAs(b: seq<byte>, r: Region, m: seq<byte>) {
    && 0 < |m| == r.memorySize <= LIMIT && r.fileSize <= r.memorySize && r.fileOffset + r.fileSize <= |b|
    && forall x :: 0 <= x < |m| ==> m[x] == if x < r.fileSize then b[r.fileOffset + x] else 0
  }

  /**
   An accepted image can be loaded: every region has its bytes from a part of the file of its own and none is both writable
   and executable, every relocation has a slot of its own inside its region, and the entry is loaded code.
   */
  lemma AcceptedLoads(b: seq<byte>, w: Host) returns (mem: Memory)
    requires Accepts(b, w)
    ensures var h := HeaderOf(b);
      && SpanOk(h.regionOff, h.regions * 32, |b|) && SpanOk(h.relocOff, h.relocs * 40, |b|)
      && (var rs, ls := RegionsOf(b, h), RelocsOf(b, h);
          && Initial(b, rs) == Some(mem) && |mem| == |rs| && FilesApart(rs) && SlotsApart(ls)
          && (forall i :: 0 <= i < |rs| ==> LoadedAs(b, rs[i], mem[i]))
          && (forall i :: 0 <= i < |rs| ==> rs[i].flags in {1, 3, 5})
          && (forall i :: 0 <= i < |ls| ==> RelocFits(mem, ls[i]) && 1 <= ls[i].kind <= 4)
          && h.entryRegion < |rs| && rs[h.entryRegion].flags == 5 && h.entryOffset < rs[h.entryRegion].fileSize)
  {
    var h := HeaderOf(b);
    hide HeaderOf, RegionOf, RelocOf, ExportOf, ImportOf, ImportOk, NameFrom, Power2, Metas, ExportsOf, Strings;
    var rs, ls := RegionsOf(b, h), RelocsOf(b, h);
    assert TablesOk(h, rs, ls, ExportsOf(b, h), Strings(b, h), |b|);
    hide Accepts, HeaderOk, MetasOk, RegionsOf, RelocsOf;
    mem := TablesLoad(b, h, rs, ls, ExportsOf(b, h), Strings(b, h));
  }

  lemma TablesLoad(b: seq<byte>, h: Header, rs: seq<Region>, ls: seq<Reloc>, es: seq<Export>, strings: seq<byte>) returns (mem: Memory)
    requires TablesOk(h, rs, ls, es, strings, |b|)
    ensures Initial(b, rs) == Some(mem) && |mem| == |rs| && FilesApart(rs) && SlotsApart(ls)
    ensures forall i :: 0 <= i < |rs| ==> LoadedAs(b, rs[i], mem[i]) && rs[i].flags in {1, 3, 5}
    ensures forall i :: 0 <= i < |ls| ==> RelocFits(mem, ls[i]) && 1 <= ls[i].kind <= 4
    ensures h.entryRegion < |rs| && rs[h.entryRegion].flags == 5 && h.entryOffset < rs[h.entryRegion].fileSize
  {
    hide Metas, Power2, ExportOk, PagesOf;
    forall i | 0 <= i < |rs|
      ensures RegionShape(rs[i], |b|) && rs[i].flags in {1, 3, 5}
    {
      assert RegionOk(rs, i, Metas(h), |b|);
      FlagsAre(rs[i].flags);
    }
    FlagsAre(rs[h.entryRegion].flags);
    mem := seq(|rs|, i requires 0 <= i < |rs| => Loaded(b, rs[i]));
    assert Initial(b, rs) == Some(mem);
    RegionsApart(rs, Metas(h), |b|);
    forall i, j, k: nat, x: nat | 0 <= i < j < |ls| && InSlot(ls[i], k, x)
      ensures !InSlot(ls[j], k, x)
    {
      forall n | 0 < n < |ls|
        ensures InOrder(ls[n - 1], ls[n])
      {
        assert RelocOk(ls, n, rs, h.imports);
      }
      OrderJoins(ls, i, j);
    }
    forall i | 0 <= i < |ls|
      ensures RelocFits(mem, ls[i]) && 1 <= ls[i].kind <= 4
    {
      assert RelocOk(ls, i, rs, h.imports);
      assert |mem[ls[i].patchRegion]| == rs[ls[i].patchRegion].memorySize;
    }
  }

  lemma FlagsAre(flags: nat)
    requires flags < 8 && flags % 2 == 1 && !(flags / 2 % 2 == 1 && flags / 4 % 2 == 1)
    ensures flags in {1, 3, 5} && (flags / 4 % 2 == 1 <==> flags == 5)
  {
  }

  lemma RegionsApart(rs: seq<Region>, ms: seq<Span>, size: nat)
    requires forall i :: 0 <= i < |rs| ==> RegionOk(rs, i, ms, size)
    ensures FilesApart(rs)
  {
    hide RegionShape;
    forall i, j, x: nat | 0 <= i < j < |rs| && InFile(rs[i], x)
      ensures !InFile(rs[j], x)
    {
      assert RegionOk(rs, j, ms, size);
      assert Clear(rs[j], Span(rs[i].fileOffset, rs[i].fileSize));
    }
  }
}
