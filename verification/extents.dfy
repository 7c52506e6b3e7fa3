/**
 Extent lists of the native file systems: a list built through run_add is
 sorted, in range and physically disjoint, so that reading and writing through
 it acts on one flat array of bytes, with zeros in the holes.
 */
module Extents {
  import opened Basics
  import opened LittleEndian

  datatype Error = Ok | EIO | ENOTSUP | EROFS

  datatype Run = Run(logical: nat, physical: nat, length: nat, hole: bool)

  const RUNS: nat := 256
  const MAX64: nat := 0xffff_ffff_ffff_ffff

  predicate RunOk(r: Run, blocks: nat) {
    0 < r.length && r.logical <= MAX64 - r.length && (!r.hole ==> r.physical < blocks && r.length <= blocks - r.physical)
  }

  /** Sorted, in range, and no two runs on the same block. */
  ghost predicate Sound(runs: seq<Run>, blocks: nat) {
    && (forall i :: 0 <= i < |runs| ==> RunOk(runs[i], blocks))
    && (forall i, j :: 0 <= i < j < |runs| ==> runs[i].logical + runs[i].length <= runs[j].logical)
    && (forall i, j :: 0 <= i < j < |runs| && !runs[i].hole && !runs[j].hole ==>
          !Overlap(runs[j].physical, runs[j].length, runs[i].physical, runs[i].length))
  }

  predicate Holds(r: Run, block: nat) { r.logical <= block < r.logical + r.length }

  /** The first run that holds a logical block. */
  function Find(runs: seq<Run>, block: nat): (r: Option<Run>)
    ensures r.Some? ==> r.value in runs && Holds(r.value, block)
    ensures r.None? ==> forall x :: x in runs ==> !Holds(x, block)
  {
    if runs == [] then None else if Holds(runs[0], block) then Some(runs[0]) else Find(runs[1..], block)
  }

  /** Where the byte at an offset is on the disk; None in a hole or outside. */
  function Place(runs: seq<Run>, size: nat, offset: nat): Option<nat>
    requires size > 0
  {
    var r := Find(runs, offset / size);
    if r.None? || r.value.hole then None
    else Some(Byte(Physical(r.value, offset / size), size, offset % size))
  }

  /** The physical block of a logical block of a run. */
  function Physical(r: Run, block: nat): nat
    requires r.logical <= block
  {
    r.physical + (block - r.logical)
  }

  function Byte(block: nat, size: nat, at: nat): nat { block * size + at }

  /** The flat array that a list stands for. */
  function Flat(disk: seq<byte>, runs: seq<Run>, size: nat, offset: nat): byte
    requires size > 0
  {
    var p := Place(runs, size, offset);
    if p.None? || p.value >= |disk| then 0 else disk[p.value]
  }

  // ---------------------------------------------------------------- arithmetic of blocks

  lemma Split(x: nat, size: nat)
    requires size > 0
    ensures x == x / size * size + x % size && x % size < size
  {
  }

  lemma Digits(a: nat, b: nat, c: nat, d: nat, size: nat)
    requires b < size && d < size && a * size + b == c * size + d
    ensures a == c && b == d
  {
    if a < c {
      Multiples(a + 1, c, size);
      assert false;
    } else if c < a {
      Multiples(c + 1, a, size);
      assert false;
    }
  }

  lemma InBlock(x: nat, j: nat, size: nat)
    requires size > 0 && j < size - x % size
    ensures (x + j) / size == x / size && (x + j) % size == x % size + j
  {
    Split(x, size);
    Split(x + j, size);
    Digits((x + j) / size, (x + j) % size, x / size, x % size + j, size);
  }

  lemma BlockBound(block: nat, at: nat, blocks: nat, size: nat)
    requires block < blocks && at < size
    ensures block * size + at < blocks * size
  {
    assert (block + 1) * size <= blocks * size;
  }

  // ---------------------------------------------------------------- places

  /** Mapped bytes lie on the disk. */
  lemma PlaceInRange(runs: seq<Run>, blocks: nat, size: nat, x: nat)
    requires size > 0 && Sound(runs, blocks)
    ensures Place(runs, size, x).Some? ==> Place(runs, size, x).value < blocks * size
  {
    hide Find;
    var r := Find(runs, x / size);
    if r.Some? && !r.value.hole {
      assert RunOk(r.value, blocks);
      Split(x, size);
      BlockBound(r.value.physical + (x / size - r.value.logical), x % size, blocks, size);
    }
  }

  lemma BlocksDistinct(runs: seq<Run>, blocks: nat, a: nat, b: nat)
    requires Sound(runs, blocks) && a != b
    requires Find(runs, a).Some? && Find(runs, b).Some? && !Find(runs, a).value.hole && !Find(runs, b).value.hole
    ensures Physical(Find(runs, a).value, a) != Physical(Find(runs, b).value, b)
  {
    hide Find;
    var r, s := Find(runs, a).value, Find(runs, b).value;
    var i :| 0 <= i < |runs| && runs[i] == r;
    var j :| 0 <= j < |runs| && runs[j] == s;
    if i < j {
      assert !Overlap(s.physical, s.length, r.physical, r.length);
    } else if j < i {
      assert !Overlap(r.physical, r.length, s.physical, s.length);
    }
  }

  /** Two offsets never share a byte of the disk. */
  lemma PlacesDistinct(runs: seq<Run>, blocks: nat, size: nat, x: nat, y: nat)
    requires size > 0 && Sound(runs, blocks) && x != y && Place(runs, size, x).Some? && Place(runs, size, y).Some?
    ensures Place(runs, size, x) != Place(runs, size, y)
  {
    hide Find, Sound;
    Split(x, size);
    Split(y, size);
    var a, b := x / size, y / size;
    var r, s := Find(runs, a).value, Find(runs, b).value;
    if Place(runs, size, x) == Place(runs, size, y) {
      Digits(Physical(r, a), x % size, Physical(s, b), y % size, size);
      if a != b {
        BlocksDistinct(runs, blocks, a, b);
      }
    }
  }

  /** Within a block, neighbours on the file are neighbours on the disk. */
  lemma PlaceNext(runs: seq<Run>, size: nat, x: nat, j: nat)
    requires size > 0 && j < size - x % size
    ensures Place(runs, size, x).None? ==> Place(runs, size, x + j).None?
    ensures Place(runs, size, x).Some? ==> Place(runs, size, x + j) == Some(Place(runs, size, x).value + j)
  {
    hide Find;
    InBlock(x, j, size);
  }

  // ---------------------------------------------------------------- run_add

  /** A run may be appended to a list. */
  predicate Appends(runs: seq<Run>, r: Run, blocks: nat) {
    && |runs| < RUNS && RunOk(r, blocks)
    && (forall i :: 0 <= i < |runs| ==> runs[i].logical + runs[i].length <= r.logical)
    && (!r.hole ==> forall i :: 0 <= i < |runs| && !runs[i].hole ==> !Overlap(r.physical, r.length, runs[i].physical, runs[i].length))
  }

  /** What comes first in a sound list could be appended when it did. */
  lemma FirstAppends(runs: seq<Run>, r: Run, rest: seq<Run>, blocks: nat)
    requires Sound(runs + [r] + rest, blocks) && |runs| < RUNS
    ensures Appends(runs, r, blocks)
  {
    var all := runs + [r] + rest;
    assert all[|runs|] == r && forall i :: 0 <= i < |runs| ==> all[i] == runs[i];
  }

  /** run_add: the list grows exactly when it stays sorted, in range and disjoint. */
  method RunAdd(runs: seq<Run>, r: Run, blocks: nat) returns (e: Error, out: seq<Run>)
    requires Sound(runs, blocks) && |runs| <= RUNS
    ensures e == Ok <==> Appends(runs, r, blocks)
    ensures e == Ok ==> out == runs + [r] && Sound(out, blocks)
    ensures e != Ok ==> e == EIO && out == runs
  {
    out := runs;
    if r.length == 0 || |runs| == RUNS || r.logical > MAX64 - r.length
      || (!r.hole && (r.physical >= blocks || r.length > blocks - r.physical)) {
      return EIO, out;
    }
    if |runs| > 0 && r.logical < runs[|runs| - 1].logical + runs[|runs| - 1].length {
      return EIO, out;
    }
    forall i | 0 <= i < |runs|
      ensures runs[i].logical + runs[i].length <= r.logical
    {
      if i < |runs| - 1 {
        assert runs[i].logical + runs[i].length <= runs[|runs| - 1].logical;
      }
    }
    if !r.hole {
      var i := 0;
      while i < |runs|
        invariant 0 <= i <= |runs|
        invariant forall k :: 0 <= k < i && !runs[k].hole ==> !Overlap(r.physical, r.length, runs[k].physical, runs[k].length)
      {
        if !runs[i].hole && Overlap(r.physical, r.length, runs[i].physical, runs[i].length) {
          return EIO, out;
        }
        i := i + 1;
      }
    }
    return Ok, runs + [r];
  }

  // ---------------------------------------------------------------- run_io

  /** Seen through the list, data is in place up to done and may be in place, byte for byte, up to end; nothing else differs. */
  ghost predicate Mixed(before: seq<byte>, after: seq<byte>, runs: seq<Run>, size: nat, offset: nat, data: seq<byte>, done: nat, end: nat)
    requires size > 0 && done <= end <= |data|
  {
    && (forall x: nat :: offset <= x < offset + done ==> Flat(after, runs, size, x) == data[x - offset])
    && (forall x: nat :: offset + done <= x < offset + end ==>
          Flat(after, runs, size, x) == data[x - offset] || Flat(after, runs, size, x) == Flat(before, runs, size, x))
    && (forall x: nat :: x < offset || offset + end <= x ==> Flat(after, runs, size, x) == Flat(before, runs, size, x))
  }

  /** Only bytes that the list maps for [offset, offset + n) have changed. */
  ghost predicate Contained(before: seq<byte>, after: seq<byte>, runs: seq<Run>, size: nat, offset: nat, n: nat)
    requires size > 0
  {
    |after| == |before| &&
    forall p :: 0 <= p < |before| && after[p] != before[p] ==> exists x: nat :: offset <= x < offset + n && Place(runs, size, x) == Some(p)
  }

  /** Bytes p to p + |chunk| of the disk hold the chunk, or on a failure each holds the chunk's or its old byte. */
  ghost predicate Put(before: seq<byte>, after: seq<byte>, p: nat, chunk: seq<byte>, whole: bool) {
    && |after| == |before| && p + |chunk| <= |before|
    && (forall q :: 0 <= q < |before| && !(p <= q < p + |chunk|) ==> after[q] == before[q])
    && (forall q :: p <= q < p + |chunk| ==> after[q] == chunk[q - p] || (!whole && after[q] == before[q]))
  }

  /** A chunk of one block, put at its place, is seen at its offsets and nowhere else. */
  lemma ChunkWritten(before: seq<byte>, after: seq<byte>, runs: seq<Run>, blocks: nat, size: nat, offset: nat, chunk: seq<byte>, whole: bool)
    requires size > 0 && Sound(runs, blocks) && blocks * size <= |before| && 0 < |chunk| <= size - offset % size
    requires Place(runs, size, offset).Some? && Put(before, after, Place(runs, size, offset).value, chunk, whole)
    ensures Mixed(before, after, runs, size, offset, chunk, if whole then |chunk| else 0, |chunk|)
    ensures Contained(before, after, runs, size, offset, |chunk|)
  {
    hide Place, Sound;
    var p := Place(runs, size, offset).value;
    forall x: nat | offset <= x < offset + |chunk|
      ensures Place(runs, size, x) == Some(p + (x - offset))
    {
      PlaceNext(runs, size, offset, x - offset);
    }
    forall x: nat | x < offset || offset + |chunk| <= x
      ensures Flat(after, runs, size, x) == Flat(before, runs, size, x)
    {
      PlaceInRange(runs, blocks, size, x);
      if Place(runs, size, x).Some? {
        var q := Place(runs, size, x).value;
        if p <= q < p + |chunk| {
          PlacesDistinct(runs, blocks, size, x, offset + (q - p));
        }
      }
    }
    forall q | 0 <= q < |before| && after[q] != before[q]
      ensures exists x: nat :: offset <= x < offset + |chunk| && Place(runs, size, x) == Some(q)
    {
      var x := offset + (q - p);
      assert offset <= x < offset + |chunk| && Place(runs, size, x) == Some(q);
    }
  }

  lemma WrittenJoin(a: seq<byte>, b: seq<byte>, c: seq<byte>, runs: seq<Run>, size: nat, offset: nat, data: seq<byte>, n: nat,
                    chunk: seq<byte>, done: nat)
    requires size > 0 && n + |chunk| <= |data| && chunk == data[n..n + |chunk|] && done <= |chunk|
    requires Mixed(a, b, runs, size, offset, data, n, n) && Contained(a, b, runs, size, offset, n)
    requires Mixed(b, c, runs, size, offset + n, chunk, done, |chunk|) && Contained(b, c, runs, size, offset + n, |chunk|)
    ensures Mixed(a, c, runs, size, offset, data, n + done, n + |chunk|) && Contained(a, c, runs, size, offset, n + |chunk|)
  {
    hide Flat, Place;
    forall x: nat | offset + n <= x < offset + n + |chunk|
      ensures data[x - offset] == chunk[x - (offset + n)] && Flat(b, runs, size, x) == Flat(a, runs, size, x)
    {
    }
    forall p | 0 <= p < |a| && c[p] != a[p]
      ensures exists x: nat :: offset <= x < offset + (n + |chunk|) && Place(runs, size, x) == Some(p)
    {
      if b[p] != a[p] {
        var x: nat :| offset <= x < offset + n && Place(runs, size, x) == Some(p);
        assert offset <= x < offset + (n + |chunk|);
      } else {
        var x: nat :| offset + n <= x < offset + n + |chunk| && Place(runs, size, x) == Some(p);
        assert offset <= x < offset + (n + |chunk|);
      }
    }
  }

  /** Where the block that holds data[done] ends, counted in data. */
  function ChunkEnd(offset: nat, size: nat, total: nat, done: nat): (r: nat)
    requires size > 0 && done < total
    ensures done < r <= total
  {
    var left := size - (offset + done) % size;
    if total - done < left then total else done + left
  }

  class Volume {
    const size: nat
    const blocks: nat
    const sector: nat
    const readOnly: bool
    /** Every request to the device succeeds. */
    const healthy: bool
    const disk: array<byte>
    var failed: bool

    /** The sectors of the volume hold its blocks. */
    ghost predicate Valid(runs: seq<Run>) {
      size > 0 && sector > 0 && WholeSectors(disk.Length, sector) && blocks * size <= disk.Length && Sound(runs, blocks)
    }

    /** run_io reading: the bytes of the flat array. */
    method Read(runs: seq<Run>, offset: nat, bytes: nat) returns (e: Error, data: seq<byte>)
      requires Valid(runs)
      ensures e == Ok ==> |data| == bytes && forall i :: 0 <= i < bytes ==> data[i] == Flat(disk[..], runs, size, offset + i)
      ensures e in {Ok, EIO} && (healthy ==> e == Ok)
    {
      hide Place, Sound;
      data := [];
      while |data| < bytes
        invariant |data| <= bytes && forall i :: 0 <= i < |data| ==> data[i] == Flat(disk[..], runs, size, offset + i)
      {
        var at := offset + |data|;
        Split(at, size);
        var n := if bytes - |data| < size - at % size then bytes - |data| else size - at % size;
        var place := Place(runs, size, at);
        forall x: nat | at <= x < at + n
          ensures Place(runs, size, x) == if place.None? then None else Some(place.value + (x - at))
        {
          PlaceNext(runs, size, at, x - at);
        }
        ghost var last := at + (n - 1);
        if place.None? {
          data := data + seq(n, j => 0 as byte);
        } else {
          var readable := Answers(healthy);
          if !readable {
            return EIO, data;
          }
          PlaceInRange(runs, blocks, size, last);
          assert Place(runs, size, last) == Some(place.value + (n - 1));
          var chunk := disk[place.value..place.value + n];
          data := data + chunk;
        }
        forall i | 0 <= i < |data|
          ensures data[i] == Flat(disk[..], runs, size, offset + i)
        {
          if offset + i >= at {
            assert Place(runs, size, offset + i) == if place.None? then None else Some(place.value + (offset + i - at));
          }
        }
      }
      return Ok, data;
    }

    /**
     run_io writing: blocks are overwritten up to the first hole or failure. A failed write or flush
     may have changed any part of its own block, and closes the volume for writing.
     */
    method Write(runs: seq<Run>, offset: nat, data: seq<byte>) returns (e: Error, done: nat)
      requires Valid(runs)
      modifies this`failed, disk
      ensures done <= |data| && (e == Ok <==> done == |data|)
      ensures var end := if e == EIO then ChunkEnd(offset, size, |data|, done) else done;
        && Mixed(old(disk[..]), disk[..], runs, size, offset, data, done, end)
        && Contained(old(disk[..]), disk[..], runs, size, offset, end)
      ensures failed == (old(failed) || e == EIO)
      ensures e == EROFS ==> done == 0 && (readOnly || old(failed))
      ensures (readOnly || old(failed)) && e == Ok ==> data == []
      ensures e == ENOTSUP ==> Place(runs, size, offset + done).None?
      ensures e == Ok ==> forall x: nat :: offset <= x < offset + |data| ==> Place(runs, size, x).Some?
      ensures healthy && !readOnly && !old(failed) && (forall x: nat :: offset <= x < offset + |data| ==> Place(runs, size, x).Some?) ==> e == Ok
    {
      hide Place, Sound, Mixed, Contained;
      done := 0;
      NothingWritten(disk[..], runs, size, offset, data);
      while done < |data|
        invariant 0 <= done <= |data| && failed == old(failed) && ((readOnly || failed) ==> done == 0)
        invariant Mixed(old(disk[..]), disk[..], runs, size, offset, data, done, done)
        invariant Contained(old(disk[..]), disk[..], runs, size, offset, done)
        invariant forall x: nat :: offset <= x < offset + done ==> Place(runs, size, x).Some?
      {
        var at := offset + done;
        Split(at, size);
        var n := if |data| - done < size - at % size then |data| - done else size - at % size;
        var place := Place(runs, size, at);
        if place.None? {
          return ENOTSUP, done;
        }
        var chunk := data[done..done + n];
        ghost var before := disk[..];
        PlaceNext(runs, size, at, n - 1);
        PlaceInRange(runs, blocks, size, at + (n - 1));
        assert Place(runs, size, at + (n - 1)) == Some(place.value + (n - 1));
        e := WriteBytes(place.value, chunk);
        if e == EROFS {
          return e, done;
        }
        ChunkWritten(before, disk[..], runs, blocks, size, at, chunk, e == Ok);
        WrittenJoin(old(disk[..]), before, disk[..], runs, size, offset, data, done, chunk, if e == Ok then n else 0);
        if e != Ok {
          return e, done;
        }
        forall x: nat | at <= x < at + n
          ensures Place(runs, size, x).Some?
        {
          PlaceNext(runs, size, at, x - at);
        }
        done := done + n;
      }
      return Ok, done;
    }

    /** native_write_bytes: sector by sector and then a flush; any failure closes the volume. */
    method WriteBytes(p: nat, chunk: seq<byte>) returns (e: Error)
      requires sector > 0 && WholeSectors(disk.Length, sector) && p + |chunk| <= disk.Length
      modifies this`failed, disk
      ensures e in {Ok, EIO, EROFS} && (e == EROFS <==> readOnly || old(failed)) && failed == (old(failed) || e == EIO) && (healthy ==> e != EIO)
      ensures Put(old(disk[..]), disk[..], p, chunk, e == Ok)
      ensures e == EROFS ==> disk[..] == old(disk[..])
    {
      hide Put, WholeSectors, SectorStart, SectorAt;
      PutNothing(disk[..], p, chunk);
      PutRefused(disk[..], p, chunk);
      if readOnly || failed {
        return EROFS;
      }
      var done := 0;
      assert chunk[..0] == [];
      while done < |chunk|
        invariant 0 <= done <= |chunk| && !failed
        invariant Put(old(disk[..]), disk[..], p, chunk[..done], true)
      {
        ghost var before := disk[..];
        var start, at := SectorStart(p + done, sector), SectorAt(p + done, sector);
        SectorFits(p + done, sector, disk.Length);
        var n := if |chunk| - done < sector - at then |chunk| - done else sector - at;
        var ok := WriteInSector(start, at, chunk[done..done + n]);
        PutJoin(old(disk[..]), before, disk[..], p, chunk, done, n, ok);
        if !ok {
          failed := true;
          return EIO;
        }
        done := done + n;
      }
      assert chunk[..done] == chunk;
      var flushed := Answers(healthy);
      if !flushed {
        PutWeaker(old(disk[..]), disk[..], p, chunk);
        failed := true;
        return EIO;
      }
      return Ok;
    }

    /** Part of one sector, read first unless the part is all of it. */
    method WriteInSector(base: nat, at: nat, part: seq<byte>) returns (ok: bool)
      requires base + sector <= disk.Length && at + |part| <= sector
      modifies disk
      ensures Put(old(disk[..]), disk[..], base + at, part, ok) && (healthy ==> ok)
    {
      hide Put;
      ghost var before := disk[..];
      var buffer := part;
      if at > 0 || |part| < sector {
        var readable := Answers(healthy);
        if !readable {
          PutRefused(disk[..], base + at, part);
          return false;
        }
        buffer := disk[base..base + at] + part + disk[base + at + |part|..base + sector];
      }
      assert buffer == before[base..base + at] + part + before[base + at + |part|..base + sector];
      ok := WriteSector(base, buffer);
      PutPart(before, disk[..], base, at, part, buffer, ok);
    }

    /** One sector; a write that fails may have reached any of its bytes. */
    method WriteSector(base: nat, buffer: seq<byte>) returns (ok: bool)
      requires |buffer| == sector && base + sector <= disk.Length
      modifies disk
      ensures Put(old(disk[..]), disk[..], base, buffer, ok) && (healthy ==> ok)
    {
      ok := Answers(healthy);
      var i := 0;
      while i < sector
        invariant 0 <= i <= sector
        invariant forall q :: 0 <= q < disk.Length && !(base <= q < base + i) ==> disk[q] == old(disk[q])
        invariant forall q :: base <= q < base + i ==> disk[q] == buffer[q - base] || (!ok && disk[q] == old(disk[q]))
      {
        var reached: bool := *;
        if ok || reached {
          disk[base + i] := buffer[i];
        }
        i := i + 1;
      }
    }
  }

  lemma PutNothing(disk: seq<byte>, p: nat, chunk: seq<byte>)
    requires p + |chunk| <= |disk|
    ensures Put(disk, disk, p, [], true)
  {
  }

  lemma PutRefused(disk: seq<byte>, p: nat, chunk: seq<byte>)
    requires p + |chunk| <= |disk|
    ensures Put(disk, disk, p, chunk, false)
  {
  }

  /** A sector whose bytes around the part are what was read changes nothing but the part. */
  lemma PutPart(before: seq<byte>, after: seq<byte>, base: nat, at: nat, part: seq<byte>, buffer: seq<byte>, whole: bool)
    requires Put(before, after, base, buffer, whole) && at + |part| <= |buffer|
    requires buffer == before[base..base + at] + part + before[base + at + |part|..base + |buffer|]
    ensures Put(before, after, base + at, part, whole)
  {
    forall q | base <= q < base + |buffer|
      ensures buffer[q - base] == if base + at <= q < base + at + |part| then part[q - (base + at)] else before[q]
    {
    }
  }

  lemma PutWeaker(before: seq<byte>, after: seq<byte>, p: nat, chunk: seq<byte>)
    requires Put(before, after, p, chunk, true)
    ensures Put(before, after, p, chunk, false)
  {
  }

  /** One more piece behind those already in place. */
  lemma PutJoin(a: seq<byte>, b: seq<byte>, c: seq<byte>, p: nat, chunk: seq<byte>, done: nat, n: nat, whole: bool)
    requires done + n <= |chunk| && p + |chunk| <= |a|
    requires Put(a, b, p, chunk[..done], true) && Put(b, c, p + done, chunk[done..done + n], whole)
    ensures whole ==> Put(a, c, p, chunk[..done + n], true)
    ensures Put(a, c, p, chunk, false)
  {
    forall q | p <= q < p + done
      ensures c[q] == chunk[q - p]
    {
      assert chunk[..done][q - p] == chunk[q - p];
    }
    forall q | p + done <= q < p + done + n
      ensures c[q] == chunk[q - p] || (!whole && c[q] == a[q])
    {
      assert chunk[done..done + n][q - (p + done)] == chunk[q - p];
    }
  }

  predicate WholeSectors(length: nat, sector: nat) { sector > 0 && length % sector == 0 }

  function SectorStart(x: nat, sector: nat): nat
    requires sector > 0
  {
    x / sector * sector
  }

  function SectorAt(x: nat, sector: nat): nat
    requires sector > 0
  {
    x % sector
  }

  lemma SectorFits(x: nat, sector: nat, length: nat)
    requires WholeSectors(length, sector) && x < length
    ensures SectorStart(x, sector) + SectorAt(x, sector) == x && SectorAt(x, sector) < sector
    ensures SectorStart(x, sector) + sector <= length
  {
    var k, q := length / sector, x / sector;
    assert length == k * sector;
    Split(x, sector);
    if q >= k {
      Multiples(k, q, sector);
      assert false;
    }
    Multiples(q + 1, k, sector);
  }

  lemma NothingWritten(disk: seq<byte>, runs: seq<Run>, size: nat, offset: nat, data: seq<byte>)
    requires size > 0
    ensures Mixed(disk, disk, runs, size, offset, data, 0, 0) && Contained(disk, disk, runs, size, offset, 0)
  {
  }
}
