/**
 NTFS record protection: the last two bytes of every 512-byte unit are replaced
 by a sequence number when a record is stored, and put back when it is read.
 */
module NtfsRecord {
  import opened Basics

  function Wr16(s: seq<byte>, i: nat, v: nat): (r: seq<byte>)
    requires i + 2 <= |s| && v < 0x1_0000
    ensures |r| == |s|
  {
    Two(s, i, v % 256, v / 256)
  }

  function Two(s: seq<byte>, i: nat, lo: byte, hi: byte): (r: seq<byte>)
    requires i + 2 <= |s|
    ensures |r| == |s| && r[i] == lo && r[i + 1] == hi
    ensures forall x :: 0 <= x < |s| && x != i && x != i + 1 ==> r[x] == s[x]
  {
    s[i := lo][i + 1 := hi]
  }

  /** Writing back what was read copies two bytes. */
  lemma CopyTwo(s: seq<byte>, i: nat, j: nat)
    requires i + 2 <= |s| && j + 2 <= |s|
    ensures Rd16(s, j) < 0x1_0000 && Wr16(s, i, Rd16(s, j)) == Two(s, i, s[j], s[j + 1])
  {
    assert Rd16(s, j) % 256 == s[j] && Rd16(s, j) / 256 == s[j + 1];
  }

  /** The record holds n units and the array of saved bytes, wherever that lies. */
  predicate Shaped(r: seq<byte>, usa: nat, n: nat) { 0 < n && n * 512 <= |r| && usa + 2 * (n + 1) <= |r| }

  function Tail(i: nat): nat
    requires i > 0
  {
    i * 512 - 2
  }

  /** The array shares no byte with the end of unit i. */
  predicate Apart(usa: nat, n: nat, i: nat)
    requires i > 0
  {
    usa + 2 * (n + 1) <= Tail(i) || Tail(i) + 2 <= usa
  }

  /** The array of saved bytes: behind the fields that describe it, and apart from the ends of all units. */
  predicate Protected(r: seq<byte>, usa: nat, n: nat) {
    |r| == n * 512 && 0 < n && 8 <= usa && usa + 2 * (n + 1) <= |r| && forall i :: 1 <= i <= n ==> Apart(usa, n, i)
  }

  lemma Places(r: seq<byte>, usa: nat, n: nat, i: nat)
    requires Protected(r, usa, n) && 1 <= i <= n
    ensures usa + 2 * i + 2 <= |r| && 510 <= Tail(i) && Tail(i) + 2 <= |r| && Apart(usa, n, i)
    ensures forall j :: 1 <= j < i ==> Tail(j) + 2 <= Tail(i)
  {
    assert i * 512 <= n * 512;
    forall j | 1 <= j < i
      ensures Tail(j) + 2 <= Tail(i)
    {
      assert (j + 1) * 512 <= i * 512;
    }
  }

  lemma TailFits(r: seq<byte>, usa: nat, n: nat, i: nat)
    requires Shaped(r, usa, n) && 1 <= i <= n
    ensures Tail(i) + 2 <= |r| && usa + 2 * i + 2 <= |r|
  {
    Multiples(i, n, 512);
  }

  /** The record after the loop has protected its first k units. */
  function Packed(r: seq<byte>, usa: nat, n: nat, sequence: nat, k: nat): (p: seq<byte>)
    requires Shaped(r, usa, n) && sequence < 0x1_0000 && k <= n
    ensures |p| == |r|
  {
    if k == 0 then Wr16(r, usa, sequence)
    else
      var p := Packed(r, usa, n, sequence, k - 1);
      TailFits(p, usa, n, k);
      CopyTwo(p, usa + 2 * k, Tail(k));
      Wr16(Wr16(p, usa + 2 * k, Rd16(p, Tail(k))), Tail(k), sequence)
  }

  /** The record after the loop has checked and restored its first k units; None for a torn record. */
  function Fixed(p: seq<byte>, usa: nat, n: nat, k: nat): (r: Option<seq<byte>>)
    requires Shaped(p, usa, n) && k <= n
    ensures r.Some? ==> |r.value| == |p|
  {
    if k == 0 then Some(p)
    else match Fixed(p, usa, n, k - 1)
         case None => None
         case Some(q) =>
           TailFits(p, usa, n, k);
           CopyTwo(q, Tail(k), usa + 2 * k);
           if Rd16(q, Tail(k)) != Rd16(p, usa) then None else Some(Wr16(q, Tail(k), Rd16(q, usa + 2 * k)))
  }

  predicate InArray(usa: nat, n: nat, x: int) { usa <= x < usa + 2 * (n + 1) }

  /** What every byte of a record with its first k units protected is. */
  ghost predicate PackedTo(r: seq<byte>, p: seq<byte>, usa: nat, n: nat, sequence: nat, k: nat) {
    && Protected(r, usa, n) && |p| == |r| && sequence < 0x1_0000
    && p[usa] == sequence % 256 && p[usa + 1] == sequence / 256
    && (forall i :: 1 <= i <= k ==> Saved(r, p, usa, i, sequence))
    && (forall x :: 0 <= x < |r| && !InArray(usa, k, x) && !TailByte(k, x) ==> p[x] == r[x])
  }

  lemma {:induction false} PackedBytes(r: seq<byte>, usa: nat, n: nat, sequence: nat, k: nat)
    requires Protected(r, usa, n) && sequence < 0x1_0000 && k <= n
    ensures PackedTo(r, Packed(r, usa, n, sequence, k), usa, n, sequence, k)
  {
    hide Rd16, Two, PackedTo;
    if k == 0 {
      PackStart(r, usa, n, sequence);
    } else {
      PackedBytes(r, usa, n, sequence, k - 1);
      var p0 := Packed(r, usa, n, sequence, k - 1);
      Places(r, usa, n, k);
      CopyTwo(p0, usa + 2 * k, Tail(k));
      PackStep(r, p0, usa, n, sequence, k);
    }
  }

  lemma PackStart(r: seq<byte>, usa: nat, n: nat, sequence: nat)
    requires Protected(r, usa, n) && sequence < 0x1_0000
    ensures PackedTo(r, Wr16(r, usa, sequence), usa, n, sequence, 0)
  {
  }

  lemma PackStep(r: seq<byte>, p0: seq<byte>, usa: nat, n: nat, sequence: nat, k: nat)
    requires 1 <= k <= n && PackedTo(r, p0, usa, n, sequence, k - 1) && Tail(k) + 2 <= |r| && usa + 2 * k + 2 <= |r| && Apart(usa, n, k)
    ensures PackedTo(r, Two(Two(p0, usa + 2 * k, p0[Tail(k)], p0[Tail(k) + 1]), Tail(k), sequence % 256, sequence / 256), usa, n, sequence, k)
  {
    hide Two, TailByte, Tail;
    NotTail(r, usa, n, k);
    var m := Two(p0, usa + 2 * k, p0[Tail(k)], p0[Tail(k) + 1]);
    var p := Two(m, Tail(k), sequence % 256, sequence / 256);
    forall i | 1 <= i <= k
      ensures Saved(r, p, usa, i, sequence)
    {
      Places(r, usa, n, i);
      if i < k {
        assert Saved(r, p0, usa, i, sequence);
        Places(r, usa, n, k);
      }
    }
    forall x | 0 <= x < |r| && !InArray(usa, k, x) && !TailByte(k, x)
      ensures p[x] == r[x]
    {
      TailMore(k, x);
    }
  }

  lemma TailMore(k: nat, x: int)
    requires k > 0
    ensures TailByte(k, x) <==> TailByte(k - 1, x) || x == Tail(k) || x == Tail(k) + 1
  {
    if TailByte(k - 1, x) {
      var i :| 1 <= i <= k - 1 && (x == Tail(i) || x == Tail(i) + 1);
      assert 1 <= i <= k;
    }
    if x == Tail(k) || x == Tail(k) + 1 {
      assert 1 <= k <= k;
    }
  }

  /** Unit i is protected: its tail is in the array and the sequence number in its place. */
  ghost predicate Saved(r: seq<byte>, p: seq<byte>, usa: nat, i: nat, sequence: nat)
    requires i > 0 && sequence < 0x1_0000
  {
    && Tail(i) + 2 <= |r| && |p| == |r| && usa + 2 * i + 2 <= |r|
    && p[usa + 2 * i] == r[Tail(i)] && p[usa + 2 * i + 1] == r[Tail(i) + 1]
    && p[Tail(i)] == sequence % 256 && p[Tail(i) + 1] == sequence / 256
  }

  /** x is one of the last two bytes of the first k units. */
  ghost predicate TailByte(k: nat, x: int) { exists i :: 1 <= i <= k && (x == Tail(i) || x == Tail(i) + 1) }

  /** Restoring the first k units of a packed record gives the original but for the array and the other tails. */
  lemma {:induction false} FixedBytes(r: seq<byte>, usa: nat, n: nat, sequence: nat, k: nat)
    requires Protected(r, usa, n) && sequence < 0x1_0000 && k <= n
    ensures var p := Packed(r, usa, n, sequence, n);
      Fixed(p, usa, n, k).Some? && FixedTo(r, p, Fixed(p, usa, n, k).value, k)
  {
    hide Packed, FixedTo, Rd16, Two, PackedTo, TailByte, Tail;
    var p := Packed(r, usa, n, sequence, n);
    if k == 0 {
      FixStart(r, p);
    } else {
      FixedBytes(r, usa, n, sequence, k - 1);
      PackedBytes(r, usa, n, sequence, n);
      var q0 := Fixed(p, usa, n, k - 1).value;
      Places(r, usa, n, k);
      CopyTwo(q0, Tail(k), usa + 2 * k);
      FixStep(r, p, q0, usa, n, sequence, k);
    }
  }

  ghost predicate FixedTo(r: seq<byte>, p: seq<byte>, q: seq<byte>, k: nat) {
    && |p| == |q| == |r|
    && (forall i :: 1 <= i <= k ==> Restored(r, q, i))
    && (forall x :: 0 <= x < |r| && !TailByte(k, x) ==> q[x] == p[x])
  }

  ghost predicate Restored(r: seq<byte>, q: seq<byte>, i: nat)
    requires i > 0
  {
    Tail(i) + 2 <= |r| && |q| == |r| && q[Tail(i)] == r[Tail(i)] && q[Tail(i) + 1] == r[Tail(i) + 1]
  }

  lemma FixStart(r: seq<byte>, p: seq<byte>)
    requires |p| == |r|
    ensures FixedTo(r, p, p, 0)
  {
  }

  lemma FixStep(r: seq<byte>, p: seq<byte>, q0: seq<byte>, usa: nat, n: nat, sequence: nat, k: nat)
    requires 1 <= k <= n && PackedTo(r, p, usa, n, sequence, n) && FixedTo(r, p, q0, k - 1)
    requires Tail(k) + 2 <= |r| && usa + 2 * k + 2 <= |r| && Apart(usa, n, k)
    ensures Rd16(q0, Tail(k)) == Rd16(p, usa)
    ensures FixedTo(r, p, Two(q0, Tail(k), q0[usa + 2 * k], q0[usa + 2 * k + 1]), k)
  {
    hide Two, TailByte, Tail;
    NotTail(r, usa, n, k);
    assert Saved(r, p, usa, k, sequence);
    var q := Two(q0, Tail(k), q0[usa + 2 * k], q0[usa + 2 * k + 1]);
    forall i | 1 <= i <= k
      ensures Restored(r, q, i)
    {
      if i < k {
        assert Restored(r, q0, i);
        Places(r, usa, n, k);
      }
    }
    forall x | 0 <= x < |r| && !TailByte(k, x)
      ensures q[x] == p[x]
    {
      TailMore(k, x);
    }
  }

  lemma NotTail(r: seq<byte>, usa: nat, n: nat, k: nat)
    requires Protected(r, usa, n) && 1 <= k <= n
    ensures !TailByte(k - 1, Tail(k)) && !TailByte(k - 1, Tail(k) + 1)
    ensures !TailByte(k - 1, usa + 2 * k) && !TailByte(k - 1, usa + 2 * k + 1)
  {
    forall i | 1 <= i <= k - 1
      ensures Tail(i) + 2 <= Tail(k) && Apart(usa, n, i)
    {
      Places(r, usa, n, k);
      Places(r, usa, n, i);
    }
  }

  /** Reading back a stored record gives the original outside the array of saved bytes. */
  lemma FixupUndoesPack(r: seq<byte>, usa: nat, n: nat, sequence: nat)
    requires Protected(r, usa, n) && sequence < 0x1_0000
    ensures var q := Fixed(Packed(r, usa, n, sequence, n), usa, n, n);
      q.Some? && |q.value| == |r| && forall x :: 0 <= x < |r| && !InArray(usa, n, x) ==> q.value[x] == r[x]
  {
    hide Packed, Fixed, Tail;
    FixedBytes(r, usa, n, sequence, n);
    PackedBytes(r, usa, n, sequence, n);
    var p := Packed(r, usa, n, sequence, n);
    var q := Fixed(p, usa, n, n).value;
    forall x | 0 <= x < |r| && !InArray(usa, n, x)
      ensures q[x] == r[x]
    {
      if TailByte(n, x) {
        var i :| 1 <= i <= n && (x == Tail(i) || x == Tail(i) + 1);
        assert Restored(r, q, i);
      }
    }
  }

  /** An array over the end of a unit is accepted by the checks, but the record stored with it is refused when it is read. */
  lemma OverlapRefused()
    ensures Shaped(Zeros(1024), 506, 2) && Fixed(Packed(Zeros(1024), 506, 2, 1, 2), 506, 2, 2).None?
  {
    var r := Zeros(1024);
    var p0 := Packed(r, 506, 2, 1, 0);
    var p1 := Packed(r, 506, 2, 1, 1);
    var p2 := Packed(r, 506, 2, 1, 2);
    assert p0[506] == 1 && p0[507] == 0;
    assert p1[506] == 1 && p1[507] == 0 && p1[1022] == 0 && p1[1023] == 0;
    assert p2[506] == 1 && p2[507] == 0 && p2[510] == 0 && p2[511] == 0;
    assert Fixed(p2, 506, 2, 0) == Some(p2);
    assert Fixed(p2, 506, 2, 1).None?;
  }

  /** A stored record is still a record with the same array. */
  lemma PackedMarked(r: seq<byte>, magic: seq<byte>, sequence: nat)
    requires Marked(r, magic) && sequence < 0x1_0000
    ensures var n := |r| / 512;
      var p := Packed(r, Rd16(r, 4), n, sequence, n);
      Marked(p, magic) && Rd16(p, 4) == Rd16(r, 4)
  {
    hide Packed, Tail;
    var usa, n := Rd16(r, 4), |r| / 512;
    PackedBytes(r, usa, n, sequence, n);
    var p := Packed(r, usa, n, sequence, n);
    forall x | 0 <= x < 8
      ensures p[x] == r[x]
    {
      if TailByte(n, x) {
        var i :| 1 <= i <= n && (x == Tail(i) || x == Tail(i) + 1);
        Places(r, usa, n, i);
      }
    }
    assert p[..4] == r[..4];
  }

  /** A record is accepted exactly when every unit carries the sequence number: a torn write is noticed. */
  lemma {:induction false} FixedWhen(p: seq<byte>, usa: nat, n: nat, k: nat)
    requires Protected(p, usa, n) && k <= n
    ensures forall i :: 1 <= i <= n ==> Tail(i) + 2 <= |p|
    ensures Fixed(p, usa, n, k).Some? <==> forall i :: 1 <= i <= k ==> Rd16(p, Tail(i)) == Rd16(p, usa)
    ensures Fixed(p, usa, n, k).Some? ==>
      forall x :: 0 <= x < |p| && !TailByte(k, x) ==> Fixed(p, usa, n, k).value[x] == p[x]
  {
    forall i | 1 <= i <= n
      ensures Tail(i) + 2 <= |p|
    {
      Places(p, usa, n, i);
    }
    hide Rd16, Two, TailByte, Tail, Apart;
    if k > 0 {
      FixedWhen(p, usa, n, k - 1);
      NotTail(p, usa, n, k);
      if Fixed(p, usa, n, k - 1).Some? {
        var q := Fixed(p, usa, n, k - 1).value;
        SameTwo(q, p, Tail(k));
        CopyTwo(q, Tail(k), usa + 2 * k);
        forall x | 0 <= x < |p| && !TailByte(k, x)
          ensures Two(q, Tail(k), q[usa + 2 * k], q[usa + 2 * k + 1])[x] == p[x]
        {
          TailMore(k, x);
        }
      }
    }
  }

  lemma SameTwo(a: seq<byte>, b: seq<byte>, i: nat)
    requires i + 2 <= |a| == |b| && a[i] == b[i] && a[i + 1] == b[i + 1]
    ensures Rd16(a, i) == Rd16(b, i)
  {
  }

  // ---------------------------------------------------------------- the two loops

  /** One more than the old number; 0 and 0xffff are skipped. */
  function NextNumber(v: nat): (r: nat)
    ensures 1 <= r < 0xffff
  {
    var x := (v + 1) % 0x1_0000;
    if x == 0 || x == 0xffff then 1 else x
  }

  /** The packing loop; least is the lowest place for the array, 8 in ntfs_store_record and 48 in nt_tx_record. */
  method Pack(raw: array<byte>, size: nat, least: nat) returns (ok: bool)
    requires raw.Length == size && size >= 512
    modifies raw
    ensures ok <==> var usa, count := Rd16(old(raw[..]), 4), Rd16(old(raw[..]), 6);
      least <= usa && count == size / 512 + 1 && usa + count * 2 <= size
    ensures !ok ==> raw[..] == old(raw[..])
    ensures ok ==>
      var r := old(raw[..]);
      var usa := Rd16(r, 4);
      Shaped(r, usa, size / 512) && raw[..] == Packed(r, usa, size / 512, NextNumber(Rd16(r, usa)), size / 512)
  {
    hide Rd16, Wr16, Packed;
    ghost var r := raw[..];
    ghost var n := size / 512;
    var usa, count := Get16(raw, 4), Get16(raw, 6);
    if count != size / 512 + 1 || usa < least || usa + count * 2 > size {
      return false;
    }
    assert Shaped(r, usa, n);
    var sequence := (Get16(raw, usa) + 1) % 0x1_0000;
    if sequence == 0 || sequence == 0xffff {
      sequence := 1;
    }
    assert sequence == NextNumber(Rd16(r, usa));
    Put16(raw, usa, sequence);
    PackedFirst(r, usa, n, sequence);
    var i := 1;
    while i < count
      invariant 1 <= i <= count
      invariant raw[..] == Packed(r, usa, n, sequence, i - 1)
    {
      UnitFits(size, i);
      PackedNext(r, usa, n, sequence, i);
      ghost var before := raw[..];
      var end := i * 512 - 2;
      assert end == Tail(i);
      var tail := Get16(raw, end);
      assert tail == Rd16(before, end);
      Put16(raw, usa + 2 * i, tail);
      assert raw[..] == Wr16(before, usa + 2 * i, tail);
      Put16(raw, end, sequence);
      i := i + 1;
    }
    return true;
  }

  lemma PackedFirst(r: seq<byte>, usa: nat, n: nat, sequence: nat)
    requires Shaped(r, usa, n) && sequence < 0x1_0000
    ensures usa + 2 <= |r| && Packed(r, usa, n, sequence, 0) == Wr16(r, usa, sequence)
  {
  }

  lemma PackedNext(r: seq<byte>, usa: nat, n: nat, sequence: nat, k: nat)
    requires Shaped(r, usa, n) && sequence < 0x1_0000 && 1 <= k <= n
    ensures usa + 2 * k + 2 <= |r| && Tail(k) + 2 <= |r|
    ensures var p := Packed(r, usa, n, sequence, k - 1);
      Rd16(p, Tail(k)) < 0x1_0000
      && Packed(r, usa, n, sequence, k) == Wr16(Wr16(p, usa + 2 * k, Rd16(p, Tail(k))), Tail(k), sequence)
  {
    var p := Packed(r, usa, n, sequence, k - 1);
    TailFits(r, usa, n, k);
    CopyTwo(p, usa + 2 * k, Tail(k));
  }

  lemma FixedFirst(p: seq<byte>, usa: nat, n: nat)
    requires Shaped(p, usa, n)
    ensures Fixed(p, usa, n, 0) == Some(p)
  {
  }

  lemma FixedNext(p: seq<byte>, usa: nat, n: nat, k: nat, q: seq<byte>)
    requires Shaped(p, usa, n) && 1 <= k <= n && Fixed(p, usa, n, k - 1) == Some(q)
    ensures usa + 2 * k + 2 <= |p| == |q| && Tail(k) + 2 <= |p| && Rd16(q, usa + 2 * k) < 0x1_0000
    ensures Fixed(p, usa, n, k) ==
      if Rd16(q, Tail(k)) != Rd16(p, usa) then None else Some(Wr16(q, Tail(k), Rd16(q, usa + 2 * k)))
  {
    TailFits(p, usa, n, k);
    CopyTwo(q, Tail(k), usa + 2 * k);
  }

  lemma UnitFits(size: nat, i: nat)
    requires 1 <= i <= size / 512
    ensures 2 <= i * 512 <= size
  {
  }

  function Get16(a: array<byte>, i: nat): (v: nat)
    requires i + 2 <= a.Length
    reads a
    ensures v == Rd16(a[..], i) && v < 0x1_0000
  {
    a[i] as int + 256 * (a[i + 1] as int)
  }

  method Put16(a: array<byte>, i: nat, v: nat)
    requires i + 2 <= a.Length && v < 0x1_0000
    modifies a
    ensures a[..] == Wr16(old(a[..]), i, v)
  {
    a[i] := v % 256;
    a[i + 1] := v / 256;
  }

  /** A record with the right magic, a count that fits its size, and its array before byte 510. */
  predicate Marked(p: seq<byte>, magic: seq<byte>) {
    && |p| >= 48 && |magic| == 4 && p[..4] == magic && |p| % 512 == 0 && Rd16(p, 6) == |p| / 512 + 1
    && Protected(p, Rd16(p, 4), |p| / 512)
  }

  /** What ntfs_fixup asks of a record before it looks at the units. */
  predicate Recorded(p: seq<byte>, magic: seq<byte>) {
    && |p| >= 48 && |magic| == 4 && p[..4] == magic && |p| % 512 == 0 && Rd16(p, 6) == |p| / 512 + 1
    && 8 <= Rd16(p, 4) && Shaped(p, Rd16(p, 4), |p| / 512)
  }

  /** ntfs_fixup. */
  method Fixup(record: array<byte>, magic: seq<byte>) returns (ok: bool)
    requires |magic| == 4
    modifies record
    ensures var p := old(record[..]);
      && (ok <==> Recorded(p, magic) && Fixed(p, Rd16(p, 4), |p| / 512, |p| / 512).Some?)
      && (ok ==> record[..] == Fixed(p, Rd16(p, 4), |p| / 512, |p| / 512).value)
  {
    hide Rd16, Wr16, Fixed;
    ghost var p := record[..];
    var size := record.Length;
    ghost var n := size / 512;
    if size < 48 || record[..4] != magic {
      return false;
    }
    var off, count := Get16(record, 4), Get16(record, 6);
    if size % 512 != 0 || count != size / 512 + 1 || off < 8 || off > size || count * 2 > size - off {
      return false;
    }
    assert Recorded(p, magic);
    var sequence := Get16(record, off);
    assert sequence == Rd16(p, off);
    FixedFirst(p, off, n);
    var i := 1;
    while i < count
      invariant 1 <= i <= count
      invariant Fixed(p, off, n, i - 1) == Some(record[..])
    {
      UnitFits(size, i);
      FixedNext(p, off, n, i, record[..]);
      ghost var before := record[..];
      var end := i * 512 - 2;
      assert end == Tail(i);
      var tail := Get16(record, end);
      assert tail == Rd16(before, end);
      if tail != sequence {
        StaysNone(p, off, n, i, n);
        return false;
      }
      var saved := Get16(record, off + 2 * i);
      Put16(record, end, saved);
      i := i + 1;
    }
    return true;
  }

  lemma {:induction false} StaysNone(p: seq<byte>, usa: nat, n: nat, k: nat, m: nat)
    requires Shaped(p, usa, n) && k <= m <= n && Fixed(p, usa, n, k).None?
    ensures Fixed(p, usa, n, m).None?
  {
    if k < m {
      StaysNone(p, usa, n, k, m - 1);
    }
  }
}
