/**
 Long file names on FAT volumes: the entries that fat_create_locked writes and
 the decoder in fat_directory ("FAT Long Directory Entries", Microsoft FAT32
 specification 1.03).
 */
module FatNames {
  import opened Basics

  const NAME_MAX: nat := 255
  const PER_ENTRY: nat := 13

  /** Characters that fat_create_locked accepts. */
  predicate Accepted(c: byte) {
    32 <= c <= 126 && c !in {34, 42, 47, 58, 60, 62, 63, 92, 124}
  }

  /** They are the printable characters but the nine that names on such volumes may not have. */
  lemma AcceptedIs(c: byte)
    ensures Accepted(c) <==> ' ' <= c as char <= '~' && c as char !in "\"*/:<>?\\|"
  {
    var no := "\"*/:<>?\\|";
    assert no[0] == '\"' && no[1] == '*' && no[2] == '/' && no[3] == ':' && no[4] == '<' && no[5] == '>' && no[6] == '?' && no[7] == '\\' && no[8] == '|';
  }

  predicate ValidName(name: seq<byte>) {
    1 <= |name| <= NAME_MAX && (forall i :: 0 <= i < |name| ==> Accepted(name[i])) && name[|name| - 1] != 32 && name[|name| - 1] != 46
  }

  /** sfn_checksum of the first n bytes. */
  function Checksum(short: seq<byte>, n: nat): byte
    requires n <= |short|
  {
    if n == 0 then 0
    else
      var sum := Checksum(short, n - 1);
      ((if sum % 2 == 1 then 128 else 0) + sum / 2 + short[n - 1]) % 256
  }

  /** The sum rotated by one bit. */
  function Rotated(sum: byte): (r: byte) { (if sum % 2 == 1 then 128 else 0) + sum / 2 }

  lemma RotatedApart(a: byte, b: byte)
    requires a != b
    ensures Rotated(a) != Rotated(b)
  {
  }

  /** The checksum notices every change of one byte. */
  lemma {:induction false} ChecksumDetects(a: seq<byte>, b: seq<byte>, i: nat, n: nat)
    requires i < n <= |a| && |a| == |b| && a[i] != b[i] && forall k :: 0 <= k < n && k != i ==> a[k] == b[k]
    ensures Checksum(a, n) != Checksum(b, n)
  {
    var x, y := Checksum(a, n - 1), Checksum(b, n - 1);
    if i == n - 1 {
      SameSum(a, b, n - 1);
      AddedApart(Rotated(x), a[i], b[i]);
    } else {
      ChecksumDetects(a, b, i, n - 1);
      RotatedApart(x, y);
      AddedApart(a[n - 1], Rotated(x), Rotated(y));
    }
  }

  lemma {:induction false} SameSum(a: seq<byte>, b: seq<byte>, n: nat)
    requires n <= |a| && |a| == |b| && forall k :: 0 <= k < n ==> a[k] == b[k]
    ensures Checksum(a, n) == Checksum(b, n)
  {
    if n > 0 {
      SameSum(a, b, n - 1);
    }
  }

  lemma AddedApart(c: byte, x: byte, y: byte)
    requires x != y
    ensures (c + x) % 256 != (c + y) % 256
  {
  }

  // ---------------------------------------------------------------- writing

  function Entries(n: nat): nat { (n + 12) / 13 }

  /** The 16-bit unit at a place of the padded name. */
  function UnitAt(name: seq<byte>, at: nat): (u: nat)
    ensures u < 0x1_0000
  {
    if at < |name| then name[at] else if at == |name| then 0 else 0xffff
  }

  function Two(u: nat): (r: seq<byte>)
    requires u < 0x1_0000
    ensures |r| == 2
  {
    [u % 256, u / 256]
  }

  /** The units at [from, from + n). */
  function Units(name: seq<byte>, from: nat, n: nat): (r: seq<byte>)
    ensures |r| == 2 * n
  {
    if n == 0 then [] else Units(name, from, n - 1) + Two(UnitAt(name, from + n - 1))
  }

  /** The long-name entry with number s of n; the first one written is the last part. */
  function LongEntry(name: seq<byte>, sum: byte, s: nat, last: bool): (d: seq<byte>)
    requires 1 <= s <= 20
    ensures |d| == 32
  {
    var at := (s - 1) * PER_ENTRY;
    [(s + if last then 0x40 else 0) as byte] + Units(name, at, 5) + [0x0f, 0, sum] + Units(name, at + 5, 6) + [0, 0] + Units(name, at + 11, 2)
  }

  /** Where unit i of an entry is. */
  function Position(i: nat): nat { if i < 5 then 1 + 2 * i else if i < 11 then 14 + 2 * (i - 5) else 28 + 2 * (i - 11) }

  lemma {:induction false} UnitsAt(name: seq<byte>, from: nat, n: nat, i: nat)
    requires i < n
    ensures Rd16(Units(name, from, n), 2 * i) == UnitAt(name, from + i)
  {
    if i < n - 1 {
      UnitsAt(name, from, n - 1, i);
    }
  }

  lemma LongEntryUnit(name: seq<byte>, sum: byte, s: nat, last: bool, i: nat)
    requires 1 <= s <= 20 && i < PER_ENTRY
    ensures Rd16(LongEntry(name, sum, s, last), Position(i)) == UnitAt(name, (s - 1) * PER_ENTRY + i)
  {
    hide Units, UnitAt;
    var at := (s - 1) * PER_ENTRY;
    if i < 5 {
      UnitsAt(name, at, 5, i);
    } else if i < 11 {
      UnitsAt(name, at + 5, 6, i - 5);
    } else {
      UnitsAt(name, at + 11, 2, i - 11);
    }
  }

  // ---------------------------------------------------------------- reading

  /** The decoder between entries; name has room for 256 bytes. */
  datatype Decoder = Decoder(lfn: bool, expected: nat, sum: byte, name: seq<byte>)

  function Blank(): seq<byte> { seq(NAME_MAX + 1, i => 0 as byte) }

  /** Place of the first unit of an entry, in 32-bit arithmetic. */
  function Start(s: nat): nat { if s == 0 then 0xffff_fff3 else (s - 1) * PER_ENTRY }

  /** The loop over the units of an entry, up to unit n. */
  function Collect(x: Decoder, d: seq<byte>, s: nat, n: nat): (r: Decoder)
    requires |d| == 32 && |x.name| == NAME_MAX + 1 && n <= PER_ENTRY
    ensures |r.name| == NAME_MAX + 1
  {
    if n == 0 then x
    else
      var y, at, u := Collect(x, d, s, n - 1), Start(s) + n - 1, Rd16(d, Position(n - 1));
      if at >= NAME_MAX then (if u != 0 && u != 0xffff then y.(lfn := false) else y)
      else if u == 0xffff || u == 0 then y.(name := y.name[at := 0])
      else if u < 32 || u > 126 || u == 47 || u == 92 then y.(lfn := false)
      else y.(name := y.name[at := u])
  }

  /** One entry that belongs to a long name. */
  function LongStep(x: Decoder, d: seq<byte>): (r: Decoder)
    requires |d| == 32 && |x.name| == NAME_MAX + 1
    ensures |r.name| == NAME_MAX + 1
  {
    var s := d[0] as int % 32;
    var y := if d[0] / 64 % 2 == 1 then Decoder(1 <= s <= 20, s, d[13], Blank()) else x;
    if !y.lfn || s != y.expected || d[13] != y.sum || d[12] != 0 || Rd16(d, 26) != 0 || d[0] / 128 == 1 || d[0] / 32 % 2 == 1
    then y.(lfn := false)
    else var z := Collect(y, d, s, PER_ENTRY); z.(expected := if z.expected == 0 then 0xffff_ffff else z.expected - 1)
  }

  /** The bytes before the first zero. */
  function Text(name: seq<byte>): seq<byte> {
    if name == [] || name[0] == 0 then [] else [name[0]] + Text(name[1..])
  }

  /** The long name of a short entry, if the entries before it were one. */
  predicate HasLong(x: Decoder, short: seq<byte>)
    requires |short| == 11 && |x.name| == NAME_MAX + 1
  {
    x.lfn && x.expected == 0 && x.sum == Checksum(short, 11) && x.name[0] != 0
  }

  /** The entries of a long name in the order written, from number s down to 1. */
  function Written(name: seq<byte>, sum: byte, s: nat, n: nat): seq<seq<byte>>
    requires s <= n <= 20
  {
    if s == 0 then [] else [LongEntry(name, sum, s, s == n)] + Written(name, sum, s - 1, n)
  }

  function Decode(x: Decoder, ds: seq<seq<byte>>): (r: Decoder)
    requires |x.name| == NAME_MAX + 1 && forall k :: 0 <= k < |ds| ==> |ds[k]| == 32
    ensures |r.name| == NAME_MAX + 1
    decreases |ds|
  {
    if ds == [] then x else Decode(LongStep(x, ds[0]), ds[1..])
  }

  lemma {:induction false} WrittenSize(name: seq<byte>, sum: byte, s: nat, n: nat)
    requires s <= n <= 20
    ensures |Written(name, sum, s, n)| == s && forall k :: 0 <= k < s ==> |Written(name, sum, s, n)[k]| == 32
  {
    hide LongEntry;
    if s > 0 {
      WrittenSize(name, sum, s - 1, n);
    }
  }

  // ---------------------------------------------------------------- round trip

  /** What place at of the buffer must hold in the end. */
  function Wanted(name: seq<byte>, at: nat): byte { if at < |name| then name[at] else 0 }

  /** Collecting a written entry stores its part of the name. */
  lemma {:induction false} CollectWritten(x: Decoder, name: seq<byte>, sum: byte, s: nat, last: bool, n: nat)
    requires ValidName(name) && 1 <= s <= 20 && n <= PER_ENTRY && |x.name| == NAME_MAX + 1 && x.lfn
    ensures var y := Collect(x, LongEntry(name, sum, s, last), s, n);
      && y.lfn && y.expected == x.expected && y.sum == x.sum
      && forall at :: 0 <= at < NAME_MAX + 1 ==>
           y.name[at] == if (s - 1) * PER_ENTRY <= at < (s - 1) * PER_ENTRY + n && at < NAME_MAX then Wanted(name, at) else x.name[at]
  {
    hide LongEntry, Rd16, Accepted;
    if n > 0 {
      CollectWritten(x, name, sum, s, last, n - 1);
      LongEntryUnit(name, sum, s, last, n - 1);
      var at := (s - 1) * PER_ENTRY + n - 1;
      if at < |name| {
        AcceptedPlain(name[at]);
      }
    }
  }

  lemma AcceptedPlain(c: byte)
    requires Accepted(c)
    ensures 32 <= c <= 126 && c != 47 && c != 92
  {
  }

  lemma EntryHead(name: seq<byte>, sum: byte, s: nat, last: bool)
    requires 1 <= s <= 20
    ensures var d := LongEntry(name, sum, s, last);
      && d[0] as int % 32 == s && (d[0] / 64 % 2 == 1 <==> last) && d[0] / 128 == 0 && d[0] / 32 % 2 == 0
      && d[12] == 0 && d[13] == sum && Rd16(d, 26) == 0
  {
    hide Units;
    var d := LongEntry(name, sum, s, last);
    assert d[0] as int == s + if last then 0x40 else 0;
    assert d[12] == 0 && d[13] == sum && d[26] == 0 && d[27] == 0;
  }

  /** The decoder has read the parts of name from number s + 1 on. */
  ghost predicate ReadTo(x: Decoder, name: seq<byte>, sum: byte, s: nat) {
    && x.lfn && x.expected == s && x.sum == sum && |x.name| == NAME_MAX + 1
    && forall at :: 0 <= at < NAME_MAX + 1 ==> x.name[at] == if s * PER_ENTRY <= at then Wanted(name, at) else 0
  }

  lemma StepWritten(x: Decoder, name: seq<byte>, sum: byte, s: nat, n: nat)
    requires ValidName(name) && 1 <= s <= n == Entries(|name|) <= 20 && |x.name| == NAME_MAX + 1
    requires s < n ==> ReadTo(x, name, sum, s)
    ensures ReadTo(LongStep(x, LongEntry(name, sum, s, s == n)), name, sum, s - 1)
  {
    hide LongEntry, Collect, ValidName;
    var d := LongEntry(name, sum, s, s == n);
    EntryHead(name, sum, s, s == n);
    var y := if s == n then Decoder(true, s, sum, Blank()) else x;
    CollectWritten(y, name, sum, s, s == n, PER_ENTRY);
    LastPart(name, n);
    var z := Collect(y, d, s, PER_ENTRY);
    assert LongStep(x, d) == z.(expected := s - 1);
  }

  /** The last entry covers the end of the name, and no entry goes beyond the buffer but with padding. */
  lemma LastPart(name: seq<byte>, n: nat)
    requires ValidName(name) && n == Entries(|name|)
    ensures (n - 1) * PER_ENTRY < |name| <= n * PER_ENTRY && 1 <= n <= 20 && |name| <= NAME_MAX
    ensures forall at :: |name| <= at ==> Wanted(name, at) == 0
  {
    hide Accepted;
  }

  lemma {:induction false} DecodeWritten(x: Decoder, name: seq<byte>, sum: byte, s: nat, n: nat)
    requires ValidName(name) && s <= n == Entries(|name|) <= 20 && |x.name| == NAME_MAX + 1
    requires s < n ==> ReadTo(x, name, sum, s)
    requires forall k :: 0 <= k < |Written(name, sum, s, n)| ==> |Written(name, sum, s, n)[k]| == 32
    ensures n > 0 ==> ReadTo(Decode(x, Written(name, sum, s, n)), name, sum, 0)
    decreases s
  {
    hide LongEntry, LongStep, ReadTo, ValidName;
    if s > 0 {
      var d := LongEntry(name, sum, s, s == n);
      StepWritten(x, name, sum, s, n);
      WrittenSize(name, sum, s - 1, n);
      var rest := Written(name, sum, s - 1, n);
      assert ([d] + rest)[1..] == rest;
      DecodeWritten(LongStep(x, d), name, sum, s - 1, n);
    } else if n > 0 {
      LastPart(name, n);
    }
  }

  lemma {:induction false} TextIs(buffer: seq<byte>, name: seq<byte>)
    requires |name| < |buffer| && buffer[..|name|] == name && buffer[|name|] == 0 && forall i :: 0 <= i < |name| ==> name[i] != 0
    ensures Text(buffer) == name
  {
    if name != [] {
      assert buffer[0] == buffer[..|name|][0] == name[0];
      assert buffer[1..][..|name| - 1] == buffer[..|name|][1..] == name[1..];
      TextIs(buffer[1..], name[1..]);
    }
  }

  /** Whatever came before, the entries written for a name followed by its short entry are read as exactly that name. */
  lemma LongNameRoundTrip(x: Decoder, name: seq<byte>, short: seq<byte>)
    requires ValidName(name) && |short| == 11 && |x.name| == NAME_MAX + 1
    ensures var n := Entries(|name|);
      && n <= 20 && |Written(name, Checksum(short, 11), n, n)| == n
      && (forall k :: 0 <= k < n ==> |Written(name, Checksum(short, 11), n, n)[k]| == 32)
      && HasLong(Decode(x, Written(name, Checksum(short, 11), n, n)), short)
      && Text(Decode(x, Written(name, Checksum(short, 11), n, n)).name) == name
  {
    hide Decode, Written, Checksum, Accepted;
    var n, sum := Entries(|name|), Checksum(short, 11);
    LastPart(name, n);
    WrittenSize(name, sum, n, n);
    DecodeWritten(x, name, sum, n, n);
    var z := Decode(x, Written(name, sum, n, n));
    assert ReadTo(z, name, sum, 0);
    forall i | 0 <= i < |name|
      ensures name[i] != 0 && z.name[i] == name[i]
    {
      AcceptedPlain(name[i]);
    }
    assert z.name[..|name|] == name;
    TextIs(z.name, name);
  }

  // ---------------------------------------------------------------- nothing else is a long name

  /** An entry that is part s of a long name, the last part first. */
  predicate LongPart(d: seq<byte>, s: nat, last: bool, sum: byte) {
    && |d| == 32 && d[0] as int == s + (if last then 0x40 else 0) && d[12] == 0 && d[13] == sum && Rd16(d, 26) == 0
  }

  /** What a unit of an entry puts into the name: an end or padding is a zero. */
  function Letter(u: nat): nat { if u == 0xffff then 0 else u }

  /** The name has the units of the entry at their places. */
  ghost predicate Spells(name: seq<byte>, d: seq<byte>, s: nat, n: nat) {
    |d| == 32 && n <= PER_ENTRY && 1 <= s && forall i :: 0 <= i < n && (s - 1) * PER_ENTRY + i < |name| && (s - 1) * PER_ENTRY + i < NAME_MAX ==>
      name[(s - 1) * PER_ENTRY + i] as nat == Letter(Rd16(d, Position(i)))
  }

  lemma {:induction false} CollectSpells(x: Decoder, d: seq<byte>, s: nat, n: nat)
    requires |d| == 32 && |x.name| == NAME_MAX + 1 && n <= PER_ENTRY && 1 <= s
    ensures var y := Collect(x, d, s, n);
      && y.expected == x.expected && y.sum == x.sum && (y.lfn ==> x.lfn && Spells(y.name, d, s, n))
      && forall at :: 0 <= at < NAME_MAX + 1 && !((s - 1) * PER_ENTRY <= at < (s - 1) * PER_ENTRY + n) ==> y.name[at] == x.name[at]
  {
    hide Rd16, Position;
    if n > 0 {
      CollectSpells(x, d, s, n - 1);
    }
  }

  /** The units of other parts stay where they are. */
  lemma SpellsOther(a: seq<byte>, b: seq<byte>, d: seq<byte>, s: nat, t: nat)
    requires Spells(a, d, s, PER_ENTRY) && |a| == |b| == NAME_MAX + 1 && t != s && t >= 1
    requires forall at :: 0 <= at < NAME_MAX + 1 && !((t - 1) * PER_ENTRY <= at < (t - 1) * PER_ENTRY + PER_ENTRY) ==> b[at] == a[at]
    ensures Spells(b, d, s, PER_ENTRY)
  {
    hide Rd16, Position, Letter;
  }

  lemma {:induction false} CollectKeeps(x: Decoder, d: seq<byte>, s: nat, n: nat)
    requires |d| == 32 && |x.name| == NAME_MAX + 1 && n <= PER_ENTRY
    ensures var y := Collect(x, d, s, n); y.expected == x.expected && y.sum == x.sum && (y.lfn ==> x.lfn)
  {
    hide Rd16, Position, Start;
    if n > 0 {
      CollectKeeps(x, d, s, n - 1);
    }
  }

  /** One step that goes on with a long name, or starts one. */
  lemma StepParts(x: Decoder, d: seq<byte>)
    requires |d| == 32 && |x.name| == NAME_MAX + 1
    ensures var y, s := LongStep(x, d), d[0] as int % 32;
      y.lfn && y.expected != 0xffff_ffff ==>
        && s >= 1 && y.expected == s - 1 && Spells(y.name, d, s, PER_ENTRY)
        && ((s <= 20 && LongPart(d, s, true, y.sum)) || (x.lfn && x.expected == s && x.sum == y.sum && LongPart(d, s, false, y.sum)
             && forall at :: 0 <= at < NAME_MAX + 1 && !((s - 1) * PER_ENTRY <= at < (s - 1) * PER_ENTRY + PER_ENTRY) ==> y.name[at] == x.name[at]))
  {
    hide Collect, Rd16, Spells;
    var s := d[0] as int % 32;
    HeadParts(d[0]);
    var start := Decoder(1 <= s <= 20, s, d[13], Blank());
    CollectKeeps(x, d, s, PER_ENTRY);
    CollectKeeps(start, d, s, PER_ENTRY);
    if s >= 1 {
      CollectSpells(x, d, s, PER_ENTRY);
      CollectSpells(start, d, s, PER_ENTRY);
    }
  }

  lemma HeadParts(h: byte)
    ensures h / 128 != 1 && h / 32 % 2 != 1 ==> h as int == h as int % 32 + if h / 64 % 2 == 1 then 0x40 else 0
  {
  }

  // ---------------------------------------------------------------- the loops

  /** The state of fat_directory's scan for long names. */
  class Reader {
    var lfn: bool
    var expected: nat
    var sum: byte
    const name: array<byte>

    ghost function View(): Decoder
      reads this, name
    {
      Decoder(lfn, expected, sum, name[..])
    }

    constructor ()
      ensures name.Length == NAME_MAX + 1 && fresh(name) && View() == Decoder(false, 0, 0, Blank())
    {
      name := new byte[NAME_MAX + 1](i => 0);
      lfn, expected, sum := false, 0, 0;
      new;
      assert name[..] == Blank();
    }

    /** An entry with the long-name attribute. */
    method Take(d: seq<byte>)
      requires |d| == 32 && name.Length == NAME_MAX + 1
      modifies this, name
      ensures View() == LongStep(old(View()), d)
    {
      hide Rd16, Position;
      var s := d[0] as int % 32;
      if d[0] / 64 % 2 == 1 {
        Clear();
        lfn, expected, sum := 1 <= s <= 20, s, d[13];
      }
      if !lfn || s != expected || d[13] != sum || d[12] != 0 || Rd16(d, 26) != 0 || d[0] / 128 == 1 || d[0] / 32 % 2 == 1 {
        lfn := false;
        return;
      }
      ghost var y := View();
      var i := 0;
      while i < 13
        invariant 0 <= i <= 13 && View() == Collect(y, d, s, i)
      {
        PositionFits(i);
        var at, u := Start(s) + i, Rd16(d, Position(i));
        ghost var before := name[..];
        if at >= NAME_MAX {
          if u != 0 && u != 0xffff {
            lfn := false;
          }
        } else if u == 0xffff || u == 0 {
          name[at] := 0;
          assert name[..] == before[at := 0];
        } else if u < 32 || u > 126 || u == 47 || u == 92 {
          lfn := false;
        } else {
          name[at] := u;
          assert name[..] == before[at := u];
        }
        i := i + 1;
      }
      expected := if expected == 0 then 0xffff_ffff else expected - 1;
    }

    method Clear()
      modifies name
      requires name.Length == NAME_MAX + 1
      ensures name[..] == Blank()
    {
      var i := 0;
      while i < name.Length
        invariant 0 <= i <= name.Length && forall k :: 0 <= k < i ==> name[k] == 0
      {
        name[i] := 0;
        i := i + 1;
      }
    }
  }

  lemma PositionFits(i: nat)
    requires i < 13
    ensures Position(i) + 2 <= 32
  {
  }

  /** fat_create_locked's loop over the units of one long-name entry. */
  method WriteEntry(name: seq<byte>, sum: byte, s: nat, last: bool) returns (out: seq<byte>)
    requires 1 <= s <= 20
    ensures out == LongEntry(name, sum, s, last)
  {
    hide LongEntry, UnitAt;
    var d := new byte[32](i => 0xff);
    var head: byte := s + if last then 0x40 else 0;
    d[0], d[11], d[12], d[13], d[26], d[27] := head, 0x0f, 0, sum, 0, 0;
    var j := 0;
    while j < 13
      invariant 0 <= j <= 13
      invariant d[0] == head && d[11] == 0x0f && d[12] == 0 && d[13] == sum && d[26] == 0 && d[27] == 0
      invariant forall i :: 0 <= i < j ==> Placed(d[..], name, s, i)
    {
      PositionFits(j);
      var u := UnitAt(name, (s - 1) * 13 + j);
      ghost var before := d[..];
      d[Position(j)] := u % 256;
      d[Position(j) + 1] := u / 256;
      forall i | 0 <= i <= j
        ensures Placed(d[..], name, s, i)
      {
        if i < j {
          assert Placed(before, name, s, i);
          PositionsApart(i, j);
        }
      }
      j := j + 1;
    }
    EntryIs(d[..], name, sum, s, last);
    return d[..];
  }

  /** Unit i of entry s is in place. */
  ghost predicate Placed(d: seq<byte>, name: seq<byte>, s: nat, i: nat)
    requires s >= 1
  {
    var u := UnitAt(name, (s - 1) * 13 + i);
    |d| == 32 && i < 13 && Position(i) + 2 <= 32 && d[Position(i)] == u % 256 && d[Position(i) + 1] == u / 256
  }

  lemma PositionsApart(i: nat, j: nat)
    requires i < j < 13
    ensures Position(i) + 2 <= Position(j)
    ensures forall k :: 0 <= k < 13 ==> Position(k) != 0 && (Position(k) + 1 < 11 || (13 < Position(k) && Position(k) + 1 < 26) || 27 < Position(k))
  {
  }

  lemma EntryIs(d: seq<byte>, name: seq<byte>, sum: byte, s: nat, last: bool)
    requires |d| == 32 && 1 <= s <= 20 && d[0] as int == s + (if last then 0x40 else 0)
    requires d[11] == 0x0f && d[12] == 0 && d[13] == sum && d[26] == 0 && d[27] == 0
    requires forall i :: 0 <= i < 13 ==> Placed(d, name, s, i)
    ensures d == LongEntry(name, sum, s, last)
  {
    hide Rd16, UnitAt;
    var e := LongEntry(name, sum, s, last);
    assert e[0] == d[0] && e[11] == 0x0f && e[12] == 0 && e[13] == sum && e[26] == 0 && e[27] == 0 by {
      HeadBytes(name, sum, s, last);
    }
    forall i | 0 <= i < 13
      ensures Position(i) + 2 <= 32 && d[Position(i)] == e[Position(i)] && d[Position(i) + 1] == e[Position(i) + 1]
    {
      assert Placed(d, name, s, i);
      LongEntryUnit(name, sum, s, last, i);
      SamePair(d, e, Position(i), UnitAt(name, (s - 1) * 13 + i));
    }
    hide LongEntry;
    forall k | 0 <= k < 32
      ensures d[k] == e[k]
    {
      WhichByte(k);
      if k !in {0, 11, 12, 13, 26, 27} {
        var i :| 0 <= i < 13 && (k == Position(i) || k == Position(i) + 1);
      }
    }
  }

  lemma HeadBytes(name: seq<byte>, sum: byte, s: nat, last: bool)
    requires 1 <= s <= 20
    ensures var e := LongEntry(name, sum, s, last);
      e[0] as int == s + (if last then 0x40 else 0) && e[11] == 0x0f && e[12] == 0 && e[13] == sum && e[26] == 0 && e[27] == 0
  {
    hide Units;
  }

  lemma SamePair(d: seq<byte>, e: seq<byte>, p: nat, u: nat)
    requires p + 2 <= |d| == |e| && u < 0x1_0000 && d[p] == u % 256 && d[p + 1] == u / 256 && Rd16(e, p) == u
    ensures d[p] == e[p] && d[p + 1] == e[p + 1]
  {
  }

  lemma WhichByte(k: nat)
    requires k < 32
    ensures k in {0, 11, 12, 13, 26, 27} || exists i :: 0 <= i < 13 && (k == Position(i) || k == Position(i) + 1)
  {
    if 1 <= k < 11 {
      assert k == Position((k - 1) / 2) || k == Position((k - 1) / 2) + 1;
    } else if 14 <= k < 26 {
      assert k == Position((k - 14) / 2 + 5) || k == Position((k - 14) / 2 + 5) + 1;
    } else if 28 <= k {
      assert k == Position((k - 28) / 2 + 11) || k == Position((k - 28) / 2 + 11) + 1;
    }
  }
}
