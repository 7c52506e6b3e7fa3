/**
 What listing a directory gives: the names of its objects with their places, long names where the
 entries in front of an object spell one. Adding an object puts one name into the list.
 */
module FatListing {
  import opened Basics
  import opened FatDisk
  import opened FatSlots
  import FatNames

  /** The decoder of long names, with its buffer of 256 bytes. */
  type Reading = x: FatNames.Decoder | |x.name| == FatNames.NAME_MAX + 1
    witness FatNames.Decoder(false, 0, 0, seq(256, i => 0 as byte))

  datatype Item = Item(name: seq<byte>, place: Ref)

  datatype Scan = Scan(x: Reading, items: seq<Item>)

  /** The bytes from place i on, up to a blank. */
  function Part(e: seq<byte>, i: nat, n: nat): seq<byte>
    requires i <= n <= |e|
    decreases n - i
  {
    if i == n || e[i] == 32 then [] else [e[i]] + Part(e, i + 1, n)
  }

  /** The name in eight and three characters. */
  function ShortName(e: seq<byte>): seq<byte>
    requires |e| == 32
  {
    FatNames.Text(Part(e, 0, 8) + if e[8] != 32 then [46] + Part(e, 8, 11) else [])
  }

  function NameOf(x: Reading, e: seq<byte>): seq<byte>
    requires |e| == 32
  {
    if FatNames.HasLong(x, e[..11]) then FatNames.Text(x.name) else ShortName(e)
  }

  predicate IsDot(name: seq<byte>) { name == [46] || name == [46, 46] }

  /** The name under which an entry is listed, if it is. */
  function Shows(x: Reading, e: seq<byte>): Option<seq<byte>>
    requires |e| == 32
  {
    if !LiveEntry(e) then None
    else
      var name := NameOf(x, e);
      if IsDot(name) then None else Some(name)
  }

  function After(x: Reading, e: seq<byte>): Reading
    requires |e| == 32
  {
    if e[0] != 0xe5 && e[11] == 0x0f then FatNames.LongStep(x, e) else x.(lfn := false)
  }

  function Begin(): Scan { Scan(FatNames.Decoder(false, 0, 0, FatNames.Blank()), []) }

  function Advance(w: Scan, r: Ref, e: seq<byte>): Scan
    requires |e| == 32
  {
    var name := Shows(w.x, e);
    Scan(After(w.x, e), if name.Some? then w.items + [Item(name.value, r)] else w.items)
  }

  /** Entries, each of 32 bytes. */
  ghost predicate Rows(slots: seq<Ref>, es: seq<seq<byte>>) {
    |es| == |slots| && forall k :: 0 <= k < |es| ==> |es[k]| == 32
  }

  /** The first n entries have been read. */
  ghost function Walk(slots: seq<Ref>, es: seq<seq<byte>>, n: nat): Scan
    requires Rows(slots, es) && n <= |es|
  {
    if n == 0 then Begin() else Advance(Walk(slots, es, n - 1), slots[n - 1], es[n - 1])
  }

  ghost predicate NoEnd(es: seq<seq<byte>>, n: nat)
    requires n <= |es| && forall k :: 0 <= k < |es| ==> |es[k]| == 32
  {
    forall k :: 0 <= k < n ==> es[k][0] != 0
  }

  /** Listing stops at the first end mark among the first n entries, or behind them. */
  ghost function Stop(es: seq<seq<byte>>, n: nat): (m: nat)
    requires n <= |es| && forall k :: 0 <= k < |es| ==> |es[k]| == 32
    ensures m <= n && NoEnd(es, m) && (m < n ==> es[m][0] == 0)
  {
    if n == 0 then 0
    else
      var m := Stop(es, n - 1);
      if m < n - 1 || es[n - 1][0] == 0 then m else n
  }

  ghost function Listing(slots: seq<Ref>, es: seq<seq<byte>>): seq<Item>
    requires Rows(slots, es)
  {
    Walk(slots, es, Stop(es, |es|)).items
  }

  lemma StopIs(es: seq<seq<byte>>, m: nat)
    requires m <= |es| && (forall k :: 0 <= k < |es| ==> |es[k]| == 32) && NoEnd(es, m) && (m == |es| || es[m][0] == 0)
    ensures Stop(es, |es|) == m
  {
    hide Stop;
  }

  lemma {:induction false} WalkSame(slots: seq<Ref>, es: seq<seq<byte>>, slots': seq<Ref>, es': seq<seq<byte>>, n: nat)
    requires Rows(slots, es) && Rows(slots', es') && n <= |es| && n <= |es'|
    requires forall k :: 0 <= k < n ==> es[k] == es'[k] && slots[k] == slots'[k]
    ensures Walk(slots, es, n) == Walk(slots', es', n)
  {
    hide Advance;
    if n > 0 {
      WalkSame(slots, es, slots', es', n - 1);
    }
  }

  /** More entries behind an end mark do not show. */
  lemma ListingLonger(slots: seq<Ref>, es: seq<seq<byte>>, slots': seq<Ref>, es': seq<seq<byte>>)
    requires Rows(slots, es) && Rows(slots', es') && slots <= slots' && es <= es'
    requires |es| < |es'| ==> es'[|es|][0] == 0
    ensures Listing(slots', es') == Listing(slots, es)
  {
    hide Stop, Walk;
    var m := Stop(es, |es|);
    StopIs(es', m);
    WalkSame(slots, es, slots', es', m);
  }

  lemma {:induction false} WalkMore(slots: seq<Ref>, es: seq<seq<byte>>, n: nat, m: nat)
    requires Rows(slots, es) && n <= m <= |es|
    ensures Walk(slots, es, n).items <= Walk(slots, es, m).items
    decreases m
  {
    hide Shows, After;
    if n < m {
      WalkMore(slots, es, n, m - 1);
    }
  }

  /** Entries of objects with the same eleven bytes of name. */
  ghost predicate Renewed(e: seq<byte>, e': seq<byte>) {
    e == e' || (|e| == |e'| == 32 && LiveEntry(e) && LiveEntry(e') && e[..11] == e'[..11])
  }

  lemma {:induction false} PartSame(e: seq<byte>, e': seq<byte>, i: nat, n: nat)
    requires |e| == |e'| == 32 && e[..11] == e'[..11] && i <= n <= 11
    ensures Part(e, i, n) == Part(e', i, n)
    decreases n - i
  {
    if i < n {
      assert e[i] == e[..11][i] == e'[..11][i] == e'[i];
      PartSame(e, e', i + 1, n);
    }
  }

  lemma RenewedStep(w: Scan, r: Ref, e: seq<byte>, e': seq<byte>)
    requires |e| == |e'| == 32 && Renewed(e, e')
    ensures Advance(w, r, e) == Advance(w, r, e') && (e[0] == 0 <==> e'[0] == 0)
  {
    hide FatNames.LongStep, FatNames.Text, FatNames.HasLong, IsDot, Part;
    if e != e' {
      PartSame(e, e', 0, 8);
      PartSame(e, e', 8, 11);
      assert e[8] == e[..11][8] == e'[8];
      LiveHead(e);
      LiveHead(e');
    }
  }

  lemma {:induction false} WalkRenewed(slots: seq<Ref>, es: seq<seq<byte>>, es': seq<seq<byte>>, n: nat)
    requires Rows(slots, es) && Rows(slots, es') && n <= |es| && forall k :: 0 <= k < |es| ==> Renewed(es[k], es'[k])
    ensures Walk(slots, es, n) == Walk(slots, es', n)
  {
    hide Advance, Renewed;
    if n > 0 {
      WalkRenewed(slots, es, es', n - 1);
      RenewedStep(Walk(slots, es, n - 1), slots[n - 1], es[n - 1], es'[n - 1]);
    }
  }

  /** Listing looks at nothing but the names of objects. */
  lemma ListingRenewed(slots: seq<Ref>, es: seq<seq<byte>>, es': seq<seq<byte>>)
    requires Rows(slots, es) && Rows(slots, es') && forall k :: 0 <= k < |es| ==> Renewed(es[k], es'[k])
    ensures Listing(slots, es) == Listing(slots, es')
  {
    hide Walk, Stop, Renewed;
    forall k | 0 <= k < |es|
      ensures es[k][0] == 0 <==> es'[k][0] == 0
    {
      RenewedStep(Begin(), slots[k], es[k], es'[k]);
    }
    var m := Stop(es, |es|);
    StopIs(es', m);
    WalkRenewed(slots, es, es', m);
  }

  // ---------------------------------------------------------------- finding a name

  function Upper(c: byte): byte { if 97 <= c <= 122 then c - 32 else c }

  /** name_equal. */
  predicate SameName(a: seq<byte>, b: seq<byte>) { |a| == |b| && forall i :: 0 <= i < |a| ==> Upper(a[i]) == Upper(b[i]) }

  /** The first object of that name. */
  function Find(items: seq<Item>, name: seq<byte>): Option<Ref> {
    if items == [] then None
    else
      var before := Find(items[..|items| - 1], name);
      if before.Some? then before
      else if SameName(name, items[|items| - 1].name) then Some(items[|items| - 1].place) else None
  }

  lemma FindStep(items: seq<Item>, it: Item, name: seq<byte>)
    ensures Find(items + [it], name) == if Find(items, name).Some? then Find(items, name) else if SameName(name, it.name) then Some(it.place) else None
  {
    assert (items + [it])[..|items|] == items;
  }

  lemma {:induction false} FindPrefix(items: seq<Item>, more: seq<Item>, name: seq<byte>)
    requires items <= more && Find(items, name).Some?
    ensures Find(more, name) == Find(items, name)
    decreases |more|
  {
    if |items| < |more| {
      FindPrefix(items, more[..|more| - 1], name);
    } else {
      assert items == more;
    }
  }

  /** after is before with one item more. */
  ghost predicate Inserted(before: seq<Item>, after: seq<Item>, it: Item, i: nat) {
    i <= |before| && after == before[..i] + [it] + before[i..]
  }

  ghost predicate Adds(before: seq<Item>, after: seq<Item>, it: Item) { exists i: nat :: Inserted(before, after, it, i) }

  lemma InsertedMore(before: seq<Item>, after: seq<Item>, it: Item, i: nat, x: Item)
    requires Inserted(before, after, it, i)
    ensures Inserted(before + [x], after + [x], it, i)
  {
    assert (before + [x])[..i] == before[..i];
    assert (before + [x])[i..] == before[i..] + [x];
  }

  /** A directory is a map from names: adding an object whose name is not there changes it at that name only. */
  lemma {:induction false} FindInserted(before: seq<Item>, after: seq<Item>, it: Item, i: nat, name: seq<byte>)
    requires Inserted(before, after, it, i) && Find(before, it.name).None?
    ensures Find(after, name) == if SameName(name, it.name) then Some(it.place) else Find(before, name)
    decreases |before| - i
  {
    hide SameName;
    if i == |before| {
      assert after == before + [it];
      FindStep(before, it, name);
      if SameName(name, it.name) {
        FindSame(before, name, it.name);
      }
    } else {
      var n := |before| - 1;
      var b, x := before[..n], before[n];
      assert before == b + [x];
      var a := b[..i] + [it] + b[i..];
      InsertedMore(b, a, it, i, x);
      assert after == a + [x];
      FindStep(b, x, it.name);
      FindStep(b, x, name);
      FindStep(a, x, name);
      FindInserted(b, a, it, i, name);
    }
  }

  /** Names that differ in case only find the same object. */
  lemma {:induction false} FindSame(items: seq<Item>, a: seq<byte>, b: seq<byte>)
    requires SameName(a, b)
    ensures Find(items, a) == Find(items, b)
  {
    if items != [] {
      FindSame(items[..|items| - 1], a, b);
      SameJoins(a, b, items[|items| - 1].name);
    }
  }

  lemma SameJoins(a: seq<byte>, b: seq<byte>, c: seq<byte>)
    requires SameName(a, b)
    ensures SameName(a, c) <==> SameName(b, c)
  {
  }

  /** The same letter, but for its case. */
  predicate SameLetter(x: byte, y: byte) {
    x == y || (97 <= x <= 122 && y as int == x - 32) || (97 <= y <= 122 && x as int == y - 32)
  }

  /** Names are the same if they are so letter by letter, in any case. */
  lemma SameNameIs(a: seq<byte>, b: seq<byte>)
    ensures SameName(a, b) <==> |a| == |b| && forall i :: 0 <= i < |a| ==> SameLetter(a[i], b[i])
  {
    if |a| == |b| {
      forall i | 0 <= i < |a|
        ensures Upper(a[i]) == Upper(b[i]) <==> SameLetter(a[i], b[i])
      {
      }
    }
  }

  /** A short entry is listed as its name and, after a dot, its extension. */
  lemma ShortNameReads(e: seq<byte>, base: seq<byte>, ext: seq<byte>)
    requires |e| == 32 && 1 <= |base| <= 8 && |ext| <= 3
    requires forall i :: 0 <= i < 8 ==> e[i] == if i < |base| then base[i] else 32
    requires forall i :: 0 <= i < 3 ==> e[8 + i] == if i < |ext| then ext[i] else 32
    requires (forall i :: 0 <= i < |base| ==> base[i] != 32 && base[i] != 0) && (forall i :: 0 <= i < |ext| ==> ext[i] != 32 && ext[i] != 0)
    ensures ShortName(e) == base + if ext == [] then [] else [46] + ext
  {
    PartReads(e, 0, 0, 8, base);
    PartReads(e, 8, 8, 11, ext);
    var name := base + if ext == [] then [] else [46] + ext;
    assert base[0..] == base && ext[0..] == ext;
    WholeText(name);
  }

  lemma {:induction false} PartReads(e: seq<byte>, from: nat, i: nat, n: nat, text: seq<byte>)
    requires from <= i <= n <= |e| && i - from <= |text| <= n - from
    requires forall k :: from <= k < n ==> e[k] == if k - from < |text| then text[k - from] else 32
    requires forall k :: 0 <= k < |text| ==> text[k] != 32
    ensures Part(e, i, n) == text[i - from..]
    decreases n - i
  {
    if i < n && i - from < |text| {
      PartReads(e, from, i + 1, n, text);
    }
  }

  lemma {:induction false} WholeText(name: seq<byte>)
    requires forall i :: 0 <= i < |name| ==> name[i] != 0
    ensures FatNames.Text(name) == name
  {
    if name != [] {
      WholeText(name[1..]);
    }
  }

  // ---------------------------------------------------------------- what a long name needs

  /** The entries before number k are parts n down to m + 1 of a long name, and x holds their letters. */
  ghost predicate Parts(es: seq<seq<byte>>, k: nat, n: nat, m: nat, x: Reading) {
    && m < n <= 20 && n - m <= k <= |es|
    && forall i :: k - (n - m) <= i < k ==>
         FatNames.LongPart(es[i], m + k - i, i == k - (n - m), x.sum) && FatNames.Spells(x.name, es[i], m + k - i, FatNames.PER_ENTRY)
  }

  /** A reading that goes on has read parts of one name without a gap. */
  lemma {:induction false} ReadParts(slots: seq<Ref>, es: seq<seq<byte>>, k: nat) returns (n: nat)
    requires Rows(slots, es) && k <= |es| && Walk(slots, es, k).x.lfn && Walk(slots, es, k).x.expected != 0xffff_ffff
    ensures Parts(es, k, n, Walk(slots, es, k).x.expected, Walk(slots, es, k).x)
    decreases k
  {
    hide FatNames.LongStep, FatNames.LongPart, FatNames.Spells, Shows;
    var d, x, y := es[k - 1], Walk(slots, es, k - 1).x, Walk(slots, es, k).x;
    assert y == After(x, d);
    FatNames.StepParts(x, d);
    var s := d[0] as int % 32;
    if s <= 20 && FatNames.LongPart(d, s, true, y.sum) {
      n := s;
    } else {
      n := ReadParts(slots, es, k - 1);
      forall i | k - 1 - (n - s) <= i < k - 1
        ensures FatNames.Spells(y.name, es[i], s - 1 + k - i, FatNames.PER_ENTRY)
      {
        FatNames.SpellsOther(x.name, y.name, es[i], s + (k - 1) - i, s);
      }
    }
  }

  /** An entry is listed under a long name only behind all parts of one, in order, with the checksum of its short name. */
  lemma LongNameOnly(slots: seq<Ref>, es: seq<seq<byte>>, k: nat) returns (n: nat)
    requires Rows(slots, es) && k < |es| && FatNames.HasLong(Walk(slots, es, k).x, es[k][..11])
    ensures Parts(es, k, n, 0, Walk(slots, es, k).x) && Walk(slots, es, k).x.sum == FatNames.Checksum(es[k][..11], 11)
  {
    hide Walk, FatNames.Checksum;
    n := ReadParts(slots, es, k);
  }

  // ---------------------------------------------------------------- what an added name does to the list

  /** Readings that go on alike. */
  predicate Alike(x: Reading, y: Reading) { x.lfn == y.lfn && (x.lfn ==> x == y) }

  lemma AlikeStep(x: Reading, y: Reading, e: seq<byte>)
    requires |e| == 32 && Alike(x, y)
    ensures Alike(After(x, e), After(y, e)) && Shows(x, e) == Shows(y, e)
  {
    hide ShortName, FatNames.Collect, FatNames.Text, LiveEntry, IsDot, Rd16, FatNames.Checksum;
  }

  /** Deleted entries show nothing. */
  lemma {:induction false} WalkDeleted(slots: seq<Ref>, es: seq<seq<byte>>, from: nat, n: nat)
    requires Rows(slots, es) && from <= n <= |es| && forall k :: from <= k < n ==> es[k][0] == 0xe5
    ensures Walk(slots, es, n).items == Walk(slots, es, from).items && (from < n ==> !Walk(slots, es, n).x.lfn)
    decreases n
  {
    hide NameOf;
    if from < n {
      WalkDeleted(slots, es, from, n - 1);
    }
  }

  lemma {:induction false} DecodeSnoc(x: Reading, ds: seq<seq<byte>>, d: seq<byte>)
    requires (forall k :: 0 <= k < |ds| ==> |ds[k]| == 32) && |d| == 32
    ensures FatNames.Decode(x, ds + [d]) == FatNames.LongStep(FatNames.Decode(x, ds), d)
    decreases |ds|
  {
    hide FatNames.LongStep;
    var all := ds + [d];
    if ds == [] {
      assert all[0] == d && all[1..] == [];
      assert FatNames.Decode(FatNames.LongStep(x, d), []) == FatNames.LongStep(x, d);
    } else {
      assert all[0] == ds[0] && all[1..] == ds[1..] + [d];
      DecodeSnoc(FatNames.LongStep(x, ds[0]), ds[1..], d);
    }
  }

  /** Entries of a long name are decoded and show nothing. */
  lemma {:induction false} WalkLong(slots: seq<Ref>, es: seq<seq<byte>>, from: nat, longs: seq<seq<byte>>, n: nat)
    requires Rows(slots, es) && n <= |longs| && from + |longs| <= |es|
    requires forall i :: 0 <= i < |longs| ==> |longs[i]| == 32 && longs[i][0] != 0xe5 && longs[i][11] == 0x0f && es[from + i] == longs[i]
    ensures Walk(slots, es, from + n).items == Walk(slots, es, from).items
    ensures Walk(slots, es, from + n).x == FatNames.Decode(Walk(slots, es, from).x, longs[..n])
  {
    hide NameOf, FatNames.LongStep;
    if n == 0 {
      assert longs[..0] == [];
    } else {
      WalkLong(slots, es, from, longs, n - 1);
      assert longs[..n] == longs[..n - 1] + [longs[n - 1]];
      DecodeSnoc(Walk(slots, es, from).x, longs[..n - 1], longs[n - 1]);
      assert es[from + n - 1] == longs[n - 1];
    }
  }

  /** Once the lists differ by one item and the readings are alike, equal entries keep it so. */
  lemma {:induction false} WalkAlike(slots: seq<Ref>, a: seq<seq<byte>>, b: seq<seq<byte>>, from: nat, n: nat, it: Item, i: nat)
    requires Rows(slots, a) && Rows(slots, b) && from <= n <= |slots| && forall k :: from <= k < n ==> a[k] == b[k]
    requires Inserted(Walk(slots, a, from).items, Walk(slots, b, from).items, it, i)
    requires Alike(Walk(slots, a, from).x, Walk(slots, b, from).x)
    ensures Inserted(Walk(slots, a, n).items, Walk(slots, b, n).items, it, i)
    decreases n
    ensures Alike(Walk(slots, a, n).x, Walk(slots, b, n).x)
  {
    hide Shows, After, Alike, Inserted;
    if from < n {
      WalkAlike(slots, a, b, from, n - 1, it, i);
      var x, y := Walk(slots, a, n - 1), Walk(slots, b, n - 1);
      AlikeStep(x.x, y.x, a[n - 1]);
      var name := Shows(x.x, a[n - 1]);
      if name.Some? {
        InsertedMore(x.items, y.items, it, i, Item(name.value, slots[n - 1]));
      }
    }
  }

  /** The entries that spell a name: long-name entries and behind them the entry of the object. */
  ghost predicate Spelled(es: seq<seq<byte>>, base: nat, name: seq<byte>, last: seq<byte>) {
    && FatNames.ValidName(name) && |last| == 32 && LiveEntry(last) && base + FatNames.Entries(|name|) < |es| && FatNames.Entries(|name|) <= 20
    && es[base + FatNames.Entries(|name|)] == last
    && var longs := FatNames.Written(name, FatNames.Checksum(last[..11], 11), FatNames.Entries(|name|), FatNames.Entries(|name|));
       |longs| == FatNames.Entries(|name|) && forall i :: 0 <= i < |longs| ==> es[base + i] == longs[i]
  }

  lemma SpelledWalk(slots: seq<Ref>, es: seq<seq<byte>>, base: nat, name: seq<byte>, last: seq<byte>)
    requires Rows(slots, es) && Spelled(es, base, name, last)
    ensures var n := FatNames.Entries(|name|);
      && Walk(slots, es, base + n + 1).items == Walk(slots, es, base).items + [Item(name, slots[base + n])]
      && !Walk(slots, es, base + n + 1).x.lfn && forall k :: base <= k <= base + n ==> es[k][0] != 0
  {
    hide Walk, LiveEntry, FatNames.Checksum, FatNames.Entries, FatNames.Written, FatNames.Decode, FatNames.ValidName, FatNames.Text;
    var n, sum := FatNames.Entries(|name|), FatNames.Checksum(last[..11], 11);
    var longs := FatNames.Written(name, sum, n, n);
    WrittenHeads(name, sum, n, n);
    var w := Walk(slots, es, base);
    WalkLong(slots, es, base, longs, n);
    assert longs[..n] == longs;
    FatNames.LongNameRoundTrip(w.x, name, last[..11]);
    NoDot(name);
    LiveHead(last);
    WalkStep(slots, es, base + n);
    forall k | base <= k <= base + n
      ensures es[k][0] != 0
    {
      assert k < base + n ==> es[k] == longs[k - base];
    }
  }

  lemma WalkNone(slots: seq<Ref>, es: seq<seq<byte>>)
    requires Rows(slots, es)
    ensures Walk(slots, es, 0) == Begin()
  {
  }

  lemma WalkStep(slots: seq<Ref>, es: seq<seq<byte>>, n: nat)
    requires Rows(slots, es) && n < |es|
    ensures Walk(slots, es, n + 1) == Advance(Walk(slots, es, n), slots[n], es[n])
  {
  }

  lemma LiveHead(e: seq<byte>)
    requires |e| == 32 && LiveEntry(e)
    ensures e[0] != 0 && e[0] != 0xe5 && e[11] != 0x0f
  {
  }

  lemma NoDot(name: seq<byte>)
    requires FatNames.ValidName(name)
    ensures !IsDot(name)
  {
    hide FatNames.Accepted;
  }

  lemma {:induction false} WrittenHeads(name: seq<byte>, sum: byte, s: nat, n: nat)
    requires s <= n <= 20
    ensures var es := FatNames.Written(name, sum, s, n);
      |es| == s && forall i :: 0 <= i < s ==> |es[i]| == 32 && es[i][0] != 0 && es[i][0] != 0xe5 && es[i][11] == 0x0f
  {
    hide FatNames.LongEntry;
    if s > 0 {
      WrittenHeads(name, sum, s - 1, n);
      FatNames.HeadBytes(name, sum, s, s == n);
    }
  }

  /** Deleted entries, or at or behind an end mark. */
  ghost predicate Unused(es: seq<seq<byte>>, base: nat, n: nat)
    requires base + n <= |es| && forall k :: 0 <= k < |es| ==> |es[k]| == 32
  {
    forall k :: base <= k < base + n ==> es[k][0] == 0xe5 || !NoEnd(es, k + 1)
  }

  /** A name spelled in unused places, with an end mark behind it if one was among them, is the one thing that is new. */
  lemma NewListing(slots: seq<Ref>, a: seq<seq<byte>>, b: seq<seq<byte>>, base: nat, name: seq<byte>, last: seq<byte>, end: bool)
    requires Rows(slots, a) && Rows(slots, b) && Spelled(b, base, name, last)
    requires base + FatNames.Entries(|name|) + (if end then 2 else 1) <= |slots| && NoEnd(a, base)
    requires var m := FatNames.Entries(|name|) + if end then 2 else 1;
      Unused(a, base, m) && (end <==> !NoEnd(a, base + m)) && forall k :: 0 <= k < |slots| && !(base <= k < base + m) ==> a[k] == b[k]
    requires end ==> b[base + FatNames.Entries(|name|) + 1][0] == 0
    ensures Adds(Listing(slots, a), Listing(slots, b), Item(name, slots[base + FatNames.Entries(|name|)]))
  {
    hide Walk, Stop, Spelled, Inserted, FatNames.Entries;
    var n := FatNames.Entries(|name|);
    var w, it := Walk(slots, a, base), Item(name, slots[base + n]);
    WalkSame(slots, a, slots, b, base);
    SpelledWalk(slots, b, base, name, last);
    InsertedLast(w.items, it);
    if end {
      var m := Stop(a, |a|);
      assert base <= m < base + n + 2;
      forall k | base <= k < m
        ensures a[k][0] == 0xe5
      {
        assert NoEnd(a, k + 1);
      }
      WalkDeleted(slots, a, base, m);
      StopIs(b, base + n + 1);
      assert Inserted(Listing(slots, a), Listing(slots, b), it, |w.items|);
    } else {
      var from, m := base + n + 1, Stop(a, |a|);
      assert from <= m;
      forall k | base <= k < from
        ensures a[k][0] == 0xe5
      {
        assert NoEnd(a, k + 1);
      }
      WalkDeleted(slots, a, base, from);
      StopIs(b, m);
      WalkAlike(slots, a, b, from, m, it, |w.items|);
      assert Inserted(Listing(slots, a), Listing(slots, b), it, |w.items|);
    }
  }

  lemma InsertedLast(items: seq<Item>, it: Item)
    ensures Inserted(items, items + [it], it, |items|)
  {
    assert items[..|items|] + [it] + items[|items|..] == items + [it];
  }

  // ---------------------------------------------------------------- on the disk

  /** The entry at a place; nothing where there is none. */
  function At(g: Geometry, d: Disk, r: Ref): (e: seq<byte>)
    ensures |e| == 32
  {
    if HasEntry(g, d, r) then EntryBytes(g, d, r) else Zeros(32)
  }

  ghost function View(g: Geometry, d: Disk, slots: seq<Ref>): (es: seq<seq<byte>>)
    ensures Rows(slots, es) && forall k :: 0 <= k < |es| ==> es[k] == At(g, d, slots[k])
  {
    seq(|slots|, k requires 0 <= k < |slots| => At(g, d, slots[k]))
  }

  /** What listing a directory with these places gives. */
  ghost function Directory(g: Geometry, d: Disk, slots: seq<Ref>): seq<Item> { Listing(slots, View(g, d, slots)) }
}
