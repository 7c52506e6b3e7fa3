/**
 IP reassembly of one datagram: an entry collects the bytes of its fragments.
 It delivers exactly when the fragments tile the datagram, whatever their order
 (section 4.5 of RFC 8200), and gives up exactly when one does not fit.
 */
module Reassembly {
  import opened Basics

  const CAPACITY: nat := 8192

  datatype Frag = Frag(offset: nat, more: bool, data: seq<byte>)

  /** final is 0 until the last fragment is known. */
  datatype Entry = Entry(final: nat, bytes: seq<byte>, seen: seq<bool>)

  datatype Outcome = Keep(entry: Entry) | Drop | Deliver(bytes: seq<byte>)

  function End(x: Frag): nat { x.offset + |x.data| }

  /** The length checks on arrival. */
  predicate Acceptable(x: Frag) {
    |x.data| != 0 && x.offset <= CAPACITY && |x.data| <= CAPACITY - x.offset && (x.more ==> |x.data| % 8 == 0)
  }

  predicate Sized(e: Entry) { |e.bytes| == CAPACITY && |e.seen| == CAPACITY }

  function Fresh(): Entry { Entry(0, seq(CAPACITY, i => 0 as byte), seq(CAPACITY, i => false)) }

  predicate AnySeen(e: Entry, from: nat, to: nat)
    requires Sized(e) && to <= CAPACITY
  {
    exists i :: from <= i < to && e.seen[i]
  }

  predicate AllSeen(e: Entry, n: nat)
    requires Sized(e) && n <= CAPACITY
  {
    forall i :: 0 <= i < n ==> e.seen[i]
  }

  /** The entry with the fragment copied in. */
  function Copied(e: Entry, x: Frag): (r: Entry)
    requires Sized(e) && Acceptable(x)
    ensures Sized(r)
  {
    Entry(if x.more then e.final else End(x),
          e.bytes[..x.offset] + x.data + e.bytes[End(x)..],
          seq(CAPACITY, i requires 0 <= i < CAPACITY => e.seen[i] || x.offset <= i < End(x)))
  }

  /** What becomes of an entry when a fragment arrives. */
  function Add(e: Entry, x: Frag): Outcome
    requires Sized(e) && Acceptable(x)
  {
    if e.final != 0 && End(x) > e.final then Drop
    else if !x.more && e.final != 0 && e.final != End(x) then Drop
    else if AnySeen(e, x.offset, End(x)) then Drop
    else if !x.more && AnySeen(e, End(x), CAPACITY) then Drop
    else
      var c := Copied(e, x);
      if c.final != 0 && c.final <= CAPACITY && AllSeen(c, c.final) then Deliver(c.bytes[..c.final]) else Keep(c)
  }

  // ---------------------------------------------------------------- what an entry stands for

  predicate Covers(x: Frag, i: nat) { x.offset <= i < End(x) }

  predicate Apart(x: Frag, y: Frag) { End(x) <= y.offset || End(y) <= x.offset }

  ghost predicate AllApart(h: seq<Frag>) { forall k, l :: 0 <= k < l < |h| ==> Apart(h[k], h[l]) }

  ghost predicate Covered(h: seq<Frag>, i: nat) { exists k :: 0 <= k < |h| && Covers(h[k], i) }

  /** The last fragment ends the datagram and no other goes beyond it. */
  ghost predicate EndKnown(h: seq<Frag>, final: nat) {
    && (forall k :: 0 <= k < |h| && !h[k].more ==> End(h[k]) == final)
    && (final == 0 ==> forall k :: 0 <= k < |h| ==> h[k].more)
    && (final != 0 ==> (exists k :: 0 <= k < |h| && !h[k].more) && forall k :: 0 <= k < |h| ==> End(h[k]) <= final)
  }

  /** e holds exactly the fragments h. */
  ghost predicate Built(e: Entry, h: seq<Frag>) {
    && Sized(e) && AllApart(h) && EndKnown(h, e.final) && (forall k :: 0 <= k < |h| ==> Acceptable(h[k]))
    && (forall i :: 0 <= i < CAPACITY ==> (e.seen[i] <==> Covered(h, i)))
    && (forall k, i :: 0 <= k < |h| && 0 <= i < |h[k].data| && h[k].offset + i < CAPACITY ==> e.bytes[h[k].offset + i] == h[k].data[i])
  }

  /** x overlaps nothing and agrees with what is known of the end. */
  ghost predicate Fits(h: seq<Frag>, x: Frag) {
    forall k :: 0 <= k < |h| ==>
      Apart(h[k], x) && (!h[k].more ==> End(x) <= End(h[k])) && (!x.more ==> End(h[k]) <= End(x))
  }

  /** The fragments are the datagram b cut into pieces. */
  ghost predicate Tiles(h: seq<Frag>, b: seq<byte>) {
    && 0 < |b| && AllApart(h) && (forall k :: 0 <= k < |h| ==> Piece(h[k], b))
    && (forall i :: 0 <= i < |b| ==> Covered(h, i))
  }

  ghost predicate Piece(x: Frag, b: seq<byte>) {
    Acceptable(x) && End(x) <= |b| && x.data == b[x.offset..End(x)] && (x.more <==> End(x) < |b|)
  }

  lemma FreshBuilt()
    ensures Built(Fresh(), [])
  {
  }

  lemma CoveredMore(h: seq<Frag>, x: Frag, i: nat)
    ensures Covered(h + [x], i) <==> Covered(h, i) || Covers(x, i)
  {
    if Covered(h, i) {
      var k :| 0 <= k < |h| && Covers(h[k], i);
      assert Covers((h + [x])[k], i);
    }
    if Covers(x, i) {
      assert Covers((h + [x])[|h|], i);
    }
  }

  /** The checks against the seen bits are the overlap checks. */
  lemma SeenIsOverlap(e: Entry, h: seq<Frag>, x: Frag)
    requires Built(e, h) && Acceptable(x)
    ensures AnySeen(e, x.offset, End(x)) <==> exists k :: 0 <= k < |h| && !Apart(h[k], x)
    ensures AnySeen(e, End(x), CAPACITY) <==> exists k :: 0 <= k < |h| && End(h[k]) > End(x)
  {
    hide EndKnown, AllApart;
    if AnySeen(e, x.offset, End(x)) {
      var i :| x.offset <= i < End(x) && e.seen[i];
      var k :| 0 <= k < |h| && Covers(h[k], i);
      assert !Apart(h[k], x);
    }
    if k :| 0 <= k < |h| && !Apart(h[k], x) {
      var i := if h[k].offset < x.offset then x.offset else h[k].offset;
      assert Acceptable(h[k]);
      assert Covers(h[k], i);
      assert Covered(h, i) && e.seen[i];
    }
    if AnySeen(e, End(x), CAPACITY) {
      var i :| End(x) <= i < CAPACITY && e.seen[i];
      var k :| 0 <= k < |h| && Covers(h[k], i);
      assert End(h[k]) > End(x);
    }
    if k :| 0 <= k < |h| && End(h[k]) > End(x) {
      var i := End(h[k]) - 1;
      assert Acceptable(h[k]);
      assert Covers(h[k], i);
      assert Covered(h, i) && e.seen[i];
    }
  }

  lemma FitsOne(h: seq<Frag>, x: Frag, k: nat)
    requires Fits(h, x) && k < |h|
    ensures Apart(h[k], x) && (!h[k].more ==> End(x) <= End(h[k])) && (!x.more ==> End(h[k]) <= End(x))
  {
  }

  /** An entry gives up exactly when a fragment does not fit. */
  lemma DropIsMisfit(e: Entry, h: seq<Frag>, x: Frag)
    requires Built(e, h) && Acceptable(x)
    ensures Add(e, x) == Drop <==> !Fits(h, x)
  {
    hide Copied, AnySeen, AllSeen, AllApart;
    SeenIsOverlap(e, h, x);
    if Fits(h, x) {
      if e.final != 0 {
        var k :| 0 <= k < |h| && !h[k].more;
        FitsOne(h, x, k);
      }
    } else {
      var k :| 0 <= k < |h| && !(Apart(h[k], x) && (!h[k].more ==> End(x) <= End(h[k])) && (!x.more ==> End(h[k]) <= End(x)));
      assert Acceptable(h[k]);
      if !h[k].more {
        assert End(h[k]) == e.final;
      }
    }
  }

  lemma CopiedBuilt(e: Entry, h: seq<Frag>, x: Frag)
    requires Built(e, h) && Acceptable(x) && Fits(h, x)
    ensures Built(Copied(e, x), h + [x])
  {
    var c, g := Copied(e, x), h + [x];
    assert AllApart(g) && EndKnown(g, c.final) by {
      CopiedEnd(e, h, x);
    }
    hide EndKnown, AllApart;
    forall i | 0 <= i < CAPACITY
      ensures c.seen[i] <==> Covered(g, i)
    {
      CoveredMore(h, x, i);
    }
    forall k, i | 0 <= k < |g| && 0 <= i < |g[k].data| && g[k].offset + i < CAPACITY
      ensures c.bytes[g[k].offset + i] == g[k].data[i]
    {
      if k < |h| {
        assert Apart(h[k], x);
        assert e.bytes[h[k].offset + i] == h[k].data[i];
      }
    }
  }

  lemma CopiedEnd(e: Entry, h: seq<Frag>, x: Frag)
    requires Built(e, h) && Acceptable(x) && Fits(h, x)
    ensures AllApart(h + [x]) && EndKnown(h + [x], Copied(e, x).final)
  {
    hide Covered;
    var g := h + [x];
    if !x.more {
      assert !g[|h|].more;
      forall k | 0 <= k < |h|
        ensures h[k].more
      {
        assert Acceptable(h[k]);
        FitsOne(h, x, k);
      }
    } else if e.final != 0 {
      var k :| 0 <= k < |h| && !h[k].more;
      assert !g[k].more;
    }
  }

  /** A complete entry holds exactly the datagram that its fragments tile. */
  lemma CompleteTiles(e: Entry, h: seq<Frag>, b: seq<byte>)
    requires Built(e, h)
    ensures (e.final != 0 && e.final <= CAPACITY && AllSeen(e, e.final) && b == e.bytes[..e.final]) <==> Tiles(h, b)
  {
    if e.final != 0 && e.final <= CAPACITY && AllSeen(e, e.final) && b == e.bytes[..e.final] {
      forall k | 0 <= k < |h|
        ensures Piece(h[k], b)
      {
        BuiltPiece(e, h, b, k);
      }
    }
    if Tiles(h, b) {
      TilesEnd(h, b);
      assert e.final == |b|;
      TilesBytes(e, h, b);
    }
  }

  lemma BuiltPiece(e: Entry, h: seq<Frag>, b: seq<byte>, k: nat)
    requires Built(e, h) && k < |h| && e.final != 0 && e.final <= CAPACITY && b == e.bytes[..e.final]
    ensures Piece(h[k], b)
  {
    hide Covered;
    assert Acceptable(h[k]) && End(h[k]) <= e.final;
    forall i | 0 <= i < |h[k].data|
      ensures h[k].data[i] == b[h[k].offset + i]
    {
      assert e.bytes[h[k].offset + i] == h[k].data[i];
    }
    if h[k].more {
      var l :| 0 <= l < |h| && !h[l].more;
      assert Acceptable(h[l]) && End(h[l]) == e.final;
      assert Apart(h[k], h[l]) || Apart(h[l], h[k]);
    }
  }

  /** The piece that holds the last byte says that it is the last. */
  lemma TilesEnd(h: seq<Frag>, b: seq<byte>)
    requires Tiles(h, b)
    ensures exists k :: 0 <= k < |h| && !h[k].more && End(h[k]) == |b|
  {
    assert Covered(h, |b| - 1);
    var k :| 0 <= k < |h| && Covers(h[k], |b| - 1);
    assert Piece(h[k], b);
  }

  lemma TilesBytes(e: Entry, h: seq<Frag>, b: seq<byte>)
    requires Built(e, h) && Tiles(h, b) && e.final == |b|
    ensures |b| <= CAPACITY && AllSeen(e, |b|) && e.bytes[..|b|] == b
  {
    TilesEnd(h, b);
    var last :| 0 <= last < |h| && !h[last].more && End(h[last]) == |b|;
    assert Acceptable(h[last]);
    forall i | 0 <= i < |b|
      ensures e.seen[i] && e.bytes[i] == b[i]
    {
      assert Covered(h, i);
      var k :| 0 <= k < |h| && Covers(h[k], i);
      assert Piece(h[k], b);
      assert e.bytes[h[k].offset + (i - h[k].offset)] == h[k].data[i - h[k].offset];
    }
  }

  /** A fragment completes the datagram exactly when, with those before, it tiles it. */
  lemma AddDelivers(e: Entry, h: seq<Frag>, x: Frag, b: seq<byte>)
    requires Built(e, h) && Acceptable(x)
    ensures Add(e, x) == Deliver(b) <==> Tiles(h + [x], b)
    ensures Add(e, x).Keep? ==> Built(Add(e, x).entry, h + [x])
  {
    hide AnySeen, AllSeen, Copied, EndKnown, AllApart, Covered, Fits, Tiles;
    DropIsMisfit(e, h, x);
    if Fits(h, x) {
      CopiedBuilt(e, h, x);
      CompleteTiles(Copied(e, x), h + [x], b);
    } else if Tiles(h + [x], b) {
      TilesFit(h, x, b);
    }
  }

  lemma TilesFit(h: seq<Frag>, x: Frag, b: seq<byte>)
    requires Tiles(h + [x], b)
    ensures Fits(h, x)
  {
    hide Covered;
    var g := h + [x];
    forall k | 0 <= k < |h|
      ensures Apart(h[k], x) && (!h[k].more ==> End(x) <= End(h[k])) && (!x.more ==> End(h[k]) <= End(x))
    {
      assert g[k] == h[k] && g[|h|] == x;
      assert Piece(g[k], b) && Piece(g[|h|], b) && Apart(g[k], g[|h|]);
    }
  }

  // ---------------------------------------------------------------- a sequence of arrivals

  ghost predicate AllAcceptable(fs: seq<Frag>) { forall k :: 0 <= k < |fs| ==> Acceptable(fs[k]) }

  /** The outcome of the last of the arrivals fs; None when the entry was gone before it. */
  function Feed(fs: seq<Frag>): (r: Option<Outcome>)
    requires forall k :: 0 <= k < |fs| ==> Acceptable(fs[k])
    ensures r.Some? && r.value.Keep? ==> Sized(r.value.entry)
  {
    if fs == [] then Some(Keep(Fresh()))
    else match Feed(fs[..|fs| - 1])
         case Some(Keep(e)) => Some(Add(e, fs[|fs| - 1]))
         case _ => None
  }

  lemma {:induction false} FeedBuilt(fs: seq<Frag>)
    requires AllAcceptable(fs)
    ensures Feed(fs).Some? && Feed(fs).value.Keep? ==> Built(Feed(fs).value.entry, fs)
  {
    hide Add, Built;
    if fs == [] {
      FreshBuilt();
    } else {
      var n := |fs| - 1;
      FeedBuilt(fs[..n]);
      assert fs == fs[..n] + [fs[n]];
      match Feed(fs[..n])
      case Some(Keep(e)) => AddDelivers(e, fs[..n], fs[n], []);
      case _ =>
    }
  }

  /** Arrivals that fit one another keep the entry as long as they are not the whole datagram. */
  lemma {:induction false} PrefixKeeps(h: seq<Frag>, rest: seq<Frag>, b: seq<byte>)
    requires Tiles(h + rest, b) && rest != [] && AllAcceptable(h)
    ensures Feed(h).Some? && Feed(h).value.Keep?
  {
    hide Add, Tiles;
    if h != [] {
      var n := |h| - 1;
      assert h == h[..n] + [h[n]] && h[..n] + ([h[n]] + rest) == h + rest;
      PrefixKeeps(h[..n], [h[n]] + rest, b);
      FeedBuilt(h[..n]);
      var e := Feed(h[..n]).value.entry;
      KeepsNext(e, h[..n], h[n], rest, b);
    }
  }

  lemma KeepsNext(e: Entry, h: seq<Frag>, x: Frag, rest: seq<Frag>, b: seq<byte>)
    requires Built(e, h) && Acceptable(x) && rest != [] && Tiles(h + [x] + rest, b)
    ensures Add(e, x).Keep?
  {
    hide Add, EndKnown, AllApart, Covered, Tiles, Fits;
    DropIsMisfit(e, h, x);
    SomeFit(h, x, rest, b);
    match Add(e, x)
    case Deliver(c) =>
      AddDelivers(e, h, x, c);
      SomeTile(h + [x], rest, b, c);
    case _ =>
  }

  lemma SomeFit(h: seq<Frag>, x: Frag, rest: seq<Frag>, b: seq<byte>)
    requires Tiles(h + [x] + rest, b)
    ensures Fits(h, x)
  {
    hide Covered;
    var g := h + [x] + rest;
    assert g[|h|] == x && Piece(g[|h|], b);
    forall k | 0 <= k < |h|
      ensures Apart(h[k], x) && (!h[k].more ==> End(x) <= End(h[k])) && (!x.more ==> End(h[k]) <= End(x))
    {
      assert g[k] == h[k] && Piece(g[k], b) && Apart(g[k], g[|h|]);
    }
  }

  lemma SomeTile(h: seq<Frag>, rest: seq<Frag>, b: seq<byte>, c: seq<byte>)
    requires Tiles(h + rest, b) && rest != []
    ensures !Tiles(h, c)
  {
    hide Tiles, Covered;
    var g := h + rest;
    var x := rest[0];
    assert g[|h|] == x;
    TilesPiece(g, b, |h|);
    if Tiles(h, c) {
      TilesEnd(h, c);
      var k :| 0 <= k < |h| && !h[k].more && End(h[k]) == |c|;
      assert g[k] == h[k];
      TilesPiece(g, b, k);
      TilesMeet(h, c, g, b, x, |h|);
      assert false;
    }
  }

  lemma TilesPiece(h: seq<Frag>, b: seq<byte>, k: nat)
    requires Tiles(h, b) && k < |h|
    ensures Piece(h[k], b)
  {
  }

  /** A piece that starts inside what the others tile meets one of them. */
  lemma TilesMeet(h: seq<Frag>, c: seq<byte>, g: seq<Frag>, b: seq<byte>, x: Frag, m: nat)
    requires Tiles(h, c) && Tiles(g, b) && h <= g && |h| <= m < |g| && g[m] == x
    ensures |c| <= x.offset
  {
    if x.offset < |c| {
      assert Covered(h, x.offset);
      var l :| 0 <= l < |h| && Covers(h[l], x.offset);
      TilesApart(g, b, l, m);
      assert false;
    }
  }

  lemma TilesApart(h: seq<Frag>, b: seq<byte>, k: nat, l: nat)
    requires Tiles(h, b) && k < l < |h|
    ensures !exists i :: Covers(h[k], i) && Covers(h[l], i)
    ensures Covers(h[l], h[l].offset)
  {
    assert Piece(h[l], b) && Apart(h[k], h[l]);
  }

  /** A datagram is delivered at the last of some arrivals exactly when they tile it. */
  lemma DeliveryIsTiling(fs: seq<Frag>, b: seq<byte>)
    requires AllAcceptable(fs)
    ensures Feed(fs) == Some(Deliver(b)) <==> Tiles(fs, b)
  {
    hide Add, Built, Tiles;
    if fs == [] {
      NothingTiles(b);
      return;
    }
    var n := |fs| - 1;
    assert fs == fs[..n] + [fs[n]];
    FeedBuilt(fs[..n]);
    if Tiles(fs, b) {
      PrefixKeeps(fs[..n], [fs[n]], b);
    }
    match Feed(fs[..n])
    case Some(Keep(e)) => AddDelivers(e, fs[..n], fs[n], b);
    case _ =>
  }

  lemma NothingTiles(b: seq<byte>)
    ensures !Tiles([], b)
  {
    hide Tiles;
    if Tiles([], b) {
      TilesEnd([], b);
      assert false;
    }
  }

  // ---------------------------------------------------------------- order does not matter

  lemma {:induction false} TwoPlaces(s: seq<Frag>, x: Frag)
    requires multiset(s)[x] >= 2
    ensures exists k, l :: 0 <= k < l < |s| && s[k] == x && s[l] == x
  {
    var n := |s| - 1;
    assert s == s[..n] + [s[n]];
    if s[n] == x {
      assert multiset(s[..n])[x] >= 1;
      assert x in s[..n];
      var k :| 0 <= k < n && s[k] == x;
      assert s[k] == x && s[n] == x && k < n;
    } else {
      assert multiset(s[..n])[x] == multiset(s)[x];
      TwoPlaces(s[..n], x);
      var k, l :| 0 <= k < l < n && s[..n][k] == x && s[..n][l] == x;
      assert s[k] == x && s[l] == x;
    }
  }

  lemma TwiceCounted(s: seq<Frag>, k: nat, l: nat)
    requires k < l < |s| && s[k] == s[l]
    ensures multiset(s)[s[k]] >= 2
  {
    assert s == s[..l] + [s[l]] + s[l + 1..];
    assert s[..l][k] in s[..l];
  }

  lemma NoTwins(fs: seq<Frag>, b: seq<byte>)
    requires Tiles(fs, b)
    ensures forall p, q :: 0 <= p < q < |fs| ==> fs[p] != fs[q]
  {
    hide Covered;
    forall p, q | 0 <= p < q < |fs|
      ensures fs[p] != fs[q]
    {
      assert Apart(fs[p], fs[q]) && Piece(fs[p], b) && Piece(fs[q], b);
    }
  }

  lemma TilesPermuted(fs: seq<Frag>, gs: seq<Frag>, b: seq<byte>)
    requires Tiles(fs, b) && multiset(fs) == multiset(gs)
    ensures Tiles(gs, b)
  {
    forall k | 0 <= k < |gs|
      ensures Piece(gs[k], b)
    {
      assert gs[k] in multiset(gs);
      assert gs[k] in fs;
    }
    forall k, l | 0 <= k < l < |gs|
      ensures Apart(gs[k], gs[l])
    {
      assert gs[k] in multiset(gs) && gs[l] in multiset(gs);
      var i :| 0 <= i < |fs| && fs[i] == gs[k];
      var j :| 0 <= j < |fs| && fs[j] == gs[l];
      if gs[k] == gs[l] {
        NoTwins(fs, b);
        TwiceCounted(gs, k, l);
        TwoPlaces(fs, gs[k]);
        assert false;
      } else {
        assert i != j;
      }
    }
    forall i | 0 <= i < |b|
      ensures Covered(gs, i)
    {
      assert Covered(fs, i);
      var k :| 0 <= k < |fs| && Covers(fs[k], i);
      assert fs[k] in multiset(fs);
      assert fs[k] in gs;
      var l :| 0 <= l < |gs| && gs[l] == fs[k];
      assert Covers(gs[l], i);
    }
  }

  /** The same fragments in any order deliver the same datagram, and only at the last arrival. */
  lemma OrderIndependent(fs: seq<Frag>, gs: seq<Frag>, b: seq<byte>)
    requires AllAcceptable(fs) && AllAcceptable(gs) && multiset(fs) == multiset(gs) && Feed(fs) == Some(Deliver(b))
    ensures Feed(gs) == Some(Deliver(b))
    ensures forall n :: 0 <= n < |gs| ==> Feed(gs[..n]).Some? && Feed(gs[..n]).value.Keep?
  {
    hide Add, Tiles, Feed;
    DeliveryIsTiling(fs, b);
    TilesPermuted(fs, gs, b);
    DeliveryIsTiling(gs, b);
    forall n | 0 <= n < |gs|
      ensures Feed(gs[..n]).Some? && Feed(gs[..n]).value.Keep?
    {
      assert gs == gs[..n] + gs[n..];
      PrefixKeeps(gs[..n], gs[n..], b);
    }
  }
}
