/**
 The table of datagrams being reassembled: net_reassemble with its lookup,
 expiry and seen-bitmap loops. The log of a place is the fragments its entry
 has taken since it was made.
 */
module ReassemblyTable {
  import opened Basics
  import opened Reassembly

  datatype Key = Key(interface: nat, family: nat, protocol: nat, id: nat, src: seq<byte>, dst: seq<byte>)

  datatype Place = Place(used: bool, key: Key, expires: nat, entry: Entry)

  /** A place after the expiry check. */
  function Expired(p: Place, now: nat): Place { if p.used && p.expires <= now then p.(used := false) else p }

  datatype Event = Ignored | Full | Discarded | Stored | Delivered(bytes: seq<byte>)

  class Reassembler {
    const places: array<Place>
    ghost var log: seq<seq<Frag>>

    /** A used entry holds its log, and no two used entries have the same key. */
    ghost predicate Valid()
      reads this, places
    {
      && |log| == places.Length
      && (forall i :: 0 <= i < places.Length && places[i].used ==> Built(places[i].entry, log[i]))
      && (forall i, j :: 0 <= i < j < places.Length && places[i].used && places[j].used ==> places[i].key != places[j].key)
    }

    /** The expiry check of every place, the place of a key and a free place. */
    method Lookup(key: Key, now: nat) returns (found: Option<nat>, free: Option<nat>)
      requires Valid()
      modifies places
      ensures Valid() && forall i :: 0 <= i < places.Length ==> places[i] == Expired(old(places[i]), now)
      ensures found.Some? ==> found.value < places.Length && places[found.value].used && places[found.value].key == key
      ensures found.None? ==> forall i :: 0 <= i < places.Length && places[i].used ==> places[i].key != key
      ensures free.Some? ==> free.value < places.Length && !places[free.value].used
      ensures free.None? ==> forall i :: 0 <= i < places.Length ==> places[i].used
    {
      hide Built;
      found, free := None, None;
      var i := 0;
      while i < places.Length
        invariant 0 <= i <= places.Length && Valid()
        invariant forall k :: 0 <= k < places.Length ==> places[k] == if k < i then Expired(old(places[k]), now) else old(places[k])
        invariant found.Some? ==> found.value < i && places[found.value].used && places[found.value].key == key
        invariant found.None? ==> forall k :: 0 <= k < i && places[k].used ==> places[k].key != key
        invariant free.Some? ==> free.value < i && !places[free.value].used
        invariant free.None? ==> forall k :: 0 <= k < i ==> places[k].used
      {
        if places[i].used && places[i].expires <= now {
          places[i] := places[i].(used := false);
        }
        if !places[i].used {
          free := Some(i);
        } else if places[i].key == key {
          found := Some(i);
        }
        i := i + 1;
      }
    }

    /** net_reassemble. */
    method Receive(key: Key, x: Frag, now: nat) returns (event: Event, ghost at: nat)
      requires Valid()
      modifies places, this`log
      ensures Valid()
      ensures event != Ignored <==> x.data != [] && x.offset + |x.data| <= 8192 && (x.more ==> |x.data| % 8 == 0)
      // refused for want of a place exactly when the key has none and all are taken
      ensures event == Full <==> event != Ignored && forall i :: 0 <= i < places.Length ==> old(places[i]).used && old(places[i]).expires > now && old(places[i]).key != key
      ensures event in {Ignored, Full} ==> log == old(log)
      ensures event !in {Ignored, Full} ==> at < places.Length && (places[at].used ==> places[at].key == key)
      // the entry of this key, if it had not expired, is the one that takes the fragment
      ensures event !in {Ignored, Full} ==>
        (exists i :: 0 <= i < places.Length && Live(old(places[i]), key, now)) ==> Live(old(places[at]), key, now)
      ensures event !in {Ignored, Full} ==>
        var h := if Live(old(places[at]), key, now) then old(log)[at] else [];
        && (event == Discarded <==> !Fits(h, x))
        && (forall b :: event == Delivered(b) <==> Tiles(h + [x], b))
        && (event == Stored ==> places[at].used && log[at] == h + [x])
        && (event != Stored ==> !places[at].used)
        && (event == Stored ==> places[at].expires == if Live(old(places[at]), key, now) then old(places[at]).expires else now + 30000)
      // no other entry changes, but for the ones that expired
      ensures event != Ignored ==> forall i :: 0 <= i < places.Length && !(event != Full && i == at) ==>
        places[i] == Expired(old(places[i]), now) && log[i] == old(log)[i]
      ensures event == Ignored ==> places[..] == old(places[..])
    {
      hide Built, Tiles, Fits, Add, Acceptable;
      at := 0;
      AcceptableIs(x);
      if !Acceptable(x) {
        return Ignored, at;
      }
      var found, free := Lookup(key, now);
      var i: nat;
      if found.Some? {
        i := found.value;
      } else {
        if free.None? {
          return Full, at;
        }
        i := free.value;
        FreshBuilt();
        places[i] := Place(true, key, now + 30000, Fresh());
        log := log[i := []];
      }
      at := i;
      event := Take(i, x);
    }

    /** The checks, the copy and the completeness test on the entry of a place. */
    method Take(i: nat, x: Frag) returns (event: Event)
      requires Valid() && i < places.Length && places[i].used && Acceptable(x)
      modifies places, this`log
      ensures Valid() && |log| == |old(log)|
      ensures forall k :: 0 <= k < places.Length && k != i ==> places[k] == old(places[k]) && log[k] == old(log)[k]
      ensures places[i].key == old(places[i]).key && places[i].expires == old(places[i]).expires
      ensures event in {Discarded, Stored} || event.Delivered?
      ensures event == Discarded <==> !Fits(old(log)[i], x)
      ensures forall b :: event == Delivered(b) <==> Tiles(old(log)[i] + [x], b)
      ensures event == Stored ==> places[i].used && log[i] == old(log)[i] + [x]
      ensures event != Stored ==> !places[i].used
    {
      hide Built, Tiles, Fits, Copied, Acceptable;
      var p := places[i];
      var e := p.entry;
      BuiltSized(e, log[i]);
      AcceptableEnd(x);
      DropIsMisfit(e, log[i], x);
      forall b
        ensures Add(e, x) == Deliver(b) <==> Tiles(log[i] + [x], b)
      {
        AddDelivers(e, log[i], x, b);
      }
      AddDelivers(e, log[i], x, []);
      if (e.final != 0 && End(x) > e.final) || (!x.more && e.final != 0 && e.final != End(x)) {
        places[i] := p.(used := false);
        return Discarded;
      }
      var clash := Any(e, x.offset, End(x));
      if !clash && !x.more {
        clash := Any(e, End(x), CAPACITY);
      }
      if clash {
        places[i] := p.(used := false);
        return Discarded;
      }
      var c := Copy(e, x);
      var whole := false;
      if c.final != 0 && c.final <= CAPACITY {
        whole := All(c, c.final);
      }
      if whole {
        places[i] := p.(used := false, entry := c);
        return Delivered(c.bytes[..c.final]);
      }
      places[i] := p.(entry := c);
      log := log[i := log[i] + [x]];
      return Stored;
    }
  }

  /** An entry of the key that has not expired. */
  predicate Live(p: Place, key: Key, now: nat) { p.used && p.expires > now && p.key == key }

  lemma BuiltSized(e: Entry, h: seq<Frag>)
    requires Built(e, h)
    ensures Sized(e)
  {
  }

  lemma AcceptableIs(x: Frag)
    ensures Acceptable(x) <==> x.data != [] && x.offset + |x.data| <= 8192 && (x.more ==> |x.data| % 8 == 0)
  {
  }

  lemma AcceptableEnd(x: Frag)
    requires Acceptable(x)
    ensures x.offset < End(x) <= CAPACITY
  {
  }

  method Any(e: Entry, from: nat, to: nat) returns (r: bool)
    requires Sized(e) && to <= CAPACITY
    ensures r == AnySeen(e, from, to)
  {
    var i := from;
    while i < to
      invariant from <= i && (from <= to ==> i <= to) && forall k :: from <= k < i ==> k < CAPACITY && !e.seen[k]
    {
      if e.seen[i] {
        return true;
      }
      i := i + 1;
    }
    return false;
  }

  method All(e: Entry, n: nat) returns (r: bool)
    requires Sized(e) && n <= CAPACITY
    ensures r == AllSeen(e, n)
  {
    var i := 0;
    while i < n
      invariant 0 <= i <= n && forall k :: 0 <= k < i ==> e.seen[k]
    {
      if !e.seen[i] {
        return false;
      }
      i := i + 1;
    }
    return true;
  }

  /** Copy the bytes of a fragment in and mark them. */
  method Copy(e: Entry, x: Frag) returns (c: Entry)
    requires Sized(e) && Acceptable(x)
    ensures c == Copied(e, x)
  {
    var seen, i := e.seen, x.offset;
    while i < End(x)
      invariant x.offset <= i <= End(x) && |seen| == CAPACITY
      invariant forall k :: 0 <= k < CAPACITY ==> seen[k] == (e.seen[k] || x.offset <= k < i)
    {
      seen := seen[i := true];
      i := i + 1;
    }
    assert seen == Copied(e, x).seen;
    return Entry(if x.more then e.final else End(x), e.bytes[..x.offset] + x.data + e.bytes[End(x)..], seen);
  }
}
