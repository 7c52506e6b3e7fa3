/**
 The NTFS run codec: nt_data_attribute writes the run of a new file as a
 non-resident data attribute, ntfs_runs reads any such attribute back.
 */
module NtfsRuns {
  import opened Basics
  import opened LittleEndian
  import opened Extents

  // ---------------------------------------------------------------- ntfs_runs

  datatype Parsed = Failed(error: Error) | Runs(runs: seq<Run>, clusters: nat)

  /** A two's-complement number of n bytes. */
  function Signed(delta: nat, n: nat): int { if 2 * delta >= Pow256(n) then delta - Pow256(n) else delta }

  /** The pairs of the mapping array from at on. */
  function Pairs(a: seq<byte>, at: nat, vcn: nat, lcn: nat, runs: seq<Run>, blocks: nat): Parsed
    decreases |a| - at
  {
    if at >= |a| then Failed(EIO)
    else if a[at] == 0 then Runs(runs, vcn)
    else
      var lb, ob := a[at] as int % 16, a[at] as int / 16;
      if lb == 0 || lb > 8 || ob > 8 || lb + ob > |a| - (at + 1) then Failed(EIO)
      else
        var len := Field(a, at + 1, lb);
        var next := lcn + if ob == 0 then 0 else Signed(Field(a, at + 1 + lb, ob), ob);
        if next < 0 || next > 0x7fff_ffff_ffff_ffff then Failed(EIO)
        else
          var r := Run(vcn, next, len, ob == 0);
          if !Appends(runs, r, blocks) then Failed(EIO)
          else Pairs(a, at + 1 + lb + ob, vcn + len, next, runs + [r], blocks)
  }

  function NtfsRuns(a: seq<byte>, blocks: nat, block: nat): Parsed
    requires block > 0
  {
    if |a| < 64 || a[8] != 1 || Field(a, 16, 8) != 0 || Flags(a) || Field(a, 34, 2) != 0 then Failed(ENOTSUP)
    else
      var at := Field(a, 32, 2);
      if at < 64 || at >= |a| then Failed(EIO)
      else match Pairs(a, at, 0, 0, [], blocks)
           case Failed(e) => Failed(e)
           case Runs(runs, vcn) =>
             if vcn == 0 || vcn > MAX64 / block || Field(a, 24, 8) != vcn - 1 || Field(a, 56, 8) > Field(a, 48, 8)
               || Field(a, 48, 8) > vcn * block then Failed(EIO)
             else Runs(runs, vcn)
  }

  /** Compressed, encrypted or sparse. */
  predicate Flags(a: seq<byte>)
    requires |a| >= 64
  {
    var f := Field(a, 12, 2); f % 2 == 1 || f / 0x4000 % 4 != 0
  }

  /** Whatever the bytes, the runs read are sorted, in range and disjoint. */
  lemma {:induction false} PairsSound(a: seq<byte>, at: nat, vcn: nat, lcn: nat, runs: seq<Run>, blocks: nat)
    requires Sound(runs, blocks)
    ensures Pairs(a, at, vcn, lcn, runs, blocks).Runs? ==> Sound(Pairs(a, at, vcn, lcn, runs, blocks).runs, blocks)
    decreases |a| - at
  {
    hide Signed, Field;
    if at < |a| && a[at] != 0 {
      var lb, ob := a[at] as int % 16, a[at] as int / 16;
      if !(lb == 0 || lb > 8 || ob > 8 || lb + ob > |a| - (at + 1)) {
        var len := Field(a, at + 1, lb);
        var next := lcn + if ob == 0 then 0 else Signed(Field(a, at + 1 + lb, ob), ob);
        if 0 <= next <= 0x7fff_ffff_ffff_ffff {
          var r := Run(vcn, next, len, ob == 0);
          if Appends(runs, r, blocks) {
            assert Sound(runs + [r], blocks);
            PairsSound(a, at + 1 + lb + ob, vcn + len, next, runs + [r], blocks);
          }
        }
      }
    }
  }

  /** The loop of ntfs_runs. */
  method ReadPairs(a: seq<byte>, start: nat, blocks: nat) returns (p: Parsed)
    ensures p == Pairs(a, start, 0, 0, [], blocks)
    ensures p.Runs? ==> Sound(p.runs, blocks)
  {
    hide Signed, Field, Appends, Sound;
    var at, vcn, lcn := start, 0, 0;
    var runs: seq<Run> := [];
    NoRuns(blocks);
    PairsSound(a, start, 0, 0, [], blocks);
    while at < |a| && a[at] != 0
      invariant Sound(runs, blocks) && |runs| <= RUNS && 0 <= lcn <= 0x7fff_ffff_ffff_ffff
      invariant Pairs(a, at, vcn, lcn, runs, blocks) == Pairs(a, start, 0, 0, [], blocks)
      decreases |a| - at
    {
      var lb, ob := a[at] as int % 16, a[at] as int / 16;
      at := at + 1;
      if lb == 0 || lb > 8 || ob > 8 || lb + ob > |a| - at {
        return Failed(EIO);
      }
      var len := Field(a, at, lb);
      at := at + lb;
      var next := lcn;
      if ob != 0 {
        next := lcn + Signed(Field(a, at, ob), ob);
        at := at + ob;
        if next < 0 || next > 0x7fff_ffff_ffff_ffff {
          return Failed(EIO);
        }
      }
      AppendsRoom(runs, Run(vcn, next, len, ob == 0), blocks);
      var e;
      e, runs := RunAdd(runs, Run(vcn, next, len, ob == 0), blocks);
      if e != Ok {
        return Failed(EIO);
      }
      lcn := next;
      vcn := vcn + len;
    }
    if at >= |a| {
      return Failed(EIO);
    }
    return Runs(runs, vcn);
  }

  lemma NoRuns(blocks: nat)
    ensures Sound([], blocks)
  {
  }

  lemma AppendsRoom(runs: seq<Run>, r: Run, blocks: nat)
    ensures Appends(runs, r, blocks) ==> |runs + [r]| <= RUNS
  {
  }

  // ---------------------------------------------------------------- nt_data_attribute

  /** The loops that choose the widths: the fewest bytes for len, and one bit more for lcn. */
  method Widths(len: nat, lcn: nat) returns (lb: nat, ob: nat)
    ensures 1 <= lb <= 8 && (len < Pow256(8) ==> len < Pow256(lb)) && (lb > 1 ==> len >= Pow256(lb - 1))
    ensures 1 <= ob <= 8 && (2 * lcn < Pow256(8) ==> 2 * lcn < Pow256(ob)) && (ob > 1 ==> 2 * lcn >= Pow256(ob - 1))
  {
    hide Pow256;
    lb := 1;
    while lb < 8 && len >= Pow256(lb)
      invariant 1 <= lb <= 8 && (lb > 1 ==> len >= Pow256(lb - 1))
    {
      lb := lb + 1;
    }
    ob := 1;
    while ob < 8 && 2 * lcn >= Pow256(ob)
      invariant 1 <= ob <= 8 && (ob > 1 ==> 2 * lcn >= Pow256(ob - 1))
    {
      ob := ob + 1;
    }
  }

  function Length(lb: nat, ob: nat): nat { (64 + 1 + lb + ob + 1 + 7) / 8 * 8 }

  /** The fixed part of the attribute. */
  function Head(id: nat, len: nat, size: nat, block: nat, bytes: nat): (r: seq<byte>)
    requires len > 0
    ensures |r| == 64
  {
    Le(0x80, 4) + Le(bytes, 4) + [1] + Zeros(5) + Le(id, 2) + Zeros(8) + Le(len - 1, 8) + Le(64, 2) + Zeros(6)
    + Le(len * block, 8) + Le(size, 8) + Le(size, 8)
  }

  function Tail(len: nat, lcn: nat, lb: nat, ob: nat): (r: seq<byte>)
    requires lb <= 8 && ob <= 8
    ensures |r| == 1 + lb + ob
  {
    [(lb + 16 * ob) as byte] + Le(len, lb) + Le(lcn, ob)
  }

  function Attribute(id: nat, len: nat, lcn: nat, size: nat, block: nat, lb: nat, ob: nat): seq<byte>
    requires len > 0 && 1 <= lb <= 8 && 1 <= ob <= 8
  {
    var bytes := Length(lb, ob);
    Head(id, len, size, block, bytes) + Tail(len, lcn, lb, ob) + Zeros(bytes - 65 - lb - ob)
  }

  lemma HeadFields(id: nat, len: nat, size: nat, block: nat, bytes: nat)
    requires 0 < len <= MAX64 && size <= MAX64
    ensures var h := Head(id, len, size, block, bytes);
      && h[8] == 1 && h[12..14] == Zeros(2) && h[16..24] == Zeros(8) && h[24..32] == Le(len - 1, 8)
      && h[32..34] == Le(64, 2) && h[34..36] == Zeros(2) && h[48..56] == Le(size, 8) && h[56..64] == Le(size, 8)
  {
    hide Le;
  }

  lemma AttributeParts(id: nat, len: nat, lcn: nat, size: nat, block: nat, lb: nat, ob: nat)
    requires len > 0 && 1 <= lb <= 8 && 1 <= ob <= 8
    ensures var a := Attribute(id, len, lcn, size, block, lb, ob);
      && |a| == Length(lb, ob) && 66 + lb + ob <= |a|
      && a[..64] == Head(id, len, size, block, Length(lb, ob))
      && a[64] as int == lb + 16 * ob && a[65..65 + lb] == Le(len, lb) && a[65 + lb..65 + lb + ob] == Le(lcn, ob) && a[65 + lb + ob] == 0
  {
    hide Le, Head;
    var a, t := Attribute(id, len, lcn, size, block, lb, ob), Tail(len, lcn, lb, ob);
    var h := Head(id, len, size, block, Length(lb, ob));
    assert a == h + t + Zeros(Length(lb, ob) - 65 - lb - ob);
    assert t[1..1 + lb] == Le(len, lb) && t[1 + lb..1 + lb + ob] == Le(lcn, ob);
    assert a[65..65 + lb] == t[1..1 + lb];
    assert a[65 + lb..65 + lb + ob] == t[1 + lb..1 + lb + ob];
  }

  lemma HeadValues(id: nat, len: nat, size: nat, block: nat, bytes: nat)
    requires 0 < len <= MAX64 && size <= MAX64
    ensures var h := Head(id, len, size, block, bytes);
      && Field(h, 12, 2) == 0 && Field(h, 16, 8) == 0 && Field(h, 24, 8) == len - 1 && Field(h, 32, 2) == 64
      && Field(h, 34, 2) == 0 && Field(h, 48, 8) == size && Field(h, 56, 8) == size
  {
    hide Le, Head, Value, Pow256;
    HeadFields(id, len, size, block, bytes);
    ZeroValue(2);
    ZeroValue(8);
    Powers();
    LeBack(len - 1, 8);
    LeBack(64, 2);
    LeBack(size, 8);
  }

  lemma HeadInside(a: seq<byte>, h: seq<byte>, at: nat, n: nat)
    requires |h| == 64 <= |a| && a[..64] == h && at + n <= 64
    ensures Field(a, at, n) == Field(h, at, n)
  {
    assert a[at..at + n] == a[..64][at..at + n];
  }

  /** The mapping array of the attribute is one run and the end mark. */
  lemma OnePair(a: seq<byte>, len: nat, lcn: nat, lb: nat, ob: nat, blocks: nat)
    requires 1 <= lb <= 8 && 1 <= ob <= 8 && 66 + lb + ob <= |a|
    requires a[64] as int == lb + 16 * ob && a[65..65 + lb] == Le(len, lb) && a[65 + lb..65 + lb + ob] == Le(lcn, ob) && a[65 + lb + ob] == 0
    requires len < Pow256(lb) && 2 * lcn < Pow256(ob) && lcn <= 0x7fff_ffff_ffff_ffff
    requires RunOk(Run(0, lcn, len, false), blocks)
    ensures Pairs(a, 64, 0, 0, [], blocks) == Runs([Run(0, lcn, len, false)], len)
  {
    hide Le, Value, Pow256, Pairs, Field;
    LeBack(len, lb);
    LeBack(lcn, ob);
    Nibbles(lb, ob);
    FieldIs(a, 65, lb);
    FieldIs(a, 65 + lb, ob);
    var r := Run(0, lcn, len, false);
    assert Appends([], r, blocks);
    assert [] + [r] == [r];
    PairsStep(a, 64, 0, 0, [], blocks, lb, ob, len, lcn);
    PairsEnd(a, 65 + lb + ob, len, lcn, [r], blocks);
  }

  lemma Nibbles(lb: nat, ob: nat)
    requires lb < 16
    ensures (lb + 16 * ob) % 16 == lb && (lb + 16 * ob) / 16 == ob
  {
    DivideUnique(lb + 16 * ob, 16, ob, lb);
  }

  lemma FieldIs(a: seq<byte>, at: nat, n: nat)
    requires at + n <= |a|
    ensures Field(a, at, n) == Value(a[at..at + n])
  {
  }

  /** One pair whose run may be appended. */
  lemma PairsStep(a: seq<byte>, at: nat, vcn: nat, lcn: nat, runs: seq<Run>, blocks: nat, lb: nat, ob: nat, len: nat, next: nat)
    requires at < |a| && a[at] != 0 && a[at] as int % 16 == lb && a[at] as int / 16 == ob && 1 <= lb <= 8 && 1 <= ob <= 8
    requires lb + ob <= |a| - (at + 1) && Field(a, at + 1, lb) == len && lcn + Signed(Field(a, at + 1 + lb, ob), ob) == next
    requires next <= 0x7fff_ffff_ffff_ffff && Appends(runs, Run(vcn, next, len, false), blocks)
    ensures Pairs(a, at, vcn, lcn, runs, blocks) == Pairs(a, at + 1 + lb + ob, vcn + len, next, runs + [Run(vcn, next, len, false)], blocks)
  {
    hide Field, Appends, Signed;
  }

  lemma HoleStep(a: seq<byte>, at: nat, vcn: nat, lcn: nat, runs: seq<Run>, blocks: nat, lb: nat, len: nat)
    requires at < |a| && a[at] != 0 && a[at] as int % 16 == lb && a[at] as int / 16 == 0 && 1 <= lb <= 8
    requires lb <= |a| - (at + 1) && Field(a, at + 1, lb) == len && lcn <= 0x7fff_ffff_ffff_ffff
    requires Appends(runs, Run(vcn, lcn, len, true), blocks)
    ensures Pairs(a, at, vcn, lcn, runs, blocks) == Pairs(a, at + 1 + lb, vcn + len, lcn, runs + [Run(vcn, lcn, len, true)], blocks)
  {
    hide Field, Appends, Signed;
  }

  lemma PairsEnd(a: seq<byte>, at: nat, vcn: nat, lcn: nat, runs: seq<Run>, blocks: nat)
    requires at < |a| && a[at] == 0
    ensures Pairs(a, at, vcn, lcn, runs, blocks) == Runs(runs, vcn)
  {
  }

  /** Reading the attribute of a run that is in range and holds the size gives exactly that run. */
  lemma RunRoundTrip(id: nat, len: nat, lcn: nat, size: nat, block: nat, blocks: nat, lb: nat, ob: nat)
    requires block > 0 && RunOk(Run(0, lcn, len, false), blocks) && 0 < size <= len * block <= MAX64 && 2 * lcn < Pow256(8)
    requires 1 <= lb <= 8 && 1 <= ob <= 8 && len < Pow256(lb) && 2 * lcn < Pow256(ob)
    ensures NtfsRuns(Attribute(id, len, lcn, size, block, lb, ob), blocks, block) == Runs([Run(0, lcn, len, false)], len)
  {
    hide Le, Head, Value, Pow256, Attribute, Pairs, Field;
    var a := Attribute(id, len, lcn, size, block, lb, ob);
    var h := Head(id, len, size, block, Length(lb, ob));
    AttributeParts(id, len, lcn, size, block, lb, ob);
    HeadFields(id, len, size, block, Length(lb, ob));
    HeadValues(id, len, size, block, Length(lb, ob));
    assert a[8] == a[..64][8] == 1;
    HeadInside(a, h, 12, 2);
    HeadInside(a, h, 16, 8);
    HeadInside(a, h, 24, 8);
    HeadInside(a, h, 32, 2);
    HeadInside(a, h, 34, 2);
    HeadInside(a, h, 48, 8);
    HeadInside(a, h, 56, 8);
    Powers();
    OnePair(a, len, lcn, lb, ob, blocks);
    WithinLimit(len, block);
  }

  lemma WithinLimit(len: nat, block: nat)
    requires block > 0 && len * block <= MAX64
    ensures len <= MAX64 / block
  {
    var q := MAX64 / block;
    assert MAX64 == q * block + MAX64 % block;
    if len > q {
      Multiples(q + 1, len, block);
      assert false;
    }
  }

  /** nt_data_attribute of a file that is not empty; what it writes, ntfs_runs reads. */
  method DataAttribute(id: nat, len: nat, lcn: nat, size: nat, block: nat, ghost blocks: nat) returns (a: seq<byte>)
    requires len > 0 && block > 0
    ensures RunOk(Run(0, lcn, len, false), blocks) && 0 < size <= len * block <= MAX64 && lcn <= 0x7fff_ffff_ffff_ffff ==>
      NtfsRuns(a, blocks, block) == Runs([Run(0, lcn, len, false)], len)
  {
    hide Attribute, NtfsRuns, Pow256;
    var lb, ob := Widths(len, lcn);
    a := Attribute(id, len, lcn, size, block, lb, ob);
    Powers();
    if RunOk(Run(0, lcn, len, false), blocks) && 0 < size <= len * block <= MAX64 && lcn <= 0x7fff_ffff_ffff_ffff {
      RunRoundTrip(id, len, lcn, size, block, blocks, lb, ob);
    }
  }

  // ---------------------------------------------------------------- any list of runs

  /** A run as it is written: its length, its place unless it is a hole, and the widths of the two fields. */
  datatype Extent = Extent(length: nat, place: Option<nat>, lb: nat, ob: nat)

  /** Two's complement. */
  function Residue(delta: int, n: nat): (r: int) { if delta < 0 then delta + Pow256(n) else delta }

  predicate ExtentFits(x: Extent, lcn: nat) {
    && 1 <= x.lb <= 8 && x.length < Pow256(x.lb)
    && (if x.place.None? then x.ob == 0
        else 1 <= x.ob <= 8 && 0 <= 2 * (x.place.value - lcn) + Pow256(x.ob) && 2 * (x.place.value - lcn) < Pow256(x.ob) && x.place.value <= 0x7fff_ffff_ffff_ffff)
  }

  function After(x: Extent, lcn: nat): nat { if x.place.Some? then x.place.value else lcn }

  predicate AllFit(xs: seq<Extent>, lcn: nat) { xs == [] || (ExtentFits(xs[0], lcn) && AllFit(xs[1..], After(xs[0], lcn))) }

  /** Each place is written as its distance from the one before, forwards or backwards. */
  function EncodedOne(x: Extent, lcn: nat): (b: seq<byte>)
    requires ExtentFits(x, lcn)
    ensures |b| == 1 + x.lb + x.ob
  {
    [x.lb + 16 * x.ob] + Le(x.length, x.lb) + if x.place.None? then [] else Le(Residue(x.place.value - lcn, x.ob), x.ob)
  }

  function Encoded(xs: seq<Extent>, lcn: nat): seq<byte>
    requires AllFit(xs, lcn)
  {
    if xs == [] then [0] else EncodedOne(xs[0], lcn) + Encoded(xs[1..], After(xs[0], lcn))
  }

  function RunOf(x: Extent, vcn: nat, lcn: nat): Run { Run(vcn, After(x, lcn), x.length, x.place.None?) }

  function Laid(xs: seq<Extent>, vcn: nat, lcn: nat): seq<Run> {
    if xs == [] then []
    else [RunOf(xs[0], vcn, lcn)] + Laid(xs[1..], vcn + xs[0].length, After(xs[0], lcn))
  }

  function Total(xs: seq<Extent>): nat { if xs == [] then 0 else xs[0].length + Total(xs[1..]) }

  /** A distance written in two's complement is read as it was, backwards too. */
  lemma SignedBack(delta: int, n: nat)
    requires 0 <= 2 * delta + Pow256(n) && 2 * delta < Pow256(n)
    ensures 0 <= Residue(delta, n) < Pow256(n) && Signed(Residue(delta, n), n) == delta
  {
    hide Pow256;
  }

  lemma SliceOf(a: seq<byte>, at: nat, n: nat, i: nat, j: nat)
    requires at + n <= |a| && i <= j <= n
    ensures a[at + i..at + j] == a[at..at + n][i..j]
  {
    var b := a[at..at + n];
    assert forall k :: 0 <= k < j - i ==> b[i..j][k] == b[i + k] == a[at + (i + k)];
  }

  lemma OneRead(a: seq<byte>, at: nat, x: Extent, vcn: nat, lcn: nat, runs: seq<Run>, blocks: nat)
    requires ExtentFits(x, lcn) && at + 1 + x.lb + x.ob <= |a| && a[at..at + 1 + x.lb + x.ob] == EncodedOne(x, lcn) && lcn <= 0x7fff_ffff_ffff_ffff
    requires Appends(runs, RunOf(x, vcn, lcn), blocks)
    ensures Pairs(a, at, vcn, lcn, runs, blocks)
      == Pairs(a, at + 1 + x.lb + x.ob, vcn + x.length, After(x, lcn), runs + [RunOf(x, vcn, lcn)], blocks)
  {
    hide Le, Value, Pow256, Field, Signed, Residue, Appends, Pairs, EncodedOne;
    OneFields(a, at, x, lcn);
    if x.place.Some? {
      SignedBack(x.place.value - lcn, x.ob);
      PairsStep(a, at, vcn, lcn, runs, blocks, x.lb, x.ob, x.length, x.place.value);
      assert Pairs(a, at, vcn, lcn, runs, blocks) == Pairs(a, at + 1 + x.lb + x.ob, vcn + x.length, After(x, lcn), runs + [RunOf(x, vcn, lcn)], blocks);
    } else {
      HoleStep(a, at, vcn, lcn, runs, blocks, x.lb, x.length);
      assert at + 1 + x.lb + x.ob == at + 1 + x.lb;
      assert Pairs(a, at, vcn, lcn, runs, blocks) == Pairs(a, at + 1 + x.lb + x.ob, vcn + x.length, After(x, lcn), runs + [RunOf(x, vcn, lcn)], blocks);
    }
  }

  lemma OneFields(a: seq<byte>, at: nat, x: Extent, lcn: nat)
    requires ExtentFits(x, lcn) && at + 1 + x.lb + x.ob <= |a| && a[at..at + 1 + x.lb + x.ob] == EncodedOne(x, lcn)
    ensures a[at] != 0 && a[at] as int % 16 == x.lb && a[at] as int / 16 == x.ob && Field(a, at + 1, x.lb) == x.length
    ensures x.place.Some? ==> Field(a, at + 1 + x.lb, x.ob) == Residue(x.place.value - lcn, x.ob)
  {
    hide Le, Value, Pow256, Field, Signed, Residue;
    var b := EncodedOne(x, lcn);
    assert a[at] == b[0];
    Nibbles(x.lb, x.ob);
    SliceOf(a, at, |b|, 1, 1 + x.lb);
    assert b[1..1 + x.lb] == Le(x.length, x.lb);
    LeBack(x.length, x.lb);
    FieldIs(a, at + 1, x.lb);
    if x.place.Some? {
      var delta := x.place.value - lcn;
      SignedBack(delta, x.ob);
      SliceOf(a, at, |b|, 1 + x.lb, |b|);
      assert b[1 + x.lb..|b|] == Le(Residue(delta, x.ob), x.ob);
      LeBack(Residue(delta, x.ob), x.ob);
      FieldIs(a, at + 1 + x.lb, x.ob);
    }
  }

  /** Any list of runs, forwards, backwards or with holes, is read back from its mapping array. */
  lemma {:induction false} PairsRoundTrip(xs: seq<Extent>, a: seq<byte>, at: nat, vcn: nat, lcn: nat, runs: seq<Run>, blocks: nat)
    requires AllFit(xs, lcn) && lcn <= 0x7fff_ffff_ffff_ffff && at <= |a| && Encoded(xs, lcn) <= a[at..]
    requires Sound(runs + Laid(xs, vcn, lcn), blocks) && |runs| + |xs| <= RUNS
    ensures Pairs(a, at, vcn, lcn, runs, blocks) == Runs(runs + Laid(xs, vcn, lcn), vcn + Total(xs))
    decreases |xs|
  {
    hide EncodedOne, Pairs, Sound, Appends;
    if xs == [] {
      assert a[at..][0] == 0;
      PairsEnd(a, at, vcn, lcn, runs, blocks);
      assert runs + [] == runs;
    } else {
      var x, next := xs[0], After(xs[0], lcn);
      var r := RunOf(x, vcn, lcn);
      var rest, n := Laid(xs[1..], vcn + x.length, next), 1 + x.lb + x.ob;
      assert runs + Laid(xs, vcn, lcn) == runs + [r] + rest;
      FirstAppends(runs, r, rest, blocks);
      assert a[at..at + n] == a[at..][..n] == EncodedOne(x, lcn);
      OneRead(a, at, x, vcn, lcn, runs, blocks);
      assert a[at + n..] == a[at..][n..];
      PairsRoundTrip(xs[1..], a, at + n, vcn + x.length, next, runs + [r], blocks);
    }
  }
}
