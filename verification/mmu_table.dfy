/**
 Four-level x86-64 page tables in physical memory: entries, translation, the
 shape of the tree of tables, and why a change to one entry is seen by no
 address whose walk does not use that entry (Intel SDM Vol. 3A, chapter 4).
 */
module PageTable {
  import opened Basics

  /** Bits 12..51 are frame; rest holds the other attribute bits. Bit 7 is large above level 1 and PAT at level 1. */
  datatype Entry = Entry(frame: nat, present: bool, rw: bool, user: bool, large: bool, nx: bool, lazy: bool, rest: nat)

  const ZERO: Entry := Entry(0, false, false, false, false, false, false, 0)

  type Memory = map<nat, seq<Entry>>

  /** An address as its four table indices, topmost first. */
  ghost predicate IsVa(va: seq<nat>) { |va| == 4 && forall i :: 0 <= i < 4 ==> va[i] < 512 }

  /** What an address holds: nothing, a page to be supplied on demand, or a frame with permissions. */
  datatype View =
    | Fault
    | Lazy(entry: Entry)
    | Hit(frame: nat, rw: bool, user: bool, nx: bool, pat: bool, rest: nat)

  /** At depth k (level 4 - k) the entry ends the walk. */
  predicate LeafAt(k: nat, e: Entry) { k >= 3 || ((k == 1 || k == 2) && e.large) }

  function Span(k: nat): nat { if k >= 3 then 1 else if k == 2 then 512 else 0x4_0000 }

  function Low(va: seq<nat>, k: nat): nat
    requires |va| == 4
  {
    if k >= 3 then 0 else if k == 2 then va[3] else va[2] * 512 + va[3]
  }

  function Aligned(f: nat, span: nat): nat
    requires span > 0
  {
    f - f % span
  }

  /** The view a leaf gives; the PAT bit is bit 7 at level 1 and bit 12 above. */
  function Leaf(va: seq<nat>, k: nat, e: Entry): View
    requires |va| == 4
  {
    Hit(Aligned(e.frame, Span(k)) + Low(va, k), e.rw, e.user, e.nx, if k >= 3 then e.large else e.frame % 2 == 1, e.rest)
  }

  /** Permissions of a table entry apply to everything below it. */
  function Under(e: Entry, v: View): View {
    match v
    case Hit(f, rw, user, nx, pat, rest) => Hit(f, e.rw && rw, e.user && user, e.nx || nx, pat, rest)
    case _ => v
  }

  predicate Readable(mem: Memory, page: nat, va: seq<nat>, k: nat) {
    |va| == 4 && k < 4 && page in mem && va[k] < |mem[page]|
  }

  /** Translation from a table at depth k. */
  function Look(mem: Memory, page: nat, va: seq<nat>, k: nat): View
    decreases 4 - k
  {
    if !Readable(mem, page, va, k) then Fault
    else
      var e := mem[page][va[k]];
      if !e.present then (if k == 3 && e.lazy then Lazy(e) else Fault)
      else if LeafAt(k, e) then Leaf(va, k, e)
      else Under(e, Look(mem, e.frame, va, k + 1))
  }

  /** A large leaf maps a block of 512 or 512 * 512 frames, aligned to its size, one after the other. */
  lemma LargeBlock(va: seq<nat>, e: Entry)
    requires IsVa(va)
    ensures var f := Leaf(va, 2, e).frame; f / 512 == e.frame / 512 && f % 512 == va[3]
    ensures var f := Leaf(va, 1, e).frame; f / 0x4_0000 == e.frame / 0x4_0000 && f % 0x4_0000 == va[2] * 512 + va[3]
    ensures Leaf(va, 3, e).frame == e.frame
  {
    BlockAt(e.frame, 512, va[3]);
    BlockAt(e.frame, 0x4_0000, va[2] * 512 + va[3]);
  }

  lemma BlockAt(f: nat, span: nat, low: nat)
    requires low < span
    ensures (Aligned(f, span) + low) / span == f / span && (Aligned(f, span) + low) % span == low
  {
    var q, r := f / span, f % span;
    assert f == q * span + r;
    DivideUnique(q * span + low, span, q, low);
  }

  /** The entries a walk meets. */
  function Met(mem: Memory, page: nat, va: seq<nat>, k: nat): seq<Entry>
    decreases 4 - k
  {
    if !Readable(mem, page, va, k) then []
    else
      var e := mem[page][va[k]];
      [e] + if !e.present || LeafAt(k, e) then [] else Met(mem, e.frame, va, k + 1)
  }

  predicate AllWritable(es: seq<Entry>) { forall i :: 0 <= i < |es| ==> es[i].rw }
  predicate AllUser(es: seq<Entry>) { forall i :: 0 <= i < |es| ==> es[i].user }
  predicate NoneForbids(es: seq<Entry>) { forall i :: 0 <= i < |es| ==> !es[i].nx }

  /** A page may be written, or used by the user, if every entry on the way says so, and run if none forbids it. */
  lemma {:induction false} WalkPermissions(mem: Memory, page: nat, va: seq<nat>, k: nat)
    requires Look(mem, page, va, k).Hit?
    ensures var v, es := Look(mem, page, va, k), Met(mem, page, va, k);
      && es != [] && (forall i :: 0 <= i < |es| ==> es[i].present) && LeafAt(k + |es| - 1, es[|es| - 1])
      && (v.rw <==> AllWritable(es)) && (v.user <==> AllUser(es)) && (!v.nx <==> NoneForbids(es))
      && v.frame == Leaf(va, k + |es| - 1, es[|es| - 1]).frame
    decreases 4 - k
  {
    hide Leaf, Aligned, Low, LeafAt;
    var e := mem[page][va[k]];
    if !LeafAt(k, e) {
      WalkPermissions(mem, e.frame, va, k + 1);
      var es, rest := Met(mem, page, va, k), Met(mem, e.frame, va, k + 1);
      assert es == [e] + rest && forall i :: 1 <= i < |es| ==> es[i] == rest[i - 1];
      FirstAndRest(e, rest);
    } else {
      LeafKeeps(va, k, e);
    }
  }

  lemma LeafKeeps(va: seq<nat>, k: nat, e: Entry)
    requires |va| == 4
    ensures Leaf(va, k, e).Hit? && Leaf(va, k, e).rw == e.rw && Leaf(va, k, e).user == e.user && Leaf(va, k, e).nx == e.nx
  {
  }

  lemma FirstAndRest(e: Entry, rest: seq<Entry>)
    ensures AllWritable([e] + rest) <==> e.rw && AllWritable(rest)
    ensures AllUser([e] + rest) <==> e.user && AllUser(rest)
    ensures NoneForbids([e] + rest) <==> !e.nx && NoneForbids(rest)
  {
    var es := [e] + rest;
    assert es[0] == e && forall i :: 0 <= i < |rest| ==> es[i + 1] == rest[i];
  }

  // ---------------------------------------------------------------- the tree

  type Tree = map<seq<nat>, nat>

  /** Tables are named by their paths; an entry points to a table exactly where the tree has one. */
  ghost predicate Shape(mem: Memory, tree: Tree) {
    && [] in tree
    && (forall p :: p in tree ==> |p| <= 3 && tree[p] in mem && |mem[tree[p]]| == 512)
    && (forall p, q :: p in tree && q in tree && tree[p] == tree[q] ==> p == q)
    && (forall p, i :: p in tree && 0 <= i < 512 ==> Points(mem, tree, p, i))
    && (forall p :: p in tree ==> Rooted(tree, p))
  }

  /** A table other than the topmost hangs below one. */
  ghost predicate Rooted(tree: Tree, p: seq<nat>) { p != [] ==> p[..|p| - 1] in tree && p[|p| - 1] < 512 }

  lemma Parent(mem: Memory, tree: Tree, p: seq<nat>)
    requires Shape(mem, tree) && p in tree && p != []
    ensures p[..|p| - 1] in tree && p[|p| - 1] < 512 && tree[p[..|p| - 1]] in mem && |mem[tree[p[..|p| - 1]]]| == 512
  {
    hide Points;
    assert Rooted(tree, p);
  }

  /** A present entry that does not end the walk is writable, executable, not large, and points to its own table. */
  ghost predicate Points(mem: Memory, tree: Tree, p: seq<nat>, i: nat)
    requires p in tree && tree[p] in mem && i < |mem[tree[p]]|
  {
    var e := mem[tree[p]][i];
    if e.present && !LeafAt(|p|, e) then p + [i] in tree && tree[p + [i]] == e.frame && e.rw && !e.nx && !e.large
    else p + [i] !in tree
  }

  lemma ShapeChild(mem: Memory, tree: Tree, p: seq<nat>, i: nat)
    requires Shape(mem, tree) && p + [i] in tree
    ensures p in tree && i < 512 && |p| <= 2 && tree[p] in mem && |mem[tree[p]]| == 512
    ensures var e := mem[tree[p]][i];
      e.present && !e.large && !LeafAt(|p|, e) && e.frame == tree[p + [i]] && e.rw && !e.nx
  {
    hide Rooted;
    Parent(mem, tree, p + [i]);
    assert (p + [i])[..|p + [i]| - 1] == p && (p + [i])[|p + [i]| - 1] == i;
    assert Points(mem, tree, p, i);
  }

  /** The same entries on the tables of the old tree that a walk can reach. */
  ghost predicate SameAlong(mem: Memory, mem': Memory, tree: Tree, va: seq<nat>, from: nat, to: nat) {
    IsVa(va) && to <= 4 &&
    forall j :: from <= j < to && va[..j] in tree ==>
      && tree[va[..j]] in mem && tree[va[..j]] in mem' && |mem[tree[va[..j]]]| == |mem'[tree[va[..j]]]| == 512
      && mem'[tree[va[..j]]][va[j]] == mem[tree[va[..j]]][va[j]]
  }

  /** A walk that meets the same entries sees the same. */
  lemma {:induction false} LookSame(mem: Memory, mem': Memory, tree: Tree, va: seq<nat>, k: nat, m: nat)
    requires Shape(mem, tree) && k <= m <= 4 && SameAlong(mem, mem', tree, va, k, m) && va[..k] in tree
    requires m < 4 && va[..m] in tree ==> Look(mem', tree[va[..m]], va, m) == Look(mem, tree[va[..m]], va, m)
    ensures Look(mem', tree[va[..k]], va, k) == Look(mem, tree[va[..k]], va, k)
    decreases 4 - k
  {
    hide Leaf, Under, Rooted;
    assert |va[..k]| == k;
    if k < m && k < 4 {
      var page := tree[va[..k]];
      var e := mem[page][va[k]];
      assert mem'[page][va[k]] == e;
      if e.present && !LeafAt(k, e) {
        assert Points(mem, tree, va[..k], va[k]);
        assert va[..k] + [va[k]] == va[..k + 1];
        LookSame(mem, mem', tree, va, k + 1, m);
      }
    } else if k == 4 {
      assert false;
    }
  }

  /** One entry of one table replaced. */
  function Put(mem: Memory, page: nat, i: nat, e: Entry): Memory
    requires page in mem && i < |mem[page]|
  {
    mem[page := mem[page][i := e]]
  }

  /** va's walk uses entry i of the table at p. */
  predicate Through(va: seq<nat>, p: seq<nat>, i: nat) { |p| < |va| && va[..|p|] == p && va[|p|] == i }

  /** A walk that does not use the changed entry meets the same entries. */
  lemma PutElsewhere(mem: Memory, mem': Memory, tree: Tree, p: seq<nat>, i: nat, e: Entry, va: seq<nat>)
    requires Shape(mem, tree) && p in tree && i < 512 && IsVa(va) && !Through(va, p, i)
    requires forall q :: q in tree ==> tree[q] in mem' && mem'[tree[q]] == Put(mem, tree[p], i, e)[tree[q]]
    ensures Look(mem', tree[[]], va, 0) == Look(mem, tree[[]], va, 0)
  {
    hide Look, Rooted, Points;
    assert va[..0] == [];
    forall j | 0 <= j < 4 && va[..j] in tree
      ensures mem'[tree[va[..j]]][va[j]] == mem[tree[va[..j]]][va[j]] && |mem'[tree[va[..j]]]| == 512
    {
      if tree[va[..j]] == tree[p] {
        assert va[..j] == p;
      }
    }
    LookSame(mem, mem', tree, va, 0, 4);
  }

  /** A walk that uses it sees a change only if the view from that table changes. */
  lemma PutThrough(mem: Memory, mem': Memory, tree: Tree, p: seq<nat>, i: nat, e: Entry, va: seq<nat>)
    requires Shape(mem, tree) && p in tree && i < 512 && IsVa(va) && Through(va, p, i)
    requires forall q :: q in tree ==> tree[q] in mem' && mem'[tree[q]] == Put(mem, tree[p], i, e)[tree[q]]
    requires Look(mem', tree[p], va, |p|) == Look(mem, tree[p], va, |p|)
    ensures Look(mem', tree[[]], va, 0) == Look(mem, tree[[]], va, 0)
  {
    hide Look, Rooted, Points;
    assert va[..0] == [];
    forall j | 0 <= j < |p| && va[..j] in tree
      ensures mem'[tree[va[..j]]][va[j]] == mem[tree[va[..j]]][va[j]] && |mem'[tree[va[..j]]]| == 512
    {
      assert |va[..j]| == j && va[..j] != p;
      assert tree[va[..j]] != tree[p];
    }
    LookSame(mem, mem', tree, va, 0, |p|);
  }

  // ---------------------------------------------------------------- changes that keep the tree

  lemma NoGrandchild(mem: Memory, tree: Tree, p: seq<nat>, j: nat)
    requires Shape(mem, tree) && p !in tree
    ensures p + [j] !in tree
  {
    hide Rooted, Points;
    assert (p + [j])[..|p + [j]| - 1] == p;
    if p + [j] in tree {
      Parent(mem, tree, p + [j]);
      assert false;
    }
  }

  /** A leaf or an absent entry replaced by another. */
  lemma PutLeaf(mem: Memory, tree: Tree, p: seq<nat>, i: nat, e: Entry)
    requires Shape(mem, tree) && p in tree && i < 512 && p + [i] !in tree && (e.present ==> LeafAt(|p|, e))
    ensures Shape(Put(mem, tree[p], i, e), tree)
  {
    hide LeafAt, Rooted;
    var mem' := Put(mem, tree[p], i, e);
    forall q, j | q in tree && 0 <= j < 512
      ensures Points(mem', tree, q, j)
    {
      assert Points(mem, tree, q, j);
      if q != p {
        assert tree[q] != tree[p];
      }
    }
  }

  ghost predicate AllLeaves(t: seq<Entry>, k: nat) {
    |t| == 512 && forall j :: 0 <= j < 512 ==> t[j].present ==> LeafAt(k, t[j])
  }

  function TableEntry(page: nat, user: bool): Entry { Entry(page, true, true, user, false, false, false, 0) }

  /** A fresh table hung below an entry that had none. */
  lemma PutTable(mem: Memory, tree: Tree, p: seq<nat>, i: nat, page: nat, user: bool, t: seq<Entry>)
    requires Shape(mem, tree) && p in tree && |p| <= 2 && i < 512 && p + [i] !in tree
    requires page !in tree.Values && AllLeaves(t, |p| + 1)
    ensures Shape(Put(mem, tree[p], i, TableEntry(page, user))[page := t], tree[p + [i] := page])
  {
    var c := p + [i];
    var mem', tree' := Put(mem, tree[p], i, TableEntry(page, user))[page := t], tree[c := page];
    assert !LeafAt(|p|, TableEntry(page, user));
    hide LeafAt, Rooted;
    forall q | q in tree
      ensures tree[q] != page
    {
    }
    forall q, j | q in tree' && 0 <= j < 512
      ensures Points(mem', tree', q, j)
    {
      NoGrandchild(mem, tree, c, j);
      assert c + [j] != c;
      if q == c {
        assert mem'[tree'[q]] == t;
      } else {
        PointsKept(mem, mem', tree, tree', p, i, page, user, q, j);
      }
    }
    forall q | q in tree'
      ensures Rooted(tree', q)
    {
      RootedMore(tree, p, i, page, q);
    }
  }

  lemma RootedMore(tree: Tree, p: seq<nat>, i: nat, page: nat, q: seq<nat>)
    requires p in tree && i < 512 && (q == p + [i] || (q in tree && Rooted(tree, q)))
    ensures Rooted(tree[p + [i] := page], q)
  {
    if q == p + [i] {
      assert q[..|q| - 1] == p;
    }
  }

  lemma SamePath(p: seq<nat>, i: nat, q: seq<nat>, j: nat)
    ensures q + [j] == p + [i] ==> q == p && j == i
  {
    var a, b := q + [j], p + [i];
    assert a[..|a| - 1] == q && b[..|b| - 1] == p && a[|a| - 1] == j && b[|b| - 1] == i;
  }

  lemma PointsKept(mem: Memory, mem': Memory, tree: Tree, tree': Tree, p: seq<nat>, i: nat, page: nat, user: bool, q: seq<nat>, j: nat)
    requires Shape(mem, tree) && p in tree && |p| <= 2 && i < 512 && p + [i] !in tree && page !in tree.Values
    requires tree' == tree[p + [i] := page] && q in tree && j < 512 && tree[q] in mem' && |mem'[tree[q]]| == 512
    requires mem'[tree[q]] == Put(mem, tree[p], i, TableEntry(page, user))[tree[q]]
    requires !LeafAt(|p|, TableEntry(page, user))
    ensures Points(mem', tree', q, j)
  {
    hide LeafAt, Rooted;
    assert Points(mem, tree, q, j);
    if q == p && j == i {
      assert mem'[tree[q]][j] == TableEntry(page, user);
    } else {
      SamePath(p, i, q, j);
      if tree[q] == tree[p] {
        assert q == p;
      }
      assert mem'[tree[q]][j] == mem[tree[q]][j];
    }
  }

  // ---------------------------------------------------------------- the view through the tables of the tree

  /** Every table entry on the way to the table at p admits user access. */
  ghost function PathUser(mem: Memory, tree: Tree, p: seq<nat>): bool
    requires Shape(mem, tree) && p in tree
  {
    if p == [] then true
    else
      var up, i := p[..|p| - 1], p[|p| - 1];
      Parent(mem, tree, p);
      mem[tree[up]][i].user && PathUser(mem, tree, up)
  }

  function Guard(user: bool, v: View): View {
    match v
    case Hit(f, rw, u, nx, pat, rest) => Hit(f, rw, user && u, nx, pat, rest)
    case _ => v
  }

  lemma LookStep(mem: Memory, tree: Tree, va: seq<nat>, k: nat)
    requires Shape(mem, tree) && IsVa(va) && 0 < k <= 3 && va[..k] in tree
    ensures va[..k - 1] in tree && tree[va[..k - 1]] in mem && |mem[tree[va[..k - 1]]]| == 512
    ensures var e := mem[tree[va[..k - 1]]][va[k - 1]];
      && e.rw && !e.nx
      && Look(mem, tree[va[..k - 1]], va, k - 1) == Under(e, Look(mem, tree[va[..k]], va, k))
  {
    hide Leaf, Under, LeafAt, Rooted, Points;
    assert va[..k] == va[..k - 1] + [va[k - 1]];
    ShapeChild(mem, tree, va[..k - 1], va[k - 1]);
  }

  /** Translation is the view from any table on the way, with the user bit of the path. */
  lemma {:induction false} LookDown(mem: Memory, tree: Tree, va: seq<nat>, k: nat)
    requires Shape(mem, tree) && IsVa(va) && k <= 3 && va[..k] in tree
    ensures Look(mem, tree[[]], va, 0) == Guard(PathUser(mem, tree, va[..k]), Look(mem, tree[va[..k]], va, k))
  {
    hide Look, Rooted, Points;
    if k == 0 {
      assert va[..0] == [];
    } else {
      LookStep(mem, tree, va, k);
      LookDown(mem, tree, va, k - 1);
      assert va[..k][..k - 1] == va[..k - 1];
    }
  }

  /** The user bit of a path depends only on the entries that point to its tables. */
  lemma {:induction false} PathUserSame(mem: Memory, mem': Memory, tree: Tree, tree': Tree, p: seq<nat>)
    requires Shape(mem, tree) && Shape(mem', tree') && p in tree
    requires forall q :: q in tree ==> q in tree' && tree'[q] == tree[q]
    requires forall q, j :: q in tree && q + [j] in tree && 0 <= j < 512 ==> mem'[tree[q]][j].user == mem[tree[q]][j].user
    ensures PathUser(mem', tree', p) == PathUser(mem, tree, p)
    decreases |p|
  {
    hide Points, Rooted;
    if p != [] {
      var up, i := p[..|p| - 1], p[|p| - 1];
      assert up + [i] == p;
      Parent(mem, tree, p);
      PathUserSame(mem, mem', tree, tree', up);
    }
  }

  // ---------------------------------------------------------------- splitting a large page

  /** x86_64_pt_child's table for a large entry at depth k: PAT bit 12 goes to bit 12 or, at level 1, to bit 7. */
  function SplitEntry(e: Entry, k: nat, j: nat): Entry {
    var pat := e.frame % 2;
    if k == 1 then e.(frame := Aligned(e.frame, 0x4_0000) + j * 512 + pat)
    else e.(frame := Aligned(e.frame, 512) + j, large := pat == 1)
  }

  lemma AlignedParts(f: nat, j: nat, x: nat)
    requires j < 512 && x < 512
    ensures Aligned(Aligned(f, 0x4_0000) + j * 512 + x, 512) == Aligned(f, 0x4_0000) + j * 512
    ensures (Aligned(f, 0x4_0000) + j * 512 + x) % 2 == x % 2
  {
    var q := f / 0x4_0000;
    AlignedIs(f, 0x4_0000);
    var a := q * 0x4_0000 + j * 512 + x;
    DivideUnique(a, 512, q * 512 + j, x);
    AlignedIs(a, 512);
    DivideUnique(a, 2, (q * 512 + j) * 256 + x / 2, x % 2);
  }

  lemma AlignedIs(f: nat, n: nat)
    requires n > 0
    ensures Aligned(f, n) == (f / n) * n
  {
  }

  /** A split page shows what the large page showed. */
  lemma SplitView(e: Entry, va: seq<nat>, k: nat)
    requires IsVa(va) && (k == 1 || k == 2) && e.present && e.large
    ensures var c := SplitEntry(e, k, va[k + 1]);
      c.present && LeafAt(k + 1, c) && c.user == e.user && Leaf(va, k + 1, c) == Leaf(va, k, e)
  {
    if k == 1 {
      AlignedParts(e.frame, va[2], e.frame % 2);
    }
  }

  // ---------------------------------------------------------------- writing a leaf

  function LeafView(va: seq<nat>, k: nat, e: Entry): View
    requires |va| == 4
  {
    if !e.present then (if k == 3 && e.lazy then Lazy(e) else Fault) else Leaf(va, k, e)
  }

  /** A leaf written below tables that exist: what each address then sees. */
  lemma LeafWritten(mem: Memory, tree: Tree, va: seq<nat>, k: nat, e: Entry, wa: seq<nat>)
    requires Shape(mem, tree) && IsVa(va) && IsVa(wa) && 2 <= k <= 3 && va[..k] in tree && va[..k] + [va[k]] !in tree
    requires e.present ==> LeafAt(k, e)
    ensures var mem' := Put(mem, tree[va[..k]], va[k], e);
      Shape(mem', tree) && PathUser(mem', tree, va[..k]) == PathUser(mem, tree, va[..k])
      && Look(mem', tree[[]], wa, 0) ==
         if Through(wa, va[..k], va[k]) then Guard(PathUser(mem, tree, va[..k]), LeafView(wa, k, e)) else Look(mem, tree[[]], wa, 0)
  {
    hide Leaf, Points, Rooted, Look, LeafView;
    var p := va[..k];
    var mem' := Put(mem, tree[p], va[k], e);
    PutLeaf(mem, tree, p, va[k], e);
    PathUserSame(mem, mem', tree, tree, p);
    if Through(wa, p, va[k]) {
      LookDown(mem', tree, wa, k);
      LookLeaf(mem', tree[p], wa, k, e);
    } else {
      PutElsewhere(mem, mem', tree, p, va[k], e, wa);
    }
  }

  lemma LookLeaf(mem: Memory, page: nat, va: seq<nat>, k: nat, e: Entry)
    requires IsVa(va) && k < 4 && page in mem && |mem[page]| == 512 && mem[page][va[k]] == e && (e.present ==> LeafAt(k, e))
    ensures Look(mem, page, va, k) == LeafView(va, k, e)
  {
    hide Leaf;
  }
}
