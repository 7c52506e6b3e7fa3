/**
 What the addresses of an address space see, and how it changes: hanging and
 splitting tables is invisible, writing a leaf is seen by the addresses below
 it only. Counting, write-xor-execute and private frames are properties of the
 views alone.
 */
module AddressViews {
  import opened Basics
  import opened PageTable

  /** Every address sees what it saw before. */
  ghost predicate SameViews(mem: Memory, mem': Memory, root: nat) {
    forall va :: IsVa(va) ==> Look(mem', root, va, 0) == Look(mem, root, va, 0)
  }

  lemma ViewAt(mem: Memory, mem': Memory, root: nat, va: seq<nat>)
    requires SameViews(mem, mem', root) && IsVa(va)
    ensures Look(mem', root, va, 0) == Look(mem, root, va, 0)
  {
    hide Look;
  }

  lemma SameViewsJoin(a: Memory, b: Memory, c: Memory, root: nat)
    requires SameViews(a, b, root) && SameViews(b, c, root)
    ensures SameViews(a, c, root)
  {
    hide Look;
  }

  /** The tree only grew, the entries of its tables that point to tables are the same, and new tables are new pages. */
  ghost predicate Grown(mem: Memory, tree: Tree, pages: set<nat>, mem': Memory, tree': Tree) {
    && (forall q :: q in tree ==> q in tree' && tree'[q] == tree[q] && tree[q] in mem && tree[q] in mem')
    && (forall q :: q in tree' ==> q in tree || tree'[q] !in pages)
    && (forall q, j :: q in tree && q + [j] in tree && 0 <= j < |mem[tree[q]]| && j < |mem'[tree[q]]| ==>
          mem'[tree[q]][j] == mem[tree[q]][j])
  }

  ghost predicate Grew(mem: Memory, tree: Tree, pages: set<nat>, mem': Memory, tree': Tree, pages': set<nat>) {
    Grown(mem, tree, pages, mem', tree') && pages <= pages'
  }

  lemma GrewJoin(m0: Memory, t0: Tree, p0: set<nat>, m1: Memory, t1: Tree, p1: set<nat>, m2: Memory, t2: Tree, p2: set<nat>)
    requires Shape(m0, t0) && Shape(m1, t1) && Shape(m2, t2)
    requires Grew(m0, t0, p0, m1, t1, p1) && Grew(m1, t1, p1, m2, t2, p2)
    ensures Grew(m0, t0, p0, m2, t2, p2)
  {
    hide Points, Rooted;
  }

  lemma GrewNot(mem: Memory, tree: Tree, pages: set<nat>)
    requires Shape(mem, tree)
    ensures Grew(mem, tree, pages, mem, tree, pages) && SameViews(mem, mem, tree[[]])
  {
    hide Look, Points, Rooted;
  }

  /** Memory and tree with a fresh table below entry i of the table at path. */
  function HungMemory(mem: Memory, table: nat, i: nat, page: nat, user: bool, t: seq<Entry>): Memory
    requires table in mem && i < |mem[table]|
  {
    Put(mem, table, i, TableEntry(page, user))[page := t]
  }

  lemma HungSame(mem: Memory, tree: Tree, path: seq<nat>, i: nat, page: nat, user: bool, t: seq<Entry>, q: seq<nat>)
    requires Shape(mem, tree) && path in tree && i < 512 && page !in tree.Values && q in tree
    ensures var mem' := HungMemory(mem, tree[path], i, page, user, t);
      && tree[q] in mem && tree[q] in mem' && mem'[tree[q]] == Put(mem, tree[path], i, TableEntry(page, user))[tree[q]]
      && forall j :: 0 <= j < |mem[tree[q]]| && j < |mem'[tree[q]]| && (q != path || j != i) ==> mem'[tree[q]][j] == mem[tree[q]][j]
  {
    hide Points, Rooted;
    assert tree[q] != page;
    if q != path {
      assert tree[q] != tree[path];
    }
  }

  lemma HungGrown(mem: Memory, tree: Tree, path: seq<nat>, i: nat, page: nat, user: bool, t: seq<Entry>)
    requires Shape(mem, tree) && path in tree && i < 512 && path + [i] !in tree && page !in tree.Values
    ensures Grown(mem, tree, tree.Values, HungMemory(mem, tree[path], i, page, user, t), tree[path + [i] := page])
  {
    hide Points, Rooted;
    var c := path + [i];
    var mem', tree' := HungMemory(mem, tree[path], i, page, user, t), tree[c := page];
    forall q | q in tree
      ensures q in tree' && tree'[q] == tree[q] && tree[q] in mem && tree[q] in mem'
    {
      HungSame(mem, tree, path, i, page, user, t, q);
    }
    forall q, j | q in tree && q + [j] in tree && 0 <= j < |mem[tree[q]]| && j < |mem'[tree[q]]|
      ensures mem'[tree[q]][j] == mem[tree[q]][j]
    {
      HungSame(mem, tree, path, i, page, user, t, q);
    }
  }

  lemma HangTable(mem: Memory, tree: Tree, path: seq<nat>, i: nat, page: nat, user: bool, t: seq<Entry>)
    requires Shape(mem, tree) && path in tree && |path| <= 2 && i < 512 && path + [i] !in tree && page !in tree.Values
    requires AllLeaves(t, |path| + 1)
    requires forall va :: IsVa(va) && Through(va, path, i) ==>
      Look(HungMemory(mem, tree[path], i, page, user, t), tree[path], va, |path|) == Look(mem, tree[path], va, |path|)
    ensures var mem', tree' := HungMemory(mem, tree[path], i, page, user, t), tree[path + [i] := page];
      Shape(mem', tree') && SameViews(mem, mem', tree[[]]) && Grown(mem, tree, tree.Values, mem', tree')
  {
    var mem', tree' := HungMemory(mem, tree[path], i, page, user, t), tree[path + [i] := page];
    PutTable(mem, tree, path, i, page, user, t);
    assert Shape(mem', tree') && [] in tree;
    HungGrown(mem, tree, path, i, page, user, t);
    forall q | q in tree
      ensures tree[q] in mem' && mem'[tree[q]] == Put(mem, tree[path], i, TableEntry(page, user))[tree[q]]
    {
      HungSame(mem, tree, path, i, page, user, t, q);
    }
    hide Look, LeafAt, Shape, Grown, AllLeaves, HungMemory;
    forall va | IsVa(va)
      ensures Look(mem', tree[[]], va, 0) == Look(mem, tree[[]], va, 0)
    {
      if Through(va, path, i) {
        PutThrough(mem, mem', tree, path, i, TableEntry(page, user), va);
      } else {
        PutElsewhere(mem, mem', tree, path, i, TableEntry(page, user), va);
      }
    }
  }

  function EmptyPage(): seq<Entry> { seq(512, j => ZERO) }

  /** Hanging an empty table below an absent entry changes no view. */
  lemma EmptyTable(mem: Memory, tree: Tree, path: seq<nat>, i: nat, page: nat, user: bool)
    requires Shape(mem, tree) && path in tree && |path| <= 2 && i < 512 && !mem[tree[path]][i].present && page !in tree.Values
    ensures var mem', tree' := HungMemory(mem, tree[path], i, page, user, EmptyPage()), tree[path + [i] := page];
      Shape(mem', tree') && SameViews(mem, mem', tree[[]]) && Grown(mem, tree, tree.Values, mem', tree')
  {
    hide Look, SameViews, Grown, Rooted;
    var mem' := HungMemory(mem, tree[path], i, page, user, EmptyPage());
    assert Points(mem, tree, path, i);
    forall va | IsVa(va) && Through(va, path, i)
      ensures Look(mem', tree[path], va, |path|) == Look(mem, tree[path], va, |path|)
    {
      EmptyBelow(mem, mem', path, va, tree[path], page, user);
    }
    HangTable(mem, tree, path, i, page, user, EmptyPage());
  }

  lemma EmptyBelow(mem: Memory, mem': Memory, path: seq<nat>, va: seq<nat>, table: nat, page: nat, user: bool)
    requires IsVa(va) && |path| <= 2 && page in mem' && mem'[page] == EmptyPage()
    requires table in mem && |mem[table]| == 512 && !mem[table][va[|path|]].present
    requires table in mem' && |mem'[table]| == 512 && mem'[table][va[|path|]] == TableEntry(page, user)
    ensures Look(mem, table, va, |path|) == Look(mem', table, va, |path|) == Fault
  {
    assert Look(mem', page, va, |path| + 1) == Fault;
  }

  function SplitTable(e: Entry, k: nat): seq<Entry> { seq(512, j requires 0 <= j < 512 => SplitEntry(e, k, j)) }

  /** Replacing a large page by a table of its parts changes no view. */
  lemma SplitLarge(mem: Memory, tree: Tree, path: seq<nat>, i: nat, page: nat)
    requires Shape(mem, tree) && path in tree && 1 <= |path| <= 2 && i < 512 && page !in tree.Values
    requires mem[tree[path]][i].present && mem[tree[path]][i].large
    ensures var e := mem[tree[path]][i];
      var mem', tree' := HungMemory(mem, tree[path], i, page, e.user, SplitTable(e, |path|)), tree[path + [i] := page];
      Shape(mem', tree') && SameViews(mem, mem', tree[[]]) && Grown(mem, tree, tree.Values, mem', tree')
  {
    hide Look, SameViews, Grown, Rooted;
    var e := mem[tree[path]][i];
    var mem' := HungMemory(mem, tree[path], i, page, e.user, SplitTable(e, |path|));
    assert Points(mem, tree, path, i);
    assert AllLeaves(SplitTable(e, |path|), |path| + 1);
    forall va | IsVa(va) && Through(va, path, i)
      ensures Look(mem', tree[path], va, |path|) == Look(mem, tree[path], va, |path|)
    {
      SplitBelow(mem, mem', path, va, tree[path], page, e);
    }
    HangTable(mem, tree, path, i, page, e.user, SplitTable(e, |path|));
  }

  lemma SplitBelow(mem: Memory, mem': Memory, path: seq<nat>, va: seq<nat>, table: nat, page: nat, e: Entry)
    requires IsVa(va) && 1 <= |path| <= 2 && e.present && e.large
    requires table in mem && |mem[table]| == 512 && mem[table][va[|path|]] == e
    requires page in mem' && mem'[page] == SplitTable(e, |path|)
    requires table in mem' && |mem'[table]| == 512 && mem'[table][va[|path|]] == TableEntry(page, e.user)
    ensures Look(mem', table, va, |path|) == Look(mem, table, va, |path|)
  {
    hide Leaf, SplitEntry;
    SplitView(e, va, |path|);
    var c := SplitEntry(e, |path|, va[|path| + 1]);
    assert mem'[page][va[|path| + 1]] == c;
    assert Look(mem', page, va, |path| + 1) == Leaf(va, |path| + 1, c);
    assert Look(mem, table, va, |path|) == Leaf(va, |path|, e);
    LeafUnder(e, va, |path|, page);
  }

  lemma LeafUnder(e: Entry, va: seq<nat>, k: nat, page: nat)
    requires |va| == 4
    ensures Under(TableEntry(page, e.user), Leaf(va, k, e)) == Leaf(va, k, e)
  {
  }

  lemma GrownFresh(mem: Memory, tree: Tree, pages: set<nat>, mem': Memory, path: seq<nat>, page: nat)
    requires Grown(mem, tree, tree.Values, mem', tree[path := page]) && page !in pages
    ensures Grew(mem, tree, pages, mem', tree[path := page], pages + {page})
  {
  }

  lemma ShapeEntry(mem: Memory, tree: Tree, path: seq<nat>, i: nat)
    requires Shape(mem, tree) && path in tree && i < 512
    ensures [] in tree && tree[path] in mem && |mem[tree[path]]| == 512 && tree[path] in tree.Values
    ensures var e := mem[tree[path]][i];
      if e.present && !LeafAt(|path|, e) then path + [i] in tree && tree[path + [i]] == e.frame else path + [i] !in tree
  {
    hide Rooted;
    assert Points(mem, tree, path, i);
  }

  /** A path keeps its user bit when the tree grows, and the table below adds that of its entry. */
  lemma PathUserGrown(m: Memory, t: Tree, p: set<nat>, m': Memory, t': Tree, p': set<nat>, path: seq<nat>, i: nat)
    requires Shape(m, t) && Shape(m', t') && Grew(m, t, p, m', t', p') && path in t && path + [i] in t'
    ensures path in t' && t'[path] == t[path] && t[path] in m' && |m'[t[path]]| == 512 && i < 512
    ensures PathUser(m', t', path + [i]) == (PathUser(m, t, path) && m'[t[path]][i].user)
  {
    hide Points, Rooted;
    PathUserSame(m, m', t, t', path);
    var q := path + [i];
    Parent(m', t', q);
    assert q[..|q| - 1] == path && q[|q| - 1] == i;
  }

  // ---------------------------------------------------------------- addresses

  const CANON_LIMIT: nat := 0x8000_0000_0000

  /** The four indices of a page number. */
  function Ix(n: nat): seq<nat> { [n / 0x800_0000 % 512, n / 0x4_0000 % 512, n / 512 % 512, n % 512] }

  lemma IxIsVa(n: nat)
    ensures IsVa(Ix(n))
  {
  }

  predicate Canonical(v: nat) { v / 0x8000_0000_0000 == 0 || v / 0x8000_0000_0000 == 0x1_ffff }

  /** The two halves of the 48-bit address space, at the ends of the 64-bit one. */
  lemma CanonicalIs(v: nat)
    requires v < 0x1_0000_0000_0000_0000
    ensures Canonical(v) <==> v < 0x8000_0000_0000 || v >= 0xffff_8000_0000_0000
  {
    var q, r := v / 0x8000_0000_0000, v % 0x8000_0000_0000;
    assert v == q * 0x8000_0000_0000 + r;
  }

  predicate UserAddress(v: nat, kernelSlots: set<nat>) {
    0x1_0000 <= v < CANON_LIMIT && v / 0x80_0000_0000 !in kernelSlots
  }

  /** One address sees x, every other sees what it saw. */
  ghost predicate OneView(mem: Memory, mem': Memory, root: nat, va: seq<nat>, x: View) {
    && Look(mem', root, va, 0) == x
    && forall wa :: IsVa(wa) && wa != va ==> Look(mem', root, wa, 0) == Look(mem, root, wa, 0)
  }

  /** The addresses whose walk uses the entry at depth k on the way to va see e, the others what they saw. */
  ghost predicate Written(mem: Memory, mem': Memory, root: nat, va: seq<nat>, k: nat, user: bool, e: Entry)
    requires IsVa(va) && k <= 3
  {
    forall wa | IsVa(wa) ::
      Look(mem', root, wa, 0) ==
      if Through(wa, va[..k], va[k]) then Guard(user, LeafView(wa, k, e)) else Look(mem, root, wa, 0)
  }

  lemma LeafGrown(mem: Memory, tree: Tree, va: seq<nat>, k: nat, e: Entry, pages: set<nat>)
    requires Shape(mem, tree) && IsVa(va) && k <= 3 && va[..k] in tree && va[..k] + [va[k]] !in tree
    ensures Grew(mem, tree, pages, Put(mem, tree[va[..k]], va[k], e), tree, pages)
  {
    hide Points, Rooted;
    var p := va[..k];
    var mem' := Put(mem, tree[p], va[k], e);
    forall q, j | q in tree && q + [j] in tree && 0 <= j < |mem[tree[q]]| && j < |mem'[tree[q]]|
      ensures mem'[tree[q]][j] == mem[tree[q]][j]
    {
      if tree[q] == tree[p] {
        assert q == p;
      }
    }
  }

  lemma ZeroIsFault(mem: Memory, tree: Tree, va: seq<nat>)
    requires Shape(mem, tree) && IsVa(va) && va[..3] in tree && mem[tree[va[..3]]][va[3]] == ZERO
    ensures Look(mem, tree[[]], va, 0) == Fault
  {
    hide Points, Rooted, PathUser, Leaf;
    LookDown(mem, tree, va, 3);
    assert Look(mem, tree[va[..3]], va, 3) == Fault;
  }

  lemma PathFlag(mem: Memory, tree: Tree, va: seq<nat>)
    requires Shape(mem, tree) && IsVa(va) && va[..3] in tree
    ensures va[..3] + [va[3]] !in tree
  {
    hide Points, Rooted;
    assert |va[..3] + [va[3]]| == 4;
  }

  lemma OneViewFrom(m0: Memory, m1: Memory, m2: Memory, root: nat, va: seq<nat>, user: bool, e: Entry)
    requires SameViews(m0, m1, root) && IsVa(va) && e.present && (e.user ==> user)
    requires Written(m1, m2, root, va, 3, user, e)
    ensures OneView(m0, m2, root, va, Hit(e.frame, e.rw, e.user, e.nx, e.large, e.rest))
  {
    hide Look;
    assert Through(va, va[..3], va[3]);
    forall wa | IsVa(wa) && wa != va
      ensures Look(m2, root, wa, 0) == Look(m0, root, wa, 0)
    {
      SameVa(va, wa);
    }
  }

  /** Base-512 digits determine a page number below 2^36. */
  lemma IxInjective(a: nat, b: nat)
    requires a < 0x10_0000_0000 && b < 0x10_0000_0000 && Ix(a) == Ix(b)
    ensures a == b
  {
    hide Ix;
    IxDigits(a);
    IxDigits(b);
  }

  lemma IxDigits(a: nat)
    requires a < 0x10_0000_0000
    ensures |Ix(a)| == 4 && a == ((Ix(a)[0] * 512 + Ix(a)[1]) * 512 + Ix(a)[2]) * 512 + Ix(a)[3]
  {
    var x, y, z := a / 512, a / 0x4_0000, a / 0x800_0000;
    assert y == x / 512 && z == y / 512 && z < 512;
    assert a == x * 512 + a % 512 && x == y * 512 + x % 512 && y == z * 512 + y % 512;
  }

  /** The canonical addresses with the same indices are on the same page. */
  lemma CanonicalPage(v: nat, w: nat)
    requires v < 0x1_0000_0000_0000_0000 && w < 0x1_0000_0000_0000_0000 && Canonical(v) && Canonical(w)
    requires Ix(v / 4096) == Ix(w / 4096)
    ensures v / 4096 == w / 4096
  {
    CanonicalDigits(v);
    CanonicalDigits(w);
    IxInjective(v / 4096 % 0x10_0000_0000, w / 4096 % 0x10_0000_0000);
  }

  /** Every canonical address on another page than v sees what it saw. */
  ghost predicate OtherPagesKept(mem: Memory, mem': Memory, root: nat, v: nat) {
    forall w: nat :: w < 0x1_0000_0000_0000_0000 && Canonical(w) && w / 4096 != v / 4096 ==>
      Look(mem', root, Ix(w / 4096), 0) == Look(mem, root, Ix(w / 4096), 0)
  }

  /** A change of one index path is a change of one page of addresses. */
  lemma OnePageChanged(mem: Memory, mem': Memory, root: nat, v: nat, x: View)
    requires v < 0x1_0000_0000_0000_0000 && Canonical(v) && OneView(mem, mem', root, Ix(v / 4096), x)
    ensures OtherPagesKept(mem, mem', root, v)
  {
    hide Look, Ix, Canonical;
    forall w: nat | w < 0x1_0000_0000_0000_0000 && Canonical(w) && w / 4096 != v / 4096
      ensures Look(mem', root, Ix(w / 4096), 0) == Look(mem, root, Ix(w / 4096), 0)
    {
      IxIsVa(w / 4096);
      if Ix(w / 4096) == Ix(v / 4096) {
        CanonicalPage(v, w);
        assert false;
      }
    }
  }

  const UPPER: nat := 0xf_fff0_0000_0000

  lemma CanonicalDigits(v: nat)
    requires v < 0x1_0000_0000_0000_0000 && Canonical(v)
    ensures var n := v / 4096 % 0x10_0000_0000;
      Ix(v / 4096) == Ix(n) && v / 4096 == if n < 0x8_0000_0000 then n else n + UPPER
  {
    hide Ix;
    var n := v / 4096;
    if v / 0x8000_0000_0000 == 0 {
      assert n < 0x8_0000_0000;
      assert n % 0x10_0000_0000 == n;
    } else {
      assert 0x1_ffff * 0x8_0000_0000 <= n < 0x2_0000 * 0x8_0000_0000;
      var m := n - UPPER;
      assert n == 0xffff * 0x10_0000_0000 + m && 0 <= m < 0x10_0000_0000;
      assert n % 0x10_0000_0000 == m;
      IxPeriod(m);
    }
  }

  lemma IxPeriod(m: nat)
    ensures Ix(m + UPPER) == Ix(m)
  {
    Shifted(m, 0x800_0000, 0xffff, UPPER);
    Shifted(m, 0x4_0000, 0x1ff_fe00, UPPER);
    Shifted(m, 512, 0x3_fffc_0000, UPPER);
    Shifted(m, 1, 0x7ff_f800_0000, UPPER);
  }

  lemma Shifted(m: nat, unit: nat, h: nat, upper: nat)
    requires unit > 0 && unit * (512 * h) == upper
    ensures (m + upper) / unit % 512 == m / unit % 512
  {
    var q, r := m / unit, m % unit;
    assert m == unit * q + r;
    assert m + upper == unit * (q + 512 * h) + r;
    DivideUnique(m + upper, unit, q + 512 * h, r);
    Remainder(q, h);
  }

  lemma Remainder(q: nat, h: nat)
    ensures (q + 512 * h) % 512 == q % 512
  {
  }

  // ---------------------------------------------------------------- safety of the views

  /** A page that the address space has: resident and open to the user, or promised. */
  predicate Counts(v: View) { v.Lazy? || (v.Hit? && v.user) }

  ghost function AllVas(): set<seq<nat>> {
    set a: nat, b: nat, c: nat, d: nat | a < 512 && b < 512 && c < 512 && d < 512 :: [a, b, c, d]
  }

  lemma VaInAll(va: seq<nat>)
    ensures va in AllVas() <==> IsVa(va)
  {
    if IsVa(va) {
      assert va == [va[0], va[1], va[2], va[3]];
    }
  }

  ghost function Held(mem: Memory, root: nat): set<seq<nat>> {
    set va | va in AllVas() && Counts(Look(mem, root, va, 0))
  }

  /** No user page is writable and executable, and a promised page will not be executable. */
  predicate ViewSafe(v: View) {
    match v
    case Fault => true
    case Lazy(e) => e.user && e.nx && !e.present && e.frame == 0
    case Hit(_, rw, user, nx, _, _) => user && rw ==> nx
  }

  ghost predicate Secure(mem: Memory, root: nat) {
    forall va :: IsVa(va) ==> ViewSafe(Look(mem, root, va, 0))
  }

  predicate UserHit(v: View) { v.Hit? && v.user }

  /** The frames of user pages are in use, are not tables, and are mapped once. */
  ghost predicate Private(mem: Memory, root: nat, tree: Tree, pages: set<nat>) {
    && (forall va :: IsVa(va) && UserHit(Look(mem, root, va, 0)) ==>
          Look(mem, root, va, 0).frame in pages && Look(mem, root, va, 0).frame !in tree.Values)
    && (forall va, wa | IsVa(va) && IsVa(wa) && UserHit(Look(mem, root, va, 0)) && UserHit(Look(mem, root, wa, 0)) ::
          Look(mem, root, va, 0).frame == Look(mem, root, wa, 0).frame ==> va == wa)
  }

  /** Everything an address space promises about its user pages. */
  ghost predicate Safe(mem: Memory, root: nat, tree: Tree, pages: set<nat>) {
    Secure(mem, root) && Private(mem, root, tree, pages)
  }

  lemma SafeSame(mem: Memory, mem': Memory, root: nat, tree: Tree, tree': Tree, pages: set<nat>, pages': set<nat>)
    requires Safe(mem, root, tree, pages) && SameViews(mem, mem', root) && pages <= pages'
    requires forall f :: f in pages ==> f !in tree.Values ==> f !in tree'.Values
    ensures Safe(mem', root, tree', pages')
  {
    hide Look;
  }

  lemma GrownTables(mem: Memory, tree: Tree, pages: set<nat>, mem': Memory, tree': Tree, pages': set<nat>)
    requires Grew(mem, tree, pages, mem', tree', pages') && tree.Values <= pages
    ensures forall f :: f in pages ==> f !in tree.Values ==> f !in tree'.Values
  {
    forall f | f in pages && f !in tree.Values
      ensures f !in tree'.Values
    {
      forall q | q in tree'
        ensures tree'[q] != f
      {
        assert q in tree ==> tree[q] in tree.Values;
      }
    }
  }

  /** One more user page, on a frame that nothing used. */
  lemma SafeMore(mem: Memory, mem': Memory, root: nat, tree: Tree, tree': Tree, pages: set<nat>, pages': set<nat>, va: seq<nat>, x: View)
    requires Safe(mem, root, tree, pages) && OneView(mem, mem', root, va, x) && IsVa(va) && ViewSafe(x)
    requires UserHit(x) ==> x.frame !in pages && x.frame in pages' && x.frame !in tree'.Values
    requires pages <= pages' && forall f :: f in pages ==> f !in tree.Values ==> f !in tree'.Values
    ensures Safe(mem', root, tree', pages')
  {
    hide Look;
  }

  lemma SafeLess(mem: Memory, mem': Memory, root: nat, tree: Tree, pages: set<nat>, va: seq<nat>)
    requires Safe(mem, root, tree, pages) && OneView(mem, mem', root, va, Fault) && IsVa(va)
    requires UserHit(Look(mem, root, va, 0))
    ensures Safe(mem', root, tree, pages - {Look(mem, root, va, 0).frame})
  {
    hide Look;
  }

  // ---------------------------------------------------------------- runs of pages

  ghost predicate InRun(va: seq<nat>, first: nat, n: nat) {
    exists j :: first <= j < first + n && va == Ix(j)
  }

  /** The pages of a run see something new where there was nothing, the others what they saw. */
  ghost predicate RunView(mem: Memory, mem': Memory, root: nat, first: nat, n: nat, kind: View -> bool) {
    && (forall j :: first <= j < first + n ==> kind(Look(mem', root, Ix(j), 0)) && Look(mem, root, Ix(j), 0) == Fault)
    && (forall va :: IsVa(va) && !InRun(va, first, n) ==> Look(mem', root, va, 0) == Look(mem, root, va, 0))
  }

  lemma RunNone(mem: Memory, mem': Memory, root: nat, first: nat, kind: View -> bool)
    ensures RunView(mem, mem', root, first, 0, kind) <==> SameViews(mem, mem', root)
  {
    hide Look;
    assert forall va :: !InRun(va, first, 0);
  }

  lemma RunMore(mem: Memory, m: Memory, mem': Memory, root: nat, first: nat, n: nat, kind: View -> bool, x: View)
    requires RunView(mem, m, root, first, n, kind) && OneView(m, mem', root, Ix(first + n), x) && kind(x)
    requires Look(m, root, Ix(first + n), 0) == Fault && first + n < 0x10_0000_0000
    ensures RunView(mem, mem', root, first, n + 1, kind)
  {
    hide Look, Ix;
    forall j | first <= j < first + n
      ensures Ix(j) != Ix(first + n)
    {
      if Ix(j) == Ix(first + n) {
        IxInjective(j, first + n);
      }
    }
    IxIsVa(first + n);
    forall j | first <= j < first + n + 1
      ensures kind(Look(mem', root, Ix(j), 0)) && Look(mem, root, Ix(j), 0) == Fault
    {
      IxIsVa(j);
    }
    forall va | IsVa(va) && !InRun(va, first, n + 1)
      ensures Look(mem', root, va, 0) == Look(mem, root, va, 0)
    {
      assert va != Ix(first + n);
      assert !InRun(va, first, n);
    }
  }

  /** Clearing the first page of a run leaves the rest of it. */
  /** A run is its first pages and the rest. */
  lemma RunParts(va: seq<nat>, first: nat, n: nat, size: nat)
    ensures InRun(va, first, n + size) <==> InRun(va, first, n) || InRun(va, first + n, size)
  {
    hide Ix;
    if InRun(va, first, n) {
      var j :| first <= j < first + n && va == Ix(j);
      assert first <= j < first + (n + size);
    }
    if InRun(va, first + n, size) {
      var j :| first + n <= j < first + n + size && va == Ix(j);
      assert first <= j < first + (n + size);
    }
    if InRun(va, first, n + size) {
      var j :| first <= j < first + (n + size) && va == Ix(j);
      assert j < first + n || first + n <= j < first + n + size;
    }
  }

  lemma RunOne(va: seq<nat>, first: nat)
    ensures InRun(va, first, 1) ==> va == Ix(first)
  {
    hide Ix;
  }

  lemma RunLess(mem: Memory, m: Memory, mem': Memory, root: nat, first: nat, n: nat, kind: View -> bool)
    requires RunView(mem, m, root, first, n, kind) && n > 0 && OneView(m, mem', root, Ix(first), Fault)
    requires first + n < 0x10_0000_0000
    ensures RunView(mem, mem', root, first + 1, n - 1, kind)
  {
    hide Look, Ix;
    forall j | first < j < first + n
      ensures Ix(j) != Ix(first)
    {
      if Ix(j) == Ix(first) {
        IxInjective(j, first);
      }
    }
    forall j | first + 1 <= j < first + n
      ensures kind(Look(mem', root, Ix(j), 0))
    {
      IxIsVa(j);
    }
    forall va | IsVa(va) && !InRun(va, first + 1, n - 1)
      ensures Look(mem', root, va, 0) == Look(mem, root, va, 0)
    {
      RunParts(va, first, 1, n - 1);
      RunOne(va, first);
    }
  }

  ghost function RunSet(first: nat, n: nat): set<seq<nat>> {
    if n == 0 then {} else RunSet(first, n - 1) + {Ix(first + n - 1)}
  }

  lemma {:induction false} RunSetMembers(first: nat, n: nat, va: seq<nat>)
    ensures va in RunSet(first, n) <==> InRun(va, first, n)
  {
    hide Ix;
    if n > 0 {
      RunSetMembers(first, n - 1, va);
      if va == Ix(first + n - 1) {
        assert InRun(va, first, n);
      } else if InRun(va, first, n) {
        var j :| first <= j < first + n && va == Ix(j);
        assert j < first + (n - 1);
        assert InRun(va, first, n - 1);
      }
    }
  }

  lemma {:induction false} RunSetSize(first: nat, n: nat)
    requires first + n <= 0x10_0000_0000
    ensures |RunSet(first, n)| == n
  {
    hide Ix;
    if n > 0 {
      RunSetSize(first, n - 1);
      RunSetMembers(first, n - 1, Ix(first + n - 1));
      if InRun(Ix(first + n - 1), first, n - 1) {
        var j :| first <= j < first + (n - 1) && Ix(first + n - 1) == Ix(j);
        IxInjective(first + n - 1, j);
      }
    }
  }

  /** A run of pages adds its length to the pages held. */
  lemma HeldRun(mem: Memory, mem': Memory, root: nat, first: nat, n: nat, kind: View -> bool)
    requires RunView(mem, mem', root, first, n, kind) && first + n <= 0x10_0000_0000
    requires forall v :: kind(v) ==> Counts(v)
    ensures |Held(mem', root)| == |Held(mem, root)| + n
  {
    hide Look, Ix, AllVas, Counts;
    RunSetSize(first, n);
    forall va
      ensures va in Held(mem', root) <==> va in Held(mem, root) + RunSet(first, n)
      ensures !(va in Held(mem, root) && va in RunSet(first, n))
    {
      RunSetMembers(first, n, va);
      VaInAll(va);
      NotCounted();
      if InRun(va, first, n) {
        var j :| first <= j < first + n && va == Ix(j);
        IxIsVa(j);
      }
    }
    assert Held(mem', root) == Held(mem, root) + RunSet(first, n);
    assert Held(mem, root) !! RunSet(first, n);
  }

  lemma NotCounted()
    ensures !Counts(Fault)
  {
  }

  lemma HeldSame(mem: Memory, mem': Memory, root: nat)
    requires SameViews(mem, mem', root)
    ensures Held(mem', root) == Held(mem, root)
  {
    hide Look, AllVas;
    forall va
      ensures va in Held(mem', root) <==> va in Held(mem, root)
    {
      VaInAll(va);
    }
  }

  // ---------------------------------------------------------------- undoing a page

  lemma TableOnPath(mem: Memory, tree: Tree, va: seq<nat>, k: nat)
    requires Shape(mem, tree) && IsVa(va) && va[..3] in tree && k < 3 && va[..k] in tree
    ensures va[..k + 1] in tree && tree[va[..k]] in mem && |mem[tree[va[..k]]]| == 512
    ensures mem[tree[va[..k]]][va[k]].frame == tree[va[..k + 1]]
  {
    hide Points, Rooted;
    PathTables(mem, tree, va, 3, k + 1);
    assert va[..k] + [va[k]] == va[..k + 1];
    ShapeChild(mem, tree, va[..k], va[k]);
  }

  lemma {:induction false} PathTables(mem: Memory, tree: Tree, va: seq<nat>, k: nat, j: nat)
    requires Shape(mem, tree) && IsVa(va) && j <= k <= 3 && va[..k] in tree
    ensures va[..j] in tree
    decreases k
  {
    hide Points, Rooted;
    if j < k {
      Parent(mem, tree, va[..k]);
      assert va[..k][..k - 1] == va[..k - 1];
      PathTables(mem, tree, va, k - 1, j);
    }
  }

  /** The frame in a level 1 entry is the one its page shows. */
  lemma LeafFrame(mem: Memory, tree: Tree, va: seq<nat>)
    requires Shape(mem, tree) && IsVa(va) && va[..3] in tree && UserHit(Look(mem, tree[[]], va, 0))
    ensures tree[va[..3]] in mem && |mem[tree[va[..3]]]| == 512
    ensures mem[tree[va[..3]]][va[3]].frame == Look(mem, tree[[]], va, 0).frame
  {
    hide Points, Rooted, PathUser;
    LookDown(mem, tree, va, 3);
    LookLeaf(mem, tree[va[..3]], va, 3, mem[tree[va[..3]]][va[3]]);
  }

  /** An address is its path to the last table and its place there. */
  lemma SameVa(va: seq<nat>, wa: seq<nat>)
    requires IsVa(va) && IsVa(wa)
    ensures Through(wa, va[..3], va[3]) ==> wa == va
  {
    assert wa == wa[..3] + [wa[3]] && va == va[..3] + [va[3]];
  }

  lemma ClearedView(mem: Memory, mem': Memory, root: nat, va: seq<nat>, user: bool)
    requires IsVa(va) && Written(mem, mem', root, va, 3, user, ZERO)
    ensures OneView(mem, mem', root, va, Fault)
  {
    hide Look;
    assert Through(va, va[..3], va[3]);
    forall wa | IsVa(wa) && wa != va
      ensures Look(mem', root, wa, 0) == Look(mem, root, wa, 0)
    {
      SameVa(va, wa);
    }
  }

  lemma SafeFacts(mem: Memory, root: nat, tree: Tree, pages: set<nat>, va: seq<nat>)
    requires Safe(mem, root, tree, pages) && IsVa(va) && UserHit(Look(mem, root, va, 0))
    ensures Look(mem, root, va, 0).frame !in tree.Values && Look(mem, root, va, 0).frame in pages
  {
    hide Look;
  }

  // ---------------------------------------------------------------- steps of a run

  /** A user page with the given permissions. */
  function UserPage(rw: bool, nx: bool): View -> bool {
    (v: View) => v.Hit? && v.user && v.rw == rw && v.nx == nx
  }

  /** The level 1 tables of a run exist. */
  ghost predicate Hung(tree: Tree, first: nat, n: nat) {
    forall j :: first <= j < first + n ==> |Ix(j)| == 4 && Ix(j)[..3] in tree
  }

  lemma HungGrows(mem: Memory, tree: Tree, pages: set<nat>, mem': Memory, tree': Tree, first: nat, n: nat)
    requires Hung(tree, first, n) && Grown(mem, tree, pages, mem', tree')
    ensures Hung(tree', first, n)
  {
    hide Ix;
  }

  lemma HungMore(tree: Tree, first: nat, n: nat)
    requires Hung(tree, first, n) && |Ix(first + n)| == 4 && Ix(first + n)[..3] in tree
    ensures Hung(tree, first, n + 1)
  {
    hide Ix;
  }

  lemma HungAt(tree: Tree, first: nat, n: nat, j: nat)
    requires Hung(tree, first, n) && j < n
    ensures |Ix(first + j)| == 4 && Ix(first + j)[..3] in tree
  {
    hide Ix;
  }

  lemma RunSame(mem: Memory, m: Memory, mem': Memory, root: nat, first: nat, n: nat, kind: View -> bool)
    requires RunView(mem, m, root, first, n, kind) && SameViews(m, mem', root)
    ensures RunView(mem, mem', root, first, n, kind)
  {
    hide Look, Ix, InRun;
    forall j | first <= j < first + n
      ensures kind(Look(mem', root, Ix(j), 0))
    {
      IxIsVa(j);
    }
  }

  lemma RunHead(mem: Memory, mem': Memory, root: nat, first: nat, n: nat, rw: bool, nx: bool)
    requires RunView(mem, mem', root, first, n, UserPage(rw, nx)) && n > 0
    ensures UserHit(Look(mem', root, Ix(first), 0))
  {
    hide Look, Ix;
  }

  lemma GrownLess(mem: Memory, tree: Tree, pages: set<nat>, more: set<nat>, mem': Memory, tree': Tree, pages': set<nat>)
    requires Grew(mem, tree, more, mem', tree', pages') && pages <= more && tree.Values <= pages
    ensures Grown(mem, tree, pages, mem', tree')
    ensures forall f :: f in more ==> f !in tree.Values ==> f !in tree'.Values
    ensures pages <= pages' && more <= pages'
  {
    GrownTables(mem, tree, more, mem', tree', pages');
  }

  lemma SafeWider(mem: Memory, root: nat, tree: Tree, pages: set<nat>, pages': set<nat>)
    requires Safe(mem, root, tree, pages) && pages <= pages'
    ensures Safe(mem, root, tree, pages')
  {
    hide Look;
  }

  lemma PathUserTop(mem: Memory, tree: Tree)
    requires Shape(mem, tree)
    ensures [] in tree && PathUser(mem, tree, [])
  {
  }

  /** Every part of a user path is a user path. */
  lemma {:induction false} OnUserPath(mem: Memory, tree: Tree, va: seq<nat>, depth: nat, k: nat)
    requires Shape(mem, tree) && IsVa(va) && k <= depth <= 3 && va[..depth] in tree && PathUser(mem, tree, va[..depth])
    ensures va[..k] in tree && PathUser(mem, tree, va[..k])
    decreases depth
  {
    hide Points, Rooted;
    if k < depth {
      assert va[..depth][..depth - 1] == va[..depth - 1];
      Parent(mem, tree, va[..depth]);
      OnUserPath(mem, tree, va, depth - 1, k);
    }
  }

  lemma UserStep(mem: Memory, tree: Tree, va: seq<nat>, k: nat)
    requires Shape(mem, tree) && IsVa(va) && k < 3 && va[..k + 1] in tree
    ensures va[..k] in tree && tree[va[..k]] in mem && |mem[tree[va[..k]]]| == 512
    ensures var e := mem[tree[va[..k]]][va[k]];
      e.present && !e.large && (PathUser(mem, tree, va[..k + 1]) ==> e.user)
  {
    hide Points, Rooted;
    assert va[..k + 1] == va[..k] + [va[k]] && va[..k + 1][..k] == va[..k];
    ShapeChild(mem, tree, va[..k], va[k]);
  }

  // ---------------------------------------------------------------- translation

  function Gathered(rw: bool, user: bool, nx: bool, v: View): View {
    match v
    case Hit(f, r, u, n, pat, rest) => Hit(f, rw && r, user && u, nx || n, pat, rest)
    case _ => v
  }

  lemma LeafLevel(k: nat, e: Entry)
    requires LeafAt(k, e) && k <= 3
    ensures 1 <= k <= 3
  {
  }

  lemma GatherNothing(v: View)
    ensures Gathered(true, true, false, v) == v
  {
  }

  lemma GatherStep(e: Entry, rw: bool, user: bool, nx: bool, v: View)
    ensures Gathered(rw, user, nx, Under(e, v)) == Gathered(rw && e.rw, user && e.user, nx || e.nx, v)
  {
  }

  lemma GatherLeaf(va: seq<nat>, k: nat, e: Entry, rw: bool, user: bool, nx: bool)
    requires |va| == 4
    ensures !Gathered(rw, user, nx, Fault).Hit? && !Gathered(rw, user, nx, Lazy(e)).Hit?
    ensures var x := Gathered(rw, user, nx, Leaf(va, k, e));
      x.Hit? && x.frame == Aligned(e.frame, Span(k)) + Low(va, k) && x.rw == (rw && e.rw) && x.user == (user && e.user) && x.nx == (nx || e.nx)
  {
  }

  lemma PhysOffset(v: nat, k: nat)
    requires 1 <= k <= 3
    ensures |Ix(v / 4096)| == 4 && v % (Span(k) * 4096) == Low(Ix(v / 4096), k) * 4096 + v % 4096
  {
    var n := v / 4096;
    Nested(v, 4096, Span(k));
    if k == 1 {
      Nested(n, 512, 512);
    }
  }

  lemma Nested(v: nat, unit: nat, span: nat)
    requires unit > 0 && span > 0
    ensures span * unit > 0 && v % (span * unit) == v / unit % span * unit + v % unit
  {
    var n, r := v / unit, v % unit;
    var q, m := n / span, n % span;
    Parts(v, unit);
    Parts(n, span);
    Distribute(q, span, m, unit);
    LowBound(m, span, unit, r);
    RemainderIs(v, span * unit, q, m * unit + r);
  }

  lemma Parts(x: nat, unit: nat)
    requires unit > 0
    ensures x == x / unit * unit + x % unit && x % unit < unit
  {
  }

  lemma LowBound(m: nat, span: nat, unit: nat, r: nat)
    requires m < span && r < unit
    ensures m * unit + r < span * unit
  {
    assert (m + 1) * unit <= span * unit;
  }

  lemma RemainderIs(x: nat, unit: nat, q: nat, r: nat)
    requires unit > 0 && x == unit * q + r && r < unit
    ensures x % unit == r
  {
    DivideUnique(x, unit, q, r);
    Parts(x, unit);
  }

  lemma Distribute(q: nat, span: nat, m: nat, unit: nat)
    ensures (q * span + m) * unit == span * unit * q + m * unit
  {
  }

  // ---------------------------------------------------------------- units of a run

  lemma OneViewRun(mem: Memory, mem': Memory, root: nat, n: nat, kind: View -> bool, x: View)
    requires OneView(mem, mem', root, Ix(n), x) && kind(x) && Look(mem, root, Ix(n), 0) == Fault
    ensures RunView(mem, mem', root, n, 1, kind)
  {
    hide Look, Ix;
    forall va | IsVa(va) && !InRun(va, n, 1)
      ensures va != Ix(n)
    {
    }
  }

  lemma RunJoin(mem: Memory, m: Memory, mem': Memory, root: nat, first: nat, n: nat, size: nat, kind: View -> bool)
    requires RunView(mem, m, root, first, n, kind) && RunView(m, mem', root, first + n, size, kind)
    requires first + n + size <= 0x10_0000_0000
    ensures RunView(mem, mem', root, first, n + size, kind)
  {
    hide Look, Ix;
    forall j | first <= j < first + n + size
      ensures kind(Look(mem', root, Ix(j), 0)) && Look(mem, root, Ix(j), 0) == Fault
    {
      IxIsVa(j);
      if j < first + n {
        NotInRun(j, first + n, size);
      } else {
        NotInRun(j, first, n);
      }
    }
    forall va | IsVa(va) && !InRun(va, first, n + size)
      ensures Look(mem', root, va, 0) == Look(mem, root, va, 0)
    {
      RunParts(va, first, n, size);
    }
  }

  lemma NotInRun(j: nat, first: nat, n: nat)
    requires j < 0x10_0000_0000 && first + n <= 0x10_0000_0000 && !(first <= j < first + n)
    ensures !InRun(Ix(j), first, n)
  {
    hide Ix;
    if InRun(Ix(j), first, n) {
      var k :| first <= k < first + n && Ix(j) == Ix(k);
      IxInjective(j, k);
    }
  }

  /** The pages of a run see nothing, the others what they saw. */
  ghost predicate Cleared(mem: Memory, mem': Memory, root: nat, first: nat, n: nat) {
    && (forall j :: first <= j < first + n ==> Look(mem', root, Ix(j), 0) == Fault)
    && (forall va :: IsVa(va) && !InRun(va, first, n) ==> Look(mem', root, va, 0) == Look(mem, root, va, 0))
  }

  /** Clearing the last unit of a run leaves the rest of it. */
  lemma RunCut(mem: Memory, m: Memory, mem': Memory, root: nat, first: nat, n: nat, size: nat, kind: View -> bool)
    requires RunView(mem, m, root, first, n + size, kind) && Cleared(m, mem', root, first + n, size)
    requires first + n + size <= 0x10_0000_0000
    ensures RunView(mem, mem', root, first, n, kind)
  {
    hide Look, Ix;
    forall j | first <= j < first + n
      ensures kind(Look(mem', root, Ix(j), 0)) && Look(mem, root, Ix(j), 0) == Fault
    {
      IxIsVa(j);
      NotInRun(j, first + n, size);
    }
    forall va | IsVa(va) && !InRun(va, first, n)
      ensures Look(mem', root, va, 0) == Look(mem, root, va, 0)
    {
      RunParts(va, first, n, size);
      if InRun(va, first + n, size) {
        var j :| first + n <= j < first + n + size && va == Ix(j);
        assert Look(mem, root, Ix(j), 0) == Fault;
      }
    }
  }

  lemma OneViewCleared(mem: Memory, mem': Memory, root: nat, n: nat)
    requires OneView(mem, mem', root, Ix(n), Fault)
    ensures Cleared(mem, mem', root, n, 1)
  {
    hide Look, Ix;
    forall va | IsVa(va) && !InRun(va, n, 1)
      ensures va != Ix(n)
    {
    }
  }

  // ---------------------------------------------------------------- two-megabyte pages

  lemma IxBlock(n: nat, d: nat)
    requires n % 512 == 0 && d < 512
    ensures Ix(n + d) == Ix(n)[3 := d]
  {
    var q := n / 512;
    assert n == 512 * q;
    assert (n + d) / 512 == q && (n + d) % 512 == d;
    assert (n + d) / 0x4_0000 == n / 0x4_0000;
    assert (n + d) / 0x800_0000 == n / 0x800_0000;
  }

  /** The addresses under a level 2 entry are the 512 pages of its block. */
  lemma BlockMembers(n: nat, va: seq<nat>)
    requires n % 512 == 0 && IsVa(va)
    ensures Through(va, Ix(n)[..2], Ix(n)[2]) <==> InRun(va, n, 512)
    ensures InRun(va, n, 512) ==> va == Ix(n + va[3])
  {
    hide Ix;
    IxIsVa(n);
    if Through(va, Ix(n)[..2], Ix(n)[2]) {
      IxBlock(n, va[3]);
      assert va[0] == va[..2][0] && va[1] == va[..2][1];
      assert Ix(n)[0] == Ix(n)[..2][0] && Ix(n)[1] == Ix(n)[..2][1];
      assert va == Ix(n + va[3]);
      assert n <= n + va[3] < n + 512;
    }
    if InRun(va, n, 512) {
      var j :| n <= j < n + 512 && va == Ix(j);
      IxBlock(n, j - n);
      assert va[..2] == Ix(n)[..2];
    }
  }

  function LargeEntry(p: nat, rw: bool, nx: bool): Entry { Entry(p, true, rw, true, true, nx, false, 0) }

  lemma LargeLeaf(p: nat, rw: bool, nx: bool, va: seq<nat>)
    requires p % 512 == 0 && IsVa(va)
    ensures Guard(true, LeafView(va, 2, LargeEntry(p, rw, nx))) == Hit(p + va[3], rw, true, nx, false, 0)
  {
    assert p % 2 == 0;
  }

  lemma BlockRun(mem: Memory, mem': Memory, root: nat, n: nat, p: nat, rw: bool, nx: bool)
    requires n % 512 == 0 && p % 512 == 0 && IsVa(Ix(n))
    requires Written(mem, mem', root, Ix(n), 2, true, LargeEntry(p, rw, nx))
    requires forall va :: IsVa(va) && Through(va, Ix(n)[..2], Ix(n)[2]) ==> Look(mem, root, va, 0) == Fault
    ensures RunView(mem, mem', root, n, 512, UserPage(rw, nx))
    ensures forall va :: IsVa(va) && InRun(va, n, 512) ==> Look(mem', root, va, 0) == Hit(p + va[3], rw, true, nx, false, 0)
    ensures forall va :: IsVa(va) && !InRun(va, n, 512) ==> Look(mem', root, va, 0) == Look(mem, root, va, 0)
  {
    hide Look, Ix, InRun, LeafView, LargeEntry, Through;
    forall va | IsVa(va)
      ensures Look(mem', root, va, 0) == if InRun(va, n, 512) then Hit(p + va[3], rw, true, nx, false, 0) else Look(mem, root, va, 0)
      ensures InRun(va, n, 512) ==> Look(mem, root, va, 0) == Fault
    {
      BlockMembers(n, va);
      LargeLeaf(p, rw, nx, va);
    }
    forall j | n <= j < n + 512
      ensures IsVa(Ix(j)) && InRun(Ix(j), n, 512)
    {
      IxIsVa(j);
      RunHas(n, 512, j);
    }
  }

  lemma RunHas(n: nat, size: nat, j: nat)
    requires n <= j < n + size
    ensures InRun(Ix(j), n, size)
  {
    hide Ix;
  }

  /** The frames of a two-megabyte page. */
  function Block(p: nat): set<nat> { Frames(p, 512) }

  function Frames(p: nat, n: nat): (r: set<nat>)
    ensures forall f :: f in r <==> p <= f < p + n
  {
    if n == 0 then {} else Frames(p, n - 1) + {p + n - 1}
  }

  /** A block of user pages on frames that nothing used. */
  lemma SafeBlock(mem: Memory, mem': Memory, root: nat, tree: Tree, pages: set<nat>, pages': set<nat>, n: nat, p: nat, rw: bool, nx: bool)
    requires Safe(mem, root, tree, pages) && (rw ==> nx) && n % 512 == 0 && tree.Values <= pages
    requires forall va :: IsVa(va) && InRun(va, n, 512) ==> Look(mem', root, va, 0) == Hit(p + va[3], rw, true, nx, false, 0)
    requires forall va :: IsVa(va) && !InRun(va, n, 512) ==> Look(mem', root, va, 0) == Look(mem, root, va, 0)
    requires Block(p) !! pages && pages' == pages + Block(p)
    ensures Safe(mem', root, tree, pages')
  {
    hide Look, InRun;
    forall va | IsVa(va) && UserHit(Look(mem', root, va, 0))
      ensures Look(mem', root, va, 0).frame in pages' && Look(mem', root, va, 0).frame !in tree.Values
      ensures InRun(va, n, 512) <==> Look(mem', root, va, 0).frame in Block(p)
    {
      if InRun(va, n, 512) {
        assert p + va[3] in Block(p);
      }
    }
    forall va, wa | IsVa(va) && IsVa(wa) && UserHit(Look(mem', root, va, 0)) && UserHit(Look(mem', root, wa, 0))
      && Look(mem', root, va, 0).frame == Look(mem', root, wa, 0).frame
      ensures va == wa
    {
      if InRun(va, n, 512) && InRun(wa, n, 512) {
        BlockMembers(n, va);
        BlockMembers(n, wa);
      }
    }
  }

  lemma OthersHung(mem: Memory, tree: Tree, path: seq<nat>, i: nat, page: nat, user: bool, t: seq<Entry>)
    requires Shape(mem, tree) && path in tree && i < 512 && page !in tree.Values
    ensures SameBut(mem, HungMemory(mem, tree[path], i, page, user, t), tree, path)
  {
    hide Points, Rooted;
    forall q | q in tree && q != path
      ensures tree[q] in mem && tree[q] in HungMemory(mem, tree[path], i, page, user, t)
      ensures HungMemory(mem, tree[path], i, page, user, t)[tree[q]] == mem[tree[q]]
    {
      HungSame(mem, tree, path, i, page, user, t, q);
      assert tree[q] != tree[path];
    }
  }

  /** Every table but the one at path holds what it held. */
  ghost predicate SameBut(mem: Memory, mem': Memory, tree: Tree, path: seq<nat>) {
    forall q :: q in tree && q != path ==> tree[q] in mem && tree[q] in mem' && mem'[tree[q]] == mem[tree[q]]
  }

  /** Every table from a depth on holds what it held. */
  ghost predicate SameBelow(mem: Memory, mem': Memory, tree: Tree, depth: nat) {
    forall q :: q in tree && |q| >= depth ==> tree[q] in mem && tree[q] in mem' && mem'[tree[q]] == mem[tree[q]]
  }

  lemma SameBelowNow(mem: Memory, tree: Tree, depth: nat)
    requires Shape(mem, tree)
    ensures SameBelow(mem, mem, tree, depth)
  {
  }

  lemma SameBelowStep(m0: Memory, t0: Tree, p0: set<nat>, m1: Memory, t1: Tree, p1: set<nat>, m2: Memory, depth: nat, path: seq<nat>)
    requires SameBelow(m0, m1, t0, depth) && SameBut(m1, m2, t1, path) && |path| < depth
    requires Grew(m0, t0, p0, m1, t1, p1)
    ensures SameBelow(m0, m2, t0, depth)
  {
  }

  // ---------------------------------------------------------------- promised and large pages in a run

  /** The tables above the pages of a run exist and admit the user. */
  ghost predicate Open(mem: Memory, tree: Tree, first: nat, n: nat, depth: nat)
    requires Shape(mem, tree) && depth <= 3
  {
    forall j :: first <= j < first + n ==> |Ix(j)| == 4 && Ix(j)[..depth] in tree && PathUser(mem, tree, Ix(j)[..depth])
  }

  lemma OpenGrows(m: Memory, t: Tree, p: set<nat>, m': Memory, t': Tree, p': set<nat>, first: nat, n: nat, depth: nat)
    requires Shape(m, t) && Shape(m', t') && Grew(m, t, p, m', t', p') && depth <= 3 && Open(m, t, first, n, depth)
    ensures Open(m', t', first, n, depth)
  {
    hide Points, Rooted, Ix, PathUser;
    forall j | first <= j < first + n
      ensures |Ix(j)| == 4 && Ix(j)[..depth] in t' && PathUser(m', t', Ix(j)[..depth])
    {
      PathUserSame(m, m', t, t', Ix(j)[..depth]);
    }
  }

  lemma OpenJoin(mem: Memory, tree: Tree, first: nat, n: nat, size: nat, depth: nat)
    requires Shape(mem, tree) && depth <= 3 && Open(mem, tree, first, n, depth) && Open(mem, tree, first + n, size, depth)
    ensures Open(mem, tree, first, n + size, depth)
  {
    hide Shape, Ix, PathUser;
  }

  lemma OpenOne(mem: Memory, tree: Tree, n: nat, depth: nat)
    requires Shape(mem, tree) && depth <= 3 && Ix(n)[..depth] in tree && PathUser(mem, tree, Ix(n)[..depth])
    ensures Open(mem, tree, n, 1, depth)
    ensures depth == 2 && n % 512 == 0 ==> Open(mem, tree, n, 512, depth)
  {
    hide Shape, Ix, PathUser;
    IxIsVa(n);
    if depth == 2 && n % 512 == 0 {
      forall j | n <= j < n + 512
        ensures |Ix(j)| == 4 && Ix(j)[..2] == Ix(n)[..2]
      {
        IxBlock(n, j - n);
      }
    }
  }

  lemma OpenAt(mem: Memory, tree: Tree, first: nat, n: nat, depth: nat, j: nat)
    requires Shape(mem, tree) && depth <= 3 && Open(mem, tree, first, n, depth) && first <= j < first + n
    ensures |Ix(j)| == 4 && Ix(j)[..depth] in tree && PathUser(mem, tree, Ix(j)[..depth])
  {
    hide Shape, Ix, PathUser;
  }

  function LazyEntry(rw: bool): Entry { Entry(0, false, rw, true, false, true, true, 0) }

  function LazyPage(rw: bool): View -> bool { (v: View) => v == Lazy(LazyEntry(rw)) }

  lemma LazyWritten(mem: Memory, m: Memory, mem': Memory, root: nat, n: nat, user: bool, rw: bool)
    requires SameViews(mem, m, root) && IsVa(Ix(n)) && Written(m, mem', root, Ix(n), 3, user, LazyEntry(rw))
    ensures OneView(mem, mem', root, Ix(n), Lazy(LazyEntry(rw)))
  {
    hide Look, Ix;
    var va := Ix(n);
    assert Through(va, va[..3], va[3]);
    forall wa | IsVa(wa) && wa != va
      ensures Look(mem', root, wa, 0) == Look(mem, root, wa, 0)
    {
      SameVa(va, wa);
    }
  }

  /** Nothing is mapped under a zero level 2 entry. */
  lemma ZeroBlock(mem: Memory, tree: Tree, va: seq<nat>, wa: seq<nat>)
    requires Shape(mem, tree) && IsVa(va) && IsVa(wa) && va[..2] in tree && mem[tree[va[..2]]][va[2]] == ZERO
    requires Through(wa, va[..2], va[2])
    ensures Look(mem, tree[[]], wa, 0) == Fault
  {
    hide Points, Rooted, PathUser, Leaf;
    LookDown(mem, tree, wa, 2);
    assert Look(mem, tree[wa[..2]], wa, 2) == Fault;
  }

  lemma SafeFault(mem: Memory, mem': Memory, root: nat, tree: Tree, pages: set<nat>, va: seq<nat>)
    requires Safe(mem, root, tree, pages) && OneView(mem, mem', root, va, Fault) && IsVa(va)
    ensures Safe(mem', root, tree, pages)
  {
    hide Look;
  }

  /** The large page at a block, and what clearing its entry does. */
  lemma BlockCleared(mem: Memory, mem': Memory, tree: Tree, pages: set<nat>, n: nat, p: nat, rw: bool, nx: bool)
    requires Shape(mem, tree) && n % 512 == 0 && p % 512 == 0 && IsVa(Ix(n)) && Ix(n)[..2] in tree && PathUser(mem, tree, Ix(n)[..2])
    requires mem[tree[Ix(n)[..2]]][Ix(n)[2]] == LargeEntry(p, rw, nx)
    requires Written(mem, mem', tree[[]], Ix(n), 2, true, ZERO) && Safe(mem, tree[[]], tree, pages)
    ensures Cleared(mem, mem', tree[[]], n, 512) && Safe(mem', tree[[]], tree, pages - Block(p))
    ensures tree.Values !! Block(p)
  {
    hide Points, Rooted, PathUser, Ix, LeafView, InRun, Look, Through, Block, LargeEntry;
    var root := tree[[]];
    forall va | IsVa(va)
      ensures Look(mem', root, va, 0) == if InRun(va, n, 512) then Fault else Look(mem, root, va, 0)
      ensures InRun(va, n, 512) ==> Look(mem, root, va, 0) == Hit(p + va[3], rw, true, nx, false, 0)
    {
      BlockMembers(n, va);
      ClearedLeaf(va);
      if InRun(va, n, 512) {
        LargeAt(mem, tree, Ix(n), va, p, rw, nx);
      }
    }
    forall j | n <= j < n + 512
      ensures Look(mem', root, Ix(j), 0) == Fault
    {
      IxIsVa(j);
      RunHas(n, 512, j);
    }
    BlockSafe(mem, mem', root, tree, pages, n, p, rw, nx);
  }

  lemma ClearedLeaf(va: seq<nat>)
    requires |va| == 4
    ensures Guard(true, LeafView(va, 2, ZERO)) == Fault
  {
  }

  lemma LargeAt(mem: Memory, tree: Tree, va: seq<nat>, wa: seq<nat>, p: nat, rw: bool, nx: bool)
    requires Shape(mem, tree) && IsVa(va) && IsVa(wa) && va[..2] in tree && PathUser(mem, tree, va[..2]) && p % 512 == 0
    requires mem[tree[va[..2]]][va[2]] == LargeEntry(p, rw, nx) && Through(wa, va[..2], va[2])
    ensures Look(mem, tree[[]], wa, 0) == Hit(p + wa[3], rw, true, nx, false, 0)
  {
    hide Points, Rooted, PathUser, LeafView, Look;
    LookDown(mem, tree, wa, 2);
    LookLeaf(mem, tree[va[..2]], wa, 2, LargeEntry(p, rw, nx));
    LargeLeaf(p, rw, nx, wa);
  }

  lemma BlockSafe(mem: Memory, mem': Memory, root: nat, tree: Tree, pages: set<nat>, n: nat, p: nat, rw: bool, nx: bool)
    requires Safe(mem, root, tree, pages) && n % 512 == 0
    requires forall va :: IsVa(va) ==> Look(mem', root, va, 0) == if InRun(va, n, 512) then Fault else Look(mem, root, va, 0)
    requires forall va :: IsVa(va) && InRun(va, n, 512) ==> Look(mem, root, va, 0) == Hit(p + va[3], rw, true, nx, false, 0)
    ensures Safe(mem', root, tree, pages - Block(p)) && tree.Values !! Block(p)
  {
    hide Look, InRun, Ix;
    forall f | f in Block(p)
      ensures f !in tree.Values
      ensures forall va :: IsVa(va) && UserHit(Look(mem', root, va, 0)) ==> Look(mem', root, va, 0).frame != f
    {
      var j := n + (f - p);
      IxIsVa(j);
      RunHas(n, 512, j);
      IxBlock(n, f - p);
      IxIsVa(n);
      assert Look(mem, root, Ix(j), 0).frame == f;
    }
  }

  // ---------------------------------------------------------------- small facts

  lemma SameButNow(mem: Memory, tree: Tree, path: seq<nat>)
    requires Shape(mem, tree)
    ensures SameBut(mem, mem, tree, path)
  {
  }

  lemma GrewPages(m: Memory, t: Tree, p: set<nat>, m': Memory, t': Tree, p': set<nat>)
    requires Grew(m, t, p, m', t', p')
    ensures p <= p'
  {
  }

  lemma LazyFields(rw: bool)
    ensures !LazyEntry(rw).present && LazyEntry(rw).lazy && ViewSafe(Lazy(LazyEntry(rw))) && !UserHit(Lazy(LazyEntry(rw))) && LazyPage(rw)(Lazy(LazyEntry(rw)))
  {
  }

  lemma UserSame(m: Memory, m': Memory, t: Tree, p: set<nat>, path: seq<nat>)
    requires Shape(m, t) && Shape(m', t) && Grew(m, t, p, m', t, p) && path in t
    ensures PathUser(m', t, path) == PathUser(m, t, path)
  {
    hide Points, Rooted;
    PathUserSame(m, m', t, t, path);
  }

  lemma OpenNone(mem: Memory, tree: Tree, first: nat, depth: nat)
    requires Shape(mem, tree) && depth <= 3
    ensures Open(mem, tree, first, 0, depth)
  {
  }

  lemma OpenPart(mem: Memory, tree: Tree, first: nat, n: nat, depth: nat, k: nat)
    requires Shape(mem, tree) && depth <= 3 && Open(mem, tree, first, n, depth) && k <= n
    ensures Open(mem, tree, first, k, depth) && Open(mem, tree, first + k, n - k, depth)
  {
    hide Shape, Ix, PathUser;
  }

  // ---------------------------------------------------------------- the entries of large pages

  /** The level 2 entry of a block is a large page. */
  ghost predicate LargeHere(mem: Memory, tree: Tree, n: nat, rw: bool, nx: bool) {
    && |Ix(n)| == 4 && Ix(n)[..2] in tree && tree[Ix(n)[..2]] in mem && Ix(n)[2] < |mem[tree[Ix(n)[..2]]]|
    && (var e := mem[tree[Ix(n)[..2]]][Ix(n)[2]]; e == LargeEntry(e.frame, rw, nx) && e.frame % 512 == 0)
  }

  ghost predicate Larges(mem: Memory, tree: Tree, first: nat, n: nat, rw: bool, nx: bool) {
    forall j :: first <= j < first + n && j % 512 == 0 ==> LargeHere(mem, tree, j, rw, nx)
  }

  /** Among the tables at depth 2, only the entry of the block at n may differ. */
  ghost predicate OneEntry(mem: Memory, mem': Memory, tree: Tree, n: nat) {
    forall q, i :: q in tree && |q| == 2 && 0 <= i < 512 && |Ix(n)| == 4 && !(q == Ix(n)[..2] && i == Ix(n)[2]) ==>
      && tree[q] in mem && tree[q] in mem' && |mem[tree[q]]| == |mem'[tree[q]]| == 512
      && mem'[tree[q]][i] == mem[tree[q]][i]
  }

  lemma SameBelowMore(mem: Memory, mem': Memory, tree: Tree, depth: nat)
    requires SameBelow(mem, mem', tree, depth)
    ensures SameBelow(mem, mem', tree, depth + 1)
  {
  }

  lemma LargeFields(p: nat, rw: bool, nx: bool)
    ensures LargeEntry(p, rw, nx).present && LeafAt(2, LargeEntry(p, rw, nx)) && LargeEntry(p, rw, nx).frame == p
  {
  }

  lemma EmptyBlock(mem: Memory, tree: Tree, va: seq<nat>)
    requires Shape(mem, tree) && IsVa(va) && va[..2] in tree && mem[tree[va[..2]]][va[2]] == ZERO
    ensures forall wa :: IsVa(wa) && Through(wa, va[..2], va[2]) ==> Look(mem, tree[[]], wa, 0) == Fault
  {
    hide Points, Rooted, Look, Through;
    forall wa | IsVa(wa) && Through(wa, va[..2], va[2])
      ensures Look(mem, tree[[]], wa, 0) == Fault
    {
      ZeroBlock(mem, tree, va, wa);
    }
  }

  lemma RunAfterSame(mem: Memory, m: Memory, mem': Memory, root: nat, first: nat, n: nat, kind: View -> bool)
    requires SameViews(mem, m, root) && RunView(m, mem', root, first, n, kind)
    ensures RunView(mem, mem', root, first, n, kind)
  {
    hide Look, Ix, InRun;
    forall j | first <= j < first + n
      ensures Look(mem, root, Ix(j), 0) == Fault
    {
      IxIsVa(j);
    }
  }

  lemma GrewWider(m: Memory, t: Tree, p: set<nat>, m': Memory, t': Tree, p': set<nat>, more: set<nat>)
    requires Grew(m, t, p, m', t', p') && p' <= more
    ensures Grew(m, t, p, m', t', more)
  {
  }

  lemma GrewAny(m: Memory, t: Tree, p: set<nat>, m': Memory, t': Tree, p': set<nat>)
    requires Grew(m, t, p, m', t', p) && t == t'
    ensures Grew(m, t, {}, m', t', p')
    ensures Grew(m, t, {}, m', t', p)
  {
  }

  lemma EntryPut(mem: Memory, tree: Tree, n: nat, e: Entry)
    requires Shape(mem, tree) && IsVa(Ix(n)) && Ix(n)[..2] in tree
    ensures OneEntry(mem, Put(mem, tree[Ix(n)[..2]], Ix(n)[2], e), tree, n)
    ensures SameBelow(mem, Put(mem, tree[Ix(n)[..2]], Ix(n)[2], e), tree, 3)
  {
    hide Points, Rooted, Ix;
  }

  lemma LargeWritten(m0: Memory, t0: Tree, g0: set<nat>, m: Memory, t: Tree, g: set<nat>, n: nat, p: nat, rw: bool, nx: bool)
    requires Shape(m0, t0) && Shape(m, t) && IsVa(Ix(n)) && Ix(n)[..2] in t && p % 512 == 0
    requires SameBelow(m0, m, t0, 2) && Grew(m0, t0, g0, m, t, g)
    ensures var m' := Put(m, t[Ix(n)[..2]], Ix(n)[2], LargeEntry(p, rw, nx));
      LargeHere(m', t, n, rw, nx) && OneEntry(m0, m', t0, n) && SameBelow(m0, m', t0, 3)
  {
    hide Points, Rooted, Ix;
    EntryPut(m, t, n, LargeEntry(p, rw, nx));
  }

  lemma BlocksDiffer(j: nat, n: nat)
    requires j % 512 == 0 && n % 512 == 0 && j < 0x10_0000_0000 && n < 0x10_0000_0000 && j != n
    ensures |Ix(j)| == 4 && |Ix(n)| == 4 && !(Ix(j)[..2] == Ix(n)[..2] && Ix(j)[2] == Ix(n)[2])
  {
    if Ix(j)[..2] == Ix(n)[..2] && Ix(j)[2] == Ix(n)[2] {
      assert Ix(j)[0] == Ix(j)[..2][0] && Ix(j)[1] == Ix(j)[..2][1];
      assert Ix(n)[0] == Ix(n)[..2][0] && Ix(n)[1] == Ix(n)[..2][1];
      assert Ix(j) == Ix(n);
      IxInjective(j, n);
    }
  }

  lemma LargesNone(mem: Memory, tree: Tree, first: nat, rw: bool, nx: bool)
    ensures Larges(mem, tree, first, 0, rw, nx)
  {
  }

  lemma LargesAt(mem: Memory, tree: Tree, first: nat, n: nat, rw: bool, nx: bool, j: nat)
    requires Larges(mem, tree, first, n, rw, nx) && first <= j < first + n && j % 512 == 0
    ensures LargeHere(mem, tree, j, rw, nx)
  {
    hide LargeHere;
  }

  lemma LargeKept(m: Memory, t: Tree, m': Memory, t': Tree, j: nat, n: nat, rw: bool, nx: bool)
    requires LargeHere(m, t, j, rw, nx) && OneEntry(m, m', t, n) && j % 512 == 0 && n % 512 == 0 && j != n
    requires j < 0x10_0000_0000 && n < 0x10_0000_0000 && IsVa(Ix(j)) && (forall q :: q in t ==> q in t' && t'[q] == t[q])
    ensures LargeHere(m', t', j, rw, nx)
  {
    hide Ix, LargeEntry;
    BlocksDiffer(j, n);
  }

  lemma LargesMore(m: Memory, t: Tree, p: set<nat>, m': Memory, t': Tree, p': set<nat>, first: nat, n: nat, rw: bool, nx: bool)
    requires Larges(m, t, first, n, rw, nx) && OneEntry(m, m', t, first + n) && LargeHere(m', t', first + n, rw, nx)
    requires Grew(m, t, p, m', t', p') && (first + n) % 512 == 0 && first + n < 0x10_0000_0000
    ensures Larges(m', t', first, n + 512, rw, nx)
  {
    hide LargeHere, OneEntry, Ix;
    var at := first + n;
    forall j | first <= j < first + (n + 512) && j % 512 == 0
      ensures LargeHere(m', t', j, rw, nx)
    {
      IxIsVa(j);
      if j < at {
        LargeKept(m, t, m', t', j, at, rw, nx);
      } else {
        NextBlock(at, j);
      }
    }
  }

  lemma SumBlock(a: nat, b: nat)
    requires a % 512 == 0 && b % 512 == 0
    ensures (a + b) % 512 == 0
  {
  }

  lemma NextBlock(n: nat, j: nat)
    requires n % 512 == 0 && j % 512 == 0 && n <= j < n + 512
    ensures j == n
  {
  }

  lemma LargesSame(m: Memory, t: Tree, p: set<nat>, m': Memory, t': Tree, p': set<nat>, first: nat, n: nat, rw: bool, nx: bool)
    requires Larges(m, t, first, n, rw, nx) && SameBelow(m, m', t, 2) && Grew(m, t, p, m', t', p')
    ensures Larges(m', t', first, n, rw, nx)
  {
    hide Ix, LargeEntry;
    forall j | first <= j < first + n && j % 512 == 0
      ensures LargeHere(m', t', j, rw, nx)
    {
      assert LargeHere(m, t, j, rw, nx);
      assert |Ix(j)[..2]| == 2;
    }
  }

  lemma LargesLess(m: Memory, m': Memory, t: Tree, first: nat, n: nat, rw: bool, nx: bool)
    requires Larges(m, t, first, n + 512, rw, nx) && OneEntry(m, m', t, first + n)
    requires (first + n) % 512 == 0 && first + n < 0x10_0000_0000
    ensures Larges(m', t, first, n, rw, nx)
  {
    hide LargeHere, OneEntry, Ix;
    forall j | first <= j < first + n && j % 512 == 0
      ensures LargeHere(m', t, j, rw, nx)
    {
      IxIsVa(j);
      LargeKept(m, t, m', t, j, first + n, rw, nx);
    }
  }

  lemma NothingHeld(mem: Memory, root: nat, tree: Tree, pages: set<nat>)
    requires forall va :: IsVa(va) ==> !Counts(Look(mem, root, va, 0))
    ensures Safe(mem, root, tree, pages) && Held(mem, root) == {}
  {
    hide Look, AllVas;
    forall va
      ensures va !in Held(mem, root)
    {
      VaInAll(va);
    }
  }

  lemma UserPageCounts(rw: bool, nx: bool)
    ensures forall v :: UserPage(rw, nx)(v) ==> Counts(v)
  {
  }

  lemma LazyPageCounts(rw: bool)
    ensures forall v :: LazyPage(rw)(v) ==> Counts(v)
  {
  }

  lemma LazyLook(mem: Memory, tree: Tree, va: seq<nat>, e: Entry)
    requires Shape(mem, tree) && IsVa(va) && va[..3] in tree && mem[tree[va[..3]]][va[3]] == e && e.lazy && !e.present
    ensures Look(mem, tree[[]], va, 0) == Lazy(e)
  {
    hide Points, Rooted, PathUser, Leaf;
    LookDown(mem, tree, va, 3);
    assert Look(mem, tree[va[..3]], va, 3) == Lazy(e);
  }

  /** Where the walk comes to a last table, a lazy view is that table's entry. */
  lemma LazyEntryAt(mem: Memory, tree: Tree, va: seq<nat>)
    requires Shape(mem, tree) && IsVa(va) && va[..3] in tree && Look(mem, tree[[]], va, 0).Lazy?
    ensures tree[va[..3]] in mem && |mem[tree[va[..3]]]| == 512
    ensures var e := mem[tree[va[..3]]][va[3]];
      Look(mem, tree[[]], va, 0) == Lazy(e) && e.lazy && !e.present
  {
    hide Points, Rooted, PathUser;
    LookDown(mem, tree, va, 3);
    assert Look(mem, tree[va[..3]], va, 3).Lazy?;
  }

  /** A fault that a promised page serves: the walk to it exists and lets the user through. */
  ghost predicate Servable(mem: Memory, tree: Tree, root: nat, va: seq<nat>, write: bool) {
    && |va| == 4 && Shape(mem, tree) && va[..3] in tree && PathUser(mem, tree, va[..3])
    && Look(mem, root, va, 0).Lazy? && (write ==> Look(mem, root, va, 0).entry.rw)
  }

  lemma ServablePath(mem: Memory, tree: Tree, root: nat, va: seq<nat>, write: bool)
    requires Shape(mem, tree)
    ensures Servable(mem, tree, root, va, write) ==> |va| == 4 && va[..3] in tree && PathUser(mem, tree, va[..3])
  {
    hide Look, PathUser, Shape;
  }

  lemma ServableEntry(mem: Memory, tree: Tree, root: nat, pages: set<nat>, va: seq<nat>, write: bool)
    requires Shape(mem, tree) && tree[[]] == root && IsVa(va) && Safe(mem, root, tree, pages) && Servable(mem, tree, root, va, write)
    ensures tree[va[..3]] in mem && |mem[tree[va[..3]]]| == 512
    ensures var e := mem[tree[va[..3]]][va[3]]; e.lazy && !e.present && e.user && (write ==> e.rw)
  {
    hide Look, PathUser, Shape, Safe;
    LazyEntryAt(mem, tree, va);
    LazySafe(mem, root, tree, pages, va);
  }

  lemma LazySafe(mem: Memory, root: nat, tree: Tree, pages: set<nat>, va: seq<nat>)
    requires Safe(mem, root, tree, pages) && IsVa(va) && Look(mem, root, va, 0).Lazy?
    ensures var e := Look(mem, root, va, 0).entry; e.user && e.nx && e.frame == 0
  {
    hide Look;
  }

  /** A page that stays counted leaves the count as it is. */
  lemma HeldKept(mem: Memory, mem': Memory, root: nat, va: seq<nat>, x: View)
    requires OneView(mem, mem', root, va, x) && IsVa(va) && Counts(x) && Counts(Look(mem, root, va, 0))
    ensures Held(mem', root) == Held(mem, root)
  {
    hide Look, AllVas, Counts;
    forall wa
      ensures wa in Held(mem', root) <==> wa in Held(mem, root)
    {
      VaInAll(wa);
    }
  }

  /** A promised page now shows frame f with the permissions of the promise. */
  ghost predicate Supplied(mem: Memory, mem': Memory, root: nat, va: seq<nat>, e: Entry, f: nat) {
    OneView(mem, mem', root, va, Hit(f, e.rw, true, e.nx, e.large, e.rest))
  }
}
