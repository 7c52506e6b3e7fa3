/**
 When a walk for the user has to succeed: absent entries are empty or promises, the tables of the
 user's part admit the user, and so only a lack of pages can stop a mapping where nothing is mapped.
 */
module AddressAccess {
  import opened Basics
  import opened PageTable
  import opened AddressViews

  /** Without slots: an absent entry is empty, or a promise in a last table. With them: a present entry above, outside the kernel's slots, admits the user. */
  predicate Fine(slots: Option<set<nat>>, p: seq<nat>, i: nat, e: Entry) {
    match slots
    case None => e.present || e == ZERO || (|p| == 3 && e.lazy)
    case Some(kernel) => e.present && |p| <= 2 && (if p == [] then i else p[0]) !in kernel ==> e.user
  }

  ghost predicate Orderly(mem: Memory, tree: Tree, slots: Option<set<nat>>) {
    forall p, i :: p in tree && 0 <= i < 512 && tree[p] in mem && i < |mem[tree[p]]| ==> Fine(slots, p, i, mem[tree[p]][i])
  }

  ghost predicate Tidy(mem: Memory, tree: Tree) { Orderly(mem, tree, None) }

  ghost predicate Ours(mem: Memory, tree: Tree, kernel: set<nat>) { Orderly(mem, tree, Some(kernel)) }

  lemma PutOrderly(mem: Memory, tree: Tree, p: seq<nat>, i: nat, e: Entry, slots: Option<set<nat>>)
    requires Shape(mem, tree) && p in tree && i < 512 && Orderly(mem, tree, slots) && Fine(slots, p, i, e)
    ensures Orderly(Put(mem, tree[p], i, e), tree, slots)
  {
    hide Points, Rooted, Fine;
    var mem' := Put(mem, tree[p], i, e);
    forall q, j | q in tree && 0 <= j < 512 && tree[q] in mem' && j < |mem'[tree[q]]|
      ensures Fine(slots, q, j, mem'[tree[q]][j])
    {
      if tree[q] == tree[p] {
        assert q == p;
      }
      assert Fine(slots, q, j, mem[tree[q]][j]);
    }
  }

  lemma HungOrderly(mem: Memory, tree: Tree, path: seq<nat>, i: nat, page: nat, user: bool, t: seq<Entry>, slots: Option<set<nat>>)
    requires Shape(mem, tree) && path in tree && i < 512 && page !in tree.Values && |t| == 512 && Orderly(mem, tree, slots)
    requires Fine(slots, path, i, TableEntry(page, user)) && forall j :: 0 <= j < 512 ==> Fine(slots, path + [i], j, t[j])
    ensures Orderly(HungMemory(mem, tree[path], i, page, user, t), tree[path + [i] := page], slots)
  {
    hide Points, Rooted, Fine;
    var c := path + [i];
    var mem', tree' := HungMemory(mem, tree[path], i, page, user, t), tree[c := page];
    forall q, j | q in tree' && 0 <= j < 512 && tree'[q] in mem' && j < |mem'[tree'[q]]|
      ensures Fine(slots, q, j, mem'[tree'[q]][j])
    {
      if q == c {
        assert mem'[page] == t;
      } else {
        HungSame(mem, tree, path, i, page, user, t, q);
        assert Fine(slots, q, j, mem[tree[q]][j]);
        if q == path && j == i {
          assert mem'[tree[q]][j] == TableEntry(page, user);
        }
      }
    }
  }

  lemma EmptyOrderly(mem: Memory, tree: Tree, path: seq<nat>, i: nat, page: nat, user: bool, slots: Option<set<nat>>)
    requires Shape(mem, tree) && path in tree && i < 512 && page !in tree.Values && Orderly(mem, tree, slots)
    requires slots.Some? ==> user || (if path == [] then i else path[0]) in slots.value
    ensures Orderly(HungMemory(mem, tree[path], i, page, user, EmptyPage()), tree[path + [i] := page], slots)
  {
    hide Points, Rooted, Shape, Orderly;
    assert |EmptyPage()| == 512 && forall j :: 0 <= j < 512 ==> EmptyPage()[j] == ZERO;
    HungOrderly(mem, tree, path, i, page, user, EmptyPage(), slots);
  }

  lemma SplitOrderly(mem: Memory, tree: Tree, path: seq<nat>, i: nat, page: nat, slots: Option<set<nat>>)
    requires Shape(mem, tree) && path in tree && i < 512 && page !in tree.Values && Orderly(mem, tree, slots) && 1 <= |path| <= 2
    requires tree[path] in mem && i < |mem[tree[path]]| && mem[tree[path]][i].present
    ensures var e := mem[tree[path]][i];
      Orderly(HungMemory(mem, tree[path], i, page, e.user, SplitTable(e, |path|)), tree[path + [i] := page], slots)
  {
    hide Points, Rooted, Shape;
    var e, t := mem[tree[path]][i], SplitTable(mem[tree[path]][i], |path|);
    assert Fine(slots, path, i, e);
    forall j | 0 <= j < 512
      ensures Fine(slots, path + [i], j, t[j])
    {
      assert t[j] == SplitEntry(e, |path|, j);
      assert (path + [i])[0] == path[0];
    }
    hide Orderly;
    HungOrderly(mem, tree, path, i, page, e.user, t, slots);
  }

  // ---------------------------------------------------------------- who is let through

  /** From depth k to depth n every table on the way that has an entry for the address admits the user. */
  ghost predicate Admits(mem: Memory, tree: Tree, va: seq<nat>, k: nat, n: nat) {
    |va| == 4 && n <= 3 && forall j :: k <= j < n && va[..j] in tree && tree[va[..j]] in mem && va[j] < |mem[tree[va[..j]]]| ==>
      mem[tree[va[..j]]][va[j]].present ==> mem[tree[va[..j]]][va[j]].user
  }

  lemma OursAdmits(mem: Memory, tree: Tree, va: seq<nat>, kernel: set<nat>)
    requires Ours(mem, tree, kernel) && IsVa(va) && va[0] !in kernel
    ensures Admits(mem, tree, va, 0, 3)
  {
    forall j | 0 <= j < 3 && va[..j] in tree && tree[va[..j]] in mem && va[j] < |mem[tree[va[..j]]]|
      ensures mem[tree[va[..j]]][va[j]].present ==> mem[tree[va[..j]]][va[j]].user
    {
      assert Fine(Some(kernel), va[..j], va[j], mem[tree[va[..j]]][va[j]]);
      assert va[..j] == [] <==> j == 0;
    }
  }

  /** What a new table below an entry holds, in terms of that entry. */
  ghost predicate FreshBelow(mem: Memory, mem': Memory, tree: Tree, tree': Tree, path: seq<nat>, i: nat) {
    tree' == tree ||
    (&& path + [i] !in tree && path + [i] in tree' && tree' == tree[path + [i] := tree'[path + [i]]] && path in tree
     && tree[path] in mem' && i < |mem'[tree[path]]| && tree'[path + [i]] in mem'
     && forall j :: 0 <= j < |mem'[tree'[path + [i]]]| && mem'[tree'[path + [i]]][j].present ==>
          mem'[tree'[path + [i]]][j].user == mem'[tree[path]][i].user)
  }

  lemma AdmitsStep(m: Memory, t: Tree, m': Memory, t': Tree, va: seq<nat>, k: nat, n: nat)
    requires IsVa(va) && Admits(m, t, va, k, n) && k < n <= 3 && SameBut(m, m', t, va[..k]) && FreshBelow(m, m', t, t', va[..k], va[k])
    requires va[..k] in t && t[va[..k]] in m' && va[k] < |m'[t[va[..k]]]| && m'[t[va[..k]]][va[k]].user
    ensures Admits(m', t', va, k + 1, n)
  {
    assert va[..k] + [va[k]] == va[..k + 1];
    forall j | k + 1 <= j < n && va[..j] in t' && t'[va[..j]] in m' && va[j] < |m'[t'[va[..j]]]|
      ensures m'[t'[va[..j]]][va[j]].present ==> m'[t'[va[..j]]][va[j]].user
    {
      assert |va[..j]| == j && |va[..k]| == k && |va[..k + 1]| == k + 1;
      if va[..j] in t {
        assert m'[t[va[..j]]] == m[t[va[..j]]];
      } else {
        assert va[..j] == va[..k + 1];
      }
    }
  }

  lemma EmptyFresh(mem: Memory, tree: Tree, path: seq<nat>, i: nat, page: nat, user: bool)
    requires Shape(mem, tree) && path in tree && i < 512 && path + [i] !in tree && page !in tree.Values
    ensures FreshBelow(mem, HungMemory(mem, tree[path], i, page, user, EmptyPage()), tree, tree[path + [i] := page], path, i)
  {
    hide Points, Rooted;
    HungSame(mem, tree, path, i, page, user, EmptyPage(), path);
  }

  lemma SplitFresh(mem: Memory, tree: Tree, path: seq<nat>, i: nat, page: nat)
    requires Shape(mem, tree) && path in tree && i < 512 && path + [i] !in tree && page !in tree.Values
    requires tree[path] in mem && i < |mem[tree[path]]|
    ensures var e := mem[tree[path]][i];
      FreshBelow(mem, HungMemory(mem, tree[path], i, page, e.user, SplitTable(e, |path|)), tree, tree[path + [i] := page], path, i)
  {
    hide Points, Rooted;
    var e := mem[tree[path]][i];
    HungSame(mem, tree, path, i, page, e.user, SplitTable(e, |path|), path);
    assert forall j :: 0 <= j < 512 ==> SplitEntry(e, |path|, j).user == e.user;
  }

  // ---------------------------------------------------------------- what is mapped shows

  /** An entry of a last table that is not empty shows. */
  lemma EntryShows(mem: Memory, tree: Tree, va: seq<nat>)
    requires Shape(mem, tree) && Tidy(mem, tree) && IsVa(va) && va[..3] in tree && mem[tree[va[..3]]][va[3]] != ZERO
    ensures Look(mem, tree[[]], va, 0) != Fault
  {
    hide Points, Rooted, PathUser, Aligned, Low;
    assert Fine(None, va[..3], va[3], mem[tree[va[..3]]][va[3]]);
    LookDown(mem, tree, va, 3);
    assert Look(mem, tree[va[..3]], va, 3) != Fault;
  }

  /** An entry one level up that is not empty shows, or has a table below it. */
  lemma BlockShows(mem: Memory, tree: Tree, va: seq<nat>)
    requires Shape(mem, tree) && Tidy(mem, tree) && IsVa(va) && va[..2] in tree && mem[tree[va[..2]]][va[2]] != ZERO
    ensures va[..3] in tree || Look(mem, tree[[]], va, 0) != Fault
  {
    hide Rooted, PathUser, Aligned, Low;
    assert |va[..2]| == 2 && va[..2] + [va[2]] == va[..3];
    var e := mem[tree[va[..2]]][va[2]];
    assert Fine(None, va[..2], va[2], e) && Points(mem, tree, va[..2], va[2]);
    LookDown(mem, tree, va, 2);
    if LeafAt(2, e) {
      assert Look(mem, tree[va[..2]], va, 2) != Fault;
    }
  }

  /** There are no large pages at the top. */
  lemma LargeBelow(mem: Memory, tree: Tree, path: seq<nat>, i: nat)
    requires Shape(mem, tree) && path in tree && i < 512
    ensures tree[path] in mem && |mem[tree[path]]| == 512 && (mem[tree[path]][i].present && mem[tree[path]][i].large ==> path != [])
  {
    hide Rooted;
    assert Points(mem, tree, path, i);
  }

  /** Page numbers below the canonical hole. */
  lemma PageAddress(n: nat)
    requires n < 0x8_0000_0000
    ensures Canonical(n * 4096) && n * 4096 / 4096 == n && n * 4096 % 4096 == 0 && n * 4096 < CANON_LIMIT
  {
    DivideUnique(n * 4096, 0x8000_0000_0000, 0, n * 4096);
  }

  lemma SlotOf(n: nat)
    ensures n * 4096 / 0x80_0000_0000 == n / 0x800_0000
  {
    var q, r := n / 0x800_0000, n % 0x800_0000;
    assert n * 4096 == q * 0x80_0000_0000 + r * 4096;
    DivideUnique(n * 4096, 0x80_0000_0000, q, r * 4096);
  }

  lemma UserSlot(n: nat, kernel: set<nat>)
    requires n < 0x8_0000_0000 && UserAddress(n * 4096, kernel)
    ensures IsVa(Ix(n)) && Ix(n)[0] !in kernel
  {
    SlotOf(n);
    IxIsVa(n);
    assert n / 0x800_0000 < 512;
  }

  lemma FreshNone(mem: Memory, tree: Tree, path: seq<nat>, i: nat)
    ensures FreshBelow(mem, mem, tree, tree, path, i)
  {
  }

  /** User addresses that show nothing. */
  ghost predicate Vacant(mem: Memory, root: nat, first: nat, n: nat, kernel: set<nat>) {
    forall k :: first <= k < first + n ==> Look(mem, root, Ix(k), 0) == Fault && UserAddress(k * 4096, kernel)
  }

  /** The next page of a run shows nothing while the ones before it are mapped. */
  lemma VacantNext(mem: Memory, mem': Memory, root: nat, first: nat, n: nat, done: nat, kernel: set<nat>, kind: View -> bool)
    requires Vacant(mem, root, first, n, kernel) && RunView(mem, mem', root, first, done, kind) && done < n && first + n <= 0x8_0000_0000
    ensures IsVa(Ix(first + done)) && Look(mem', root, Ix(first + done), 0) == Fault && UserAddress((first + done) * 4096, kernel)
    ensures Ix(first + done)[0] !in kernel
  {
    hide Look, Ix, UserAddress;
    IxIsVa(first + done);
    UserSlot(first + done, kernel);
    if InRun(Ix(first + done), first, done) {
      var j :| first <= j < first + done && Ix(first + done) == Ix(j);
      IxInjective(first + done, j);
    }
  }

  // ---------------------------------------------------------------- tables near the top

  /** New tables are at most at a depth. */
  ghost predicate Shallow(tree: Tree, tree': Tree, depth: nat) { forall q :: q in tree' && q !in tree ==> |q| <= depth }

  lemma ShallowNone(tree: Tree, depth: nat)
    ensures Shallow(tree, tree, depth)
  {
  }

  lemma ShallowJoin(a: Tree, b: Tree, c: Tree, k: nat, depth: nat)
    requires Shallow(a, b, depth) && Shallow(b, c, k) && k <= depth
    ensures Shallow(a, c, depth)
  {
  }

  lemma ShallowAt(tree: Tree, tree': Tree, depth: nat, q: seq<nat>)
    requires Shallow(tree, tree', depth) && |q| > depth
    ensures q in tree' ==> q in tree
  {
  }

  lemma FreshShallow(mem: Memory, mem': Memory, tree: Tree, tree': Tree, path: seq<nat>, i: nat)
    requires FreshBelow(mem, mem', tree, tree', path, i)
    ensures Shallow(tree, tree', |path| + 1)
  {
  }

  lemma LargeIsOurs(kernel: set<nat>, path: seq<nat>, i: nat, p: nat, rw: bool, nx: bool)
    ensures Fine(Some(kernel), path, i, LargeEntry(p, rw, nx)) && Fine(None, path, i, LargeEntry(p, rw, nx))
  {
  }

  /** No table hangs where the two-megabyte pages of a run would be. */
  ghost predicate Bare(tree: Tree, first: nat, n: nat) {
    forall k :: first <= k < first + n && k % 512 == 0 ==> |Ix(k)| == 4 && Ix(k)[..3] !in tree
  }

  lemma BareAt(tree: Tree, tree': Tree, first: nat, n: nat, done: nat)
    requires Bare(tree, first, n) && Shallow(tree, tree', 2) && done < n && first % 512 == 0 && done % 512 == 0
    ensures |Ix(first + done)| == 4 && Ix(first + done)[..3] !in tree'
  {
    hide Ix;
    assert (first + done) % 512 == 0;
    assert |Ix(first + done)[..3]| == 3;
  }

  // ---------------------------------------------------------------- all that a new table keeps

  /** What hanging a table keeps: views, tables, order, and where the user is admitted. */
  ghost predicate WellHung(mem: Memory, tree: Tree, mem': Memory, tree': Tree, path: seq<nat>, i: nat, ours: bool, kernel: set<nat>) {
    && Shape(mem', tree') && [] in tree && SameViews(mem, mem', tree[[]]) && Grown(mem, tree, tree.Values, mem', tree') && SameBut(mem, mem', tree, path)
    && Tidy(mem', tree') && FreshBelow(mem, mem', tree, tree', path, i) && (Ours(mem, tree, kernel) && ours ==> Ours(mem', tree', kernel))
  }

  lemma HungEmpty(mem: Memory, tree: Tree, path: seq<nat>, i: nat, page: nat, user: bool, kernel: set<nat>)
    requires Shape(mem, tree) && path in tree && |path| <= 2 && i < 512 && path + [i] !in tree && page !in tree.Values && Tidy(mem, tree)
    requires tree[path] in mem && i < |mem[tree[path]]| && !mem[tree[path]][i].present
    ensures WellHung(mem, tree, HungMemory(mem, tree[path], i, page, user, EmptyPage()), tree[path + [i] := page], path, i,
                     user || (if path == [] then i else path[0]) in kernel, kernel)
  {
    hide Shape, SameViews, Grown, EmptyPage, SameBut, Orderly, FreshBelow, HungMemory;
    ShapeEntry(mem, tree, path, i);
    EmptyTable(mem, tree, path, i, page, user);
    OthersHung(mem, tree, path, i, page, user, EmptyPage());
    EmptyOrderly(mem, tree, path, i, page, user, None);
    EmptyFresh(mem, tree, path, i, page, user);
    if Ours(mem, tree, kernel) && (user || (if path == [] then i else path[0]) in kernel) {
      EmptyOrderly(mem, tree, path, i, page, user, Some(kernel));
    }
  }

  lemma HungSplit(mem: Memory, tree: Tree, path: seq<nat>, i: nat, page: nat, kernel: set<nat>)
    requires Shape(mem, tree) && path in tree && 1 <= |path| <= 2 && i < 512 && path + [i] !in tree && page !in tree.Values && Tidy(mem, tree)
    requires tree[path] in mem && i < |mem[tree[path]]| && mem[tree[path]][i].present && mem[tree[path]][i].large
    ensures var e := mem[tree[path]][i];
      WellHung(mem, tree, HungMemory(mem, tree[path], i, page, e.user, SplitTable(e, |path|)), tree[path + [i] := page], path, i, true, kernel)
  {
    hide Shape, SameViews, Grown, SplitTable, SameBut, Orderly, FreshBelow, HungMemory;
    var e := mem[tree[path]][i];
    ShapeEntry(mem, tree, path, i);
    SplitLarge(mem, tree, path, i, page);
    OthersHung(mem, tree, path, i, page, e.user, SplitTable(e, |path|));
    SplitOrderly(mem, tree, path, i, page, None);
    SplitFresh(mem, tree, path, i, page);
    if Ours(mem, tree, kernel) {
      SplitOrderly(mem, tree, path, i, page, Some(kernel));
    }
  }
}
