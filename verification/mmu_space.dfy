/**
 An address space: x86_64_pt_child, x86_64_map_page_raw, translation, the three
 ways of mapping user memory with their undo, and demand faults. The page
 allocator hands out pages that are not in use, zeroed, or fails.
 */
module AddressSpaces {
  import opened Basics
  import opened PageTable
  import opened AddressViews
  import opened AddressAccess

  datatype Error = Ok | EINVAL | ENOMEM | EPERM | EEXIST | EFAULT | ENOTSUP | E2BIG

  const MAX_USER_PAGES: nat := 16384

  function Pages(bytes: nat): nat { (bytes + 4095) / 4096 }

  predicate CanWrite(rwx: nat) { rwx / 2 % 2 == 1 }
  predicate CanExecute(rwx: nat) { rwx / 4 % 2 == 1 }

  /** Readable, no unknown bit, and not both writable and executable. */
  predicate RwxOk(rwx: nat) { rwx < 8 && rwx % 2 == 1 && !(CanWrite(rwx) && CanExecute(rwx)) }

  /** Read only, read and write, or read and execute. */
  lemma RightsAre(rwx: nat)
    ensures RwxOk(rwx) <==> rwx in {1, 3, 5}
    ensures RwxOk(rwx) ==> (CanWrite(rwx) <==> rwx == 3) && (CanExecute(rwx) <==> rwx == 5)
  {
    if rwx < 8 {
      assert rwx in {0, 1, 2, 3, 4, 5, 6, 7};
    }
  }

  lemma RwxExclusive(rwx: nat)
    requires RwxOk(rwx)
    ensures CanWrite(rwx) ==> !CanExecute(rwx)
  {
  }

  function AlignUp(x: nat, unit: nat): nat
    requires unit > 0
  {
    (x + unit - 1) / unit * unit
  }

  /** A power of two divides every larger one. */
  lemma {:induction false} Power2Divides(n: nat, k: nat) returns (m: nat)
    requires Power2(n) && Power2(k) && n >= k
    ensures n == k * m
    decreases k
  {
    if k == 1 {
      m := n;
    } else {
      m := Power2Divides(n / 2, k / 2);
      assert n == 2 * (n / 2) && k == 2 * (k / 2);
      Double(k / 2, m);
    }
  }

  lemma Double(h: nat, m: nat)
    ensures 2 * (h * m) == 2 * h * m
  {
  }

  lemma PageIsPower2()
    ensures Power2(4096)
  {
    assert Power2(1) && Power2(2) && Power2(4) && Power2(8);
    assert Power2(16) && Power2(32) && Power2(64) && Power2(128);
    assert Power2(256) && Power2(512) && Power2(1024) && Power2(2048);
  }

  lemma MultipleOf(unit: nat, k: nat, m: nat, q: nat)
    requires k > 0 && unit == k * m
    ensures q * unit % k == 0
  {
    Regroup(q, k, m);
    RemainderIs(q * unit, k, q * m, 0);
  }

  lemma Regroup(q: nat, k: nat, m: nat)
    ensures q * (k * m) == k * (q * m)
  {
  }

  lemma LargeIsPower2()
    ensures Power2(0x20_0000)
  {
    PageIsPower2();
    assert Power2(0x2000) && Power2(0x4000) && Power2(0x8000) && Power2(0x1_0000);
    assert Power2(0x2_0000) && Power2(0x4_0000) && Power2(0x8_0000) && Power2(0x10_0000);
  }

  lemma UnitFacts(x: nat, align: nat, least: nat, unit: nat)
    requires Power2(align) && (least == 4096 || least == 0x20_0000) && unit == if align < least then least else align
    ensures align > 0 && x <= AlignUp(x, unit) && AlignUp(x, unit) % align == 0 && AlignUp(x, unit) % 4096 == 0
    ensures AlignUp(x, unit) % least == 0
  {
    hide Power2;
    PageIsPower2();
    LargeIsPower2();
    var q := (x + unit - 1) / unit;
    Parts(x + unit - 1, unit);
    var m := Power2Divides(unit, 4096);
    MultipleOf(unit, 4096, m, q);
    var l := Power2Divides(unit, least);
    MultipleOf(unit, least, l, q);
    Positive(align);
    var k := Power2Divides(unit, align);
    MultipleOf(unit, align, k, q);
  }

  lemma WholeBlocks(v: nat, bytes: nat)
    requires v % 0x20_0000 == 0 && bytes % 0x20_0000 == 0
    ensures v / 4096 % 512 == 0 && Pages(bytes) % 512 == 0
  {
    Blocks(v);
    Blocks(bytes);
    assert Pages(bytes) == bytes / 4096;
  }

  lemma Blocks(v: nat)
    requires v % 0x20_0000 == 0
    ensures v / 4096 % 512 == 0 && v % 4096 == 0
  {
    var q := v / 0x20_0000;
    assert v == q * 512 * 4096;
    assert v / 4096 == q * 512;
  }

  lemma FixedRange(address: nat, bytes: nat)
    requires address % 4096 == 0 && address < CANON_LIMIT && 0 < bytes <= CANON_LIMIT - address
    ensures address + Pages(bytes) * 4096 <= CANON_LIMIT && address / 4096 + Pages(bytes) <= 0x8_0000_0000
  {
    var q := address / 4096;
    assert address == q * 4096;
    assert Pages(bytes) <= 0x8_0000_0000 - q;
  }

  lemma Positive(n: nat)
    requires Power2(n)
    ensures n > 0
  {
  }

  /** The arguments of an allocation. */
  predicate Asked(bytes: nat, align: nat, rwx: nat) { 0 < bytes && Power2(align) && align <= 0x4000_0000 && RwxOk(rwx) }

  /** A fixed run in user addresses that stays in one slot. */
  predicate FixedOk(address: nat, bytes: nat, rwx: nat) {
    && 0 < bytes <= MAX_USER_PAGES * 4096 && address % 4096 == 0 && 0x1_0000 <= address < CANON_LIMIT && bytes <= CANON_LIMIT - address && RwxOk(rwx)
    && (address + Pages(bytes) * 4096 - 1) / 0x80_0000_0000 == address / 0x80_0000_0000
  }

  lemma NotVacant(mem: Memory, root: nat, address: nat, n: nat, i: nat, kernel: set<nat>)
    requires address % 4096 == 0 && i < n && Look(mem, root, Ix((address + i * 4096) / 4096), 0).Hit?
    ensures !Vacant(mem, root, address / 4096, n, kernel)
  {
    hide Look, Ix, UserAddress;
    assert (address + i * 4096) / 4096 == address / 4096 + i;
  }

  /** The first address from next on that is a multiple of the unit. */
  predicate Placed(next: nat, unit: nat, v: nat) { unit > 0 && v % unit == 0 && next <= v < next + unit }

  /** Pages and their guard page below the limit, and no more pages than a process may have. */
  predicate Fits(count: nat, v: nat, n: nat) { count + n <= MAX_USER_PAGES && v + n * 4096 + 4096 <= USER_LIMIT }

  function Unit(align: nat, least: nat): nat { if align < least then least else align }

  lemma PlacedIs(next: nat, unit: nat, v: nat)
    requires unit > 0
    ensures Placed(next, unit, v) <==> v == AlignUp(next, unit)
  {
    var q := (next + unit - 1) / unit;
    assert next + unit - 1 == q * unit + (next + unit - 1) % unit;
    DivideUnique(q * unit, unit, q, 0);
    if Placed(next, unit, v) {
      var k := v / unit;
      assert v == k * unit;
      OneUnitMore(k, unit);
      OneUnitMore(q, unit);
      if k < q {
        Multiples(k + 1, q, unit);
        assert false;
      } else if q < k {
        Multiples(q + 1, k, unit);
        assert false;
      }
    }
  }

  lemma OneUnitMore(k: nat, unit: nat)
    ensures (k + 1) * unit == k * unit + unit
  {
  }

  /** Frame numbers that fit an entry. */
  const FRAMES: nat := 0x100_0000_0000

  /** What is in use and what is free: no page is both, and all have numbers that fit. */
  ghost predicate Stock(pages: set<nat>, free: set<nat>) {
    free !! pages && (forall p :: p in pages ==> 0 < p < FRAMES) && forall p :: p in free ==> 0 < p < FRAMES
  }

  /** At most k free pages are gone. */
  ghost predicate Spent(free: set<nat>, free': set<nat>, k: nat) { free' <= free && |free'| >= |free| - k }

  lemma SpentNone(free: set<nat>, k: nat)
    ensures Spent(free, free, k)
  {
  }

  lemma SpentJoin(a: set<nat>, b: set<nat>, c: set<nat>, j: nat, k: nat, n: nat)
    requires Spent(a, b, j) && Spent(b, c, k) && j + k <= n
    ensures Spent(a, c, n)
  {
  }

  lemma SpentSize(a: set<nat>, b: set<nat>, k: nat)
    requires Spent(a, b, k)
    ensures |b| >= |a| - k
  {
  }

  /** Where 512 aligned pages of a set begin. */
  function Starts(ps: set<nat>): set<nat> { set p | p in ps && p % 512 == 0 && Block(p) <= ps }

  /** A set with a block in it has 512 pages. */
  lemma FewStarts(ps: set<nat>)
    ensures |ps| < 2 ==> Starts(ps) == {}
  {
    hide Frames;
    if p :| p in Starts(ps) {
      assert p in Block(p) && p + 1 in Block(p);
      assert {p, p + 1} <= ps;
      SubsetSize({p, p + 1}, ps);
    }
  }

  lemma {:induction false} SubsetSize(a: set<nat>, b: set<nat>)
    requires a <= b
    ensures |a| <= |b|
  {
    if a != {} {
      var x :| x in a;
      SubsetSize(a - {x}, b - {x});
    }
  }

  lemma StartsLess(ps: set<nat>, x: nat)
    ensures |Starts(ps - {x})| >= |Starts(ps)| - 1
  {
    hide Frames;
    var a, b, s := Starts(ps), Starts(ps - {x}), x - x % 512;
    forall p | p in a && p != s
      ensures p in b
    {
      assert p % 512 == 0 && s % 512 == 0;
      assert x !in Block(p);
    }
    SubsetSize(a - {s}, b);
  }

  lemma {:induction false} StartsGone(ps: set<nat>, qs: set<nat>)
    requires qs <= ps
    ensures |Starts(qs)| >= |Starts(ps)| - |ps - qs|
    decreases |ps - qs|
  {
    hide Starts;
    if x :| x in ps - qs {
      StartsLess(ps, x);
      StartsGone(ps - {x}, qs);
      assert ps - {x} - qs == ps - qs - {x};
    } else {
      assert ps == qs;
    }
  }

  lemma StartsSpent(ps: set<nat>, qs: set<nat>, k: nat)
    requires Spent(ps, qs, k)
    ensures |Starts(qs)| >= |Starts(ps)| - k
  {
    hide Starts;
    StartsGone(ps, qs);
    assert |ps - qs| + |qs| == |ps| by { assert ps == (ps - qs) + qs; }
  }

  lemma StartsBlock(ps: set<nat>, p: nat)
    ensures p in Starts(ps) ==> |Starts(ps - Block(p))| >= |Starts(ps)| - 1
  {
    hide Frames;
    if p in Starts(ps) {
      var a, b := Starts(ps), Starts(ps - Block(p));
      forall q | q in a && q != p
        ensures q in b
      {
        assert q % 512 == 0 && p % 512 == 0;
      }
      SubsetSize(a - {p}, b);
    }
  }

  class AddressSpace {
    const root: nat
    const kernelSlots: set<nat>
    const nxSupported: bool
    var mem: Memory
    /** Pages in use here, and pages that the allocator has left. */
    var pages: set<nat>
    var free: set<nat>
    var next: nat
    var count: nat
    ghost var tree: Tree

    ghost predicate Valid()
      reads this`mem, this`pages, this`free, this`tree
    {
      Shape(mem, tree) && tree[[]] == root && tree.Values <= pages && Tidy(mem, tree) && Stock(pages, free)
    }

    /** The page allocator: a free page, or 0 if there is none. */
    method AllocPage() returns (p: nat)
      requires Stock(pages, free)
      modifies this`pages, this`free
      ensures if p == 0 then pages == old(pages) && free == old(free) == {}
        else p in old(free) && p !in old(pages) && pages == old(pages) + {p} && free == old(free) - {p} && p < FRAMES
      ensures Stock(pages, free) && Spent(old(free), free, 1)
    {
      if free == {} {
        return 0;
      }
      p :| p in free;
      pages, free := pages + {p}, free - {p};
    }

    /** Give pages back. */
    method FreePages(ps: set<nat>)
      requires Stock(pages, free)
      modifies this`pages, this`free
      ensures pages == old(pages) - ps && free == old(free) + old(pages) * ps && Stock(pages, free)
    {
      pages, free := pages - ps, free + pages * ps;
    }

    /** The table below an entry, made or split off if need be. */
    method PtChild(table: nat, idx: nat, level: nat, user: bool, ghost path: seq<nat>) returns (e: Error, child: nat)
      requires Valid() && 2 <= level <= 4 && idx < 512 && path in tree && tree[path] == table && |path| == 4 - level
      requires table in mem && idx < |mem[table]|
      modifies this`mem, this`pages, this`free, this`tree
      ensures Valid() && SameViews(old(mem), mem, root) && Grew(old(mem), old(tree), old(pages), mem, tree, pages)
      ensures e == Ok ==> path + [idx] in tree && tree[path + [idx]] == child && (user ==> mem[table][idx].user)
      ensures path + [idx] in old(tree) ==> mem == old(mem) && tree == old(tree) && pages == old(pages) && free == old(free)
      ensures path + [idx] in old(tree) && old(mem)[table][idx].user ==> e == Ok
      ensures SameBut(old(mem), mem, old(tree), path) && FreshBelow(old(mem), mem, old(tree), tree, path, idx)
      ensures Spent(old(free), free, 1) && (e == ENOMEM ==> old(free) == {})
      ensures e == EPERM ==> user && old(mem)[table][idx].present && !old(mem)[table][idx].user
      ensures Ours(old(mem), old(tree), kernelSlots) && (user || (if path == [] then idx else path[0]) in kernelSlots) ==> Ours(mem, tree, kernelSlots)
      ensures e in {Ok, ENOMEM, EPERM}
    {
      hide Shape, SameViews, Grown, SplitTable, EmptyPage, SameBut, Orderly, Stock, Spent, FreshBelow;
      SpentNone(free, 1);
      FreshNone(mem, tree, path, idx);
      child := 0;
      ShapeEntry(mem, tree, path, idx);
      SameButNow(mem, tree, path);
      if path + [idx] in tree {
        ShapeChild(mem, tree, path, idx);
      }
      var entry := mem[table][idx];
      GrewNot(mem, tree, pages);
      LargeBelow(mem, tree, path, idx);
      if !entry.present {
        var p := AllocPage();
        if p == 0 {
          return ENOMEM, 0;
        }
        HungEmpty(mem, tree, path, idx, p, user, kernelSlots);
        Hang(table, idx, p, user, EmptyPage(), path, old(pages));
      } else if entry.large {
        if level != 2 && level != 3 {
          assert false;
        }
        var p := AllocPage();
        if p == 0 {
          return ENOMEM, 0;
        }
        var parts := Split(entry, 4 - level);
        HungSplit(mem, tree, path, idx, p, kernelSlots);
        Hang(table, idx, p, entry.user, parts, path, old(pages));
      }
      ShapeEntry(mem, tree, path, idx);
      if user && !mem[table][idx].user {
        return EPERM, 0;
      }
      return Ok, mem[table][idx].frame;
    }

    /** Fill a fresh page and point an entry to it. */
    method Hang(table: nat, idx: nat, p: nat, user: bool, t: seq<Entry>, ghost path: seq<nat>, ghost was: set<nat>)
      requires table in mem && idx < |mem[table]| && p != table && p !in was && pages == was + {p} && tree.Values <= was
      requires [] in tree && path + [idx] != [] && tree[[]] == root
      requires Shape(HungMemory(mem, table, idx, p, user, t), tree[path + [idx] := p])
      requires Grown(mem, tree, tree.Values, HungMemory(mem, table, idx, p, user, t), tree[path + [idx] := p])
      requires Tidy(HungMemory(mem, table, idx, p, user, t), tree[path + [idx] := p]) && Stock(pages, free)
      modifies this`mem, this`tree
      ensures mem == HungMemory(old(mem), table, idx, p, user, t) && tree == old(tree)[path + [idx] := p]
      ensures Valid() && Grew(old(mem), old(tree), was, mem, tree, pages) && mem[table][idx] == TableEntry(p, user)
    {
      hide Shape, Grown, Tidy, Stock;
      GrownFresh(mem, tree, was, HungMemory(mem, table, idx, p, user, t), path + [idx], p);
      mem := mem[p := t];
      mem := mem[table := mem[table][idx := TableEntry(p, user)]];
      assert mem == HungMemory(old(mem), table, idx, p, user, t);
      tree := tree[path + [idx] := p];
    }

    /** The loop that fills a split table. */
    method Split(e: Entry, k: nat) returns (t: seq<Entry>)
      ensures t == SplitTable(e, k)
    {
      t := [];
      while |t| < 512
        invariant |t| <= 512 && t == SplitTable(e, k)[..|t|]
      {
        t := t + [SplitEntry(e, k, |t|)];
      }
    }

    method StepDown(table: nat, va: seq<nat>, k: nat, user: bool, create: bool) returns (e: Error, child: nat)
      requires Valid() && IsVa(va) && k < 3 && va[..k] in tree && tree[va[..k]] == table && (user ==> PathUser(mem, tree, va[..k]))
      modifies this`mem, this`pages, this`free, this`tree
      ensures Valid() && SameViews(old(mem), mem, root) && Grew(old(mem), old(tree), old(pages), mem, tree, pages)
      ensures e == Ok ==> va[..k + 1] in tree && tree[va[..k + 1]] == child && (user ==> PathUser(mem, tree, va[..k + 1]))
      ensures va[..k + 1] in old(tree) && PathUser(old(mem), old(tree), va[..k + 1]) ==>
        e == Ok && mem == old(mem) && tree == old(tree) && pages == old(pages) && free == old(free)
      ensures SameBut(old(mem), mem, old(tree), va[..k])
      ensures user && e == Ok && Admits(old(mem), old(tree), va, k, 3) ==> Admits(mem, tree, va, k + 1, 3)
      ensures Shallow(old(tree), tree, k + 1)
      ensures Spent(old(free), free, 1) && (e == ENOMEM ==> old(free) == {})
      ensures e == EPERM ==> user && !Admits(old(mem), old(tree), va, k, 3)
      ensures e == EFAULT ==> !create
      ensures Ours(old(mem), old(tree), kernelSlots) && (user || va[0] in kernelSlots) ==> Ours(mem, tree, kernelSlots)
      ensures e in {Ok, ENOMEM, EPERM, EFAULT}
    {
      hide Shape, SameViews, Grew, PathUser, SameBut, Tidy, Ours, FreshBelow, Stock, Spent, Shallow;
      SpentNone(free, 1);
      ShapeEntry(mem, tree, va[..k], va[k]);
      ShallowNone(tree, k + 1);
      assert va[..k] == [] <==> k == 0;
      SameButNow(mem, tree, va[..k]);
      GrewNot(mem, tree, pages);
      assert va[..k] + [va[k]] == va[..k + 1];
      if va[..k + 1] in tree {
        UserStep(mem, tree, va, k);
      }
      if !create && (!mem[table][va[k]].present || mem[table][va[k]].large) {
        return EFAULT, 0;
      }
      e, child := PtChild(table, va[k], 4 - k, user, va[..k]);
      FreshShallow(old(mem), mem, old(tree), tree, va[..k], va[k]);
      if e == Ok {
        PathUserGrown(old(mem), old(tree), old(pages), mem, tree, pages, va[..k], va[k]);
        if user && Admits(old(mem), old(tree), va, k, 3) {
          AdmitsStep(old(mem), old(tree), mem, tree, va, k, 3);
        }
      }
    }

    /**
     Walk down to the table at a depth. Tables are made as needed, or, without create, a missing one ends the walk;
     for user access every entry must admit it.
     */
    method Descend(va: seq<nat>, depth: nat, user: bool, create: bool) returns (e: Error, table: nat)
      requires Valid() && IsVa(va) && depth <= 3
      modifies this`mem, this`pages, this`free, this`tree
      ensures Valid() && SameViews(old(mem), mem, root) && Grew(old(mem), old(tree), old(pages), mem, tree, pages)
      ensures e == Ok ==> va[..depth] in tree && tree[va[..depth]] == table && (user ==> PathUser(mem, tree, va[..depth]))
      ensures va[..depth] in old(tree) && PathUser(old(mem), old(tree), va[..depth]) ==>
        e == Ok && mem == old(mem) && tree == old(tree) && pages == old(pages) && free == old(free)
      ensures SameBelow(old(mem), mem, old(tree), depth) && Shallow(old(tree), tree, depth)
      ensures Spent(old(free), free, depth) && (e == ENOMEM ==> |old(free)| < depth)
      ensures e == EPERM ==> user && !Admits(old(mem), old(tree), va, 0, 3)
      ensures e == EFAULT ==> !create
      ensures Ours(old(mem), old(tree), kernelSlots) && (user || va[0] in kernelSlots) ==> Ours(mem, tree, kernelSlots)
      ensures e in {Ok, ENOMEM, EPERM, EFAULT}
    {
      hide Shape, SameViews, Grew, PathUser, LeafAt, SameBut, SameBelow, Tidy, Ours, Admits, Stock, Spent, Shallow;
      ShallowNone(tree, depth);
      SpentNone(free, depth);
      SpentNone(free, 0);
      SameBelowNow(mem, tree, depth);
      table, e := root, Ok;
      PathUserTop(mem, tree);
      assert va[..0] == [];
      GrewNot(mem, tree, pages);
      ghost var there := va[..depth] in tree && PathUser(mem, tree, va[..depth]);
      var k := 0;
      while k < depth
        invariant 0 <= k <= depth && e == Ok
        invariant Valid() && SameViews(old(mem), mem, root) && Grew(old(mem), old(tree), old(pages), mem, tree, pages)
        invariant va[..k] in tree && tree[va[..k]] == table && (user ==> PathUser(mem, tree, va[..k]))
        invariant there ==> mem == old(mem) && tree == old(tree) && pages == old(pages) && free == old(free)
        invariant SameBelow(old(mem), mem, old(tree), depth)
        invariant Spent(old(free), free, k) && Shallow(old(tree), tree, depth)
        invariant user && Admits(old(mem), old(tree), va, 0, 3) ==> Admits(mem, tree, va, k, 3)
        invariant Ours(old(mem), old(tree), kernelSlots) && (user || va[0] in kernelSlots) ==> Ours(mem, tree, kernelSlots)
      {
        ghost var m, t, p, f := mem, tree, pages, free;
        if there {
          OnUserPath(mem, tree, va, depth, k + 1);
        }
        e, table := StepDown(table, va, k, user, create);
        SameBelowStep(old(mem), old(tree), old(pages), m, t, p, mem, depth, va[..k]);
        SameViewsJoin(old(mem), m, mem, root);
        GrewJoin(old(mem), old(tree), old(pages), m, t, p, mem, tree, pages);
        ShallowJoin(old(tree), t, tree, k + 1, depth);
        SpentSize(old(free), f, k);
        SpentJoin(old(free), f, free, k, 1, k + 1);
        SpentJoin(old(free), f, free, k, 1, depth);
        if e != Ok {
          return;
        }
        k := k + 1;
      }
    }

    /** Write an entry that ends a walk. */
    method WriteLeaf(table: nat, va: seq<nat>, k: nat, e: Entry)
      requires Valid() && IsVa(va) && 2 <= k <= 3 && va[..k] in tree && tree[va[..k]] == table
      requires va[..k] + [va[k]] !in tree && (e.present ==> LeafAt(k, e)) && Fine(None, va[..k], va[k], e)
      modifies this`mem
      ensures Valid() && Grew(old(mem), tree, pages, mem, tree, pages)
      ensures Written(old(mem), mem, root, va, k, PathUser(old(mem), tree, va[..k]), e)
      ensures mem == Put(old(mem), table, va[k], e)
      ensures Ours(old(mem), tree, kernelSlots) && Fine(Some(kernelSlots), va[..k], va[k], e) ==> Ours(mem, tree, kernelSlots)
    {
      hide Points, Rooted, Look, LeafView, PathUser, Orderly, Fine, Stock;
      PutOrderly(mem, tree, va[..k], va[k], e, None);
      if Ours(mem, tree, kernelSlots) && Fine(Some(kernelSlots), va[..k], va[k], e) {
        PutOrderly(mem, tree, va[..k], va[k], e, Some(kernelSlots));
      }
      forall wa | IsVa(wa)
        ensures Look(Put(mem, table, va[k], e), root, wa, 0) ==
          if Through(wa, va[..k], va[k]) then Guard(PathUser(mem, tree, va[..k]), LeafView(wa, k, e)) else Look(mem, root, wa, 0)
      {
        LeafWritten(mem, tree, va, k, e, wa);
      }
      PutLeaf(mem, tree, va[..k], va[k], e);
      LeafGrown(mem, tree, va, k, e, pages);
      mem := mem[table := mem[table][va[k] := e]];
      assert mem == Put(old(mem), table, va[k], e);
    }

    /** x86_64_map_page_raw. */
    method MapPageRaw(v: nat, p: nat, flags: Entry, replace: bool) returns (e: Error)
      requires Valid() && flags.frame == 0 && v < 0x1_0000_0000_0000_0000
      modifies this`mem, this`pages, this`free, this`tree
      ensures Valid() && Grew(old(mem), old(tree), old(pages), mem, tree, pages)
      ensures e != Ok ==> SameViews(old(mem), mem, root)
      ensures e == Ok ==> Canonical(v) && v % 4096 == p % 4096 == 0 && p < 0x10_0000_0000_0000
      ensures e == Ok ==> OneView(old(mem), mem, root, Ix(v / 4096), Hit(p / 4096, flags.rw, flags.user, flags.nx, flags.large, flags.rest))
      ensures e == Ok ==> OtherPagesKept(old(mem), mem, root, v)
      ensures e == Ok && !replace ==> Look(old(mem), root, Ix(v / 4096), 0) == Fault
      ensures e == Ok && flags.user ==> UserAddress(v, kernelSlots)
      ensures e == Ok ==> Ix(v / 4096)[..3] in tree
      ensures e == EINVAL <==> !Canonical(v) || v % 4096 != 0 || p % 4096 != 0 || p >= 0x10_0000_0000_0000
      ensures e == EPERM ==> flags.user && (!UserAddress(v, kernelSlots) || !Admits(old(mem), old(tree), Ix(v / 4096), 0, 3))
      ensures e == EEXIST ==> !replace && Look(old(mem), root, Ix(v / 4096), 0) != Fault
      ensures Spent(old(free), free, 3) && (e == ENOMEM ==> |old(free)| < 3)
      ensures Ours(old(mem), old(tree), kernelSlots) && (flags.user || Ix(v / 4096)[0] in kernelSlots) ==> Ours(mem, tree, kernelSlots)
      ensures e in {Ok, EINVAL, EPERM, ENOMEM, EEXIST}
    {
      hide Shape, SameViews, Grew, Look, Ix, Canonical, UserAddress, OneView, OtherPagesKept, Tidy, Ours, Admits, Stock, Spent;
      SpentNone(free, 3);
      GrewNot(mem, tree, pages);
      if !Canonical(v) || v % 4096 != 0 || p % 4096 != 0 || p >= 0x10_0000_0000_0000 {
        return EINVAL;
      }
      if flags.user && !UserAddress(v, kernelSlots) {
        return EPERM;
      }
      IxIsVa(v / 4096);
      e := MapAt(Ix(v / 4096), flags.(frame := p / 4096, present := true), replace);
      if e == Ok {
        OnePageChanged(old(mem), mem, root, v, Hit(p / 4096, flags.rw, flags.user, flags.nx, flags.large, flags.rest));
      }
    }

    /** The walk and the write of x86_64_map_page_raw. */
    method MapAt(va: seq<nat>, entry: Entry, replace: bool) returns (e: Error)
      requires Valid() && IsVa(va) && entry.present
      modifies this`mem, this`pages, this`free, this`tree
      ensures Valid() && Grew(old(mem), old(tree), old(pages), mem, tree, pages)
      ensures e != Ok ==> SameViews(old(mem), mem, root)
      ensures e == Ok ==> va[..3] in tree
      ensures e == Ok ==> OneView(old(mem), mem, root, va, Hit(entry.frame, entry.rw, entry.user, entry.nx, entry.large, entry.rest))
      ensures e == Ok && !replace ==> Look(old(mem), root, va, 0) == Fault
      ensures Spent(old(free), free, 3) && (e == ENOMEM ==> |old(free)| < 3)
      ensures e == EEXIST ==> !replace && Look(old(mem), root, va, 0) != Fault
      ensures e == EPERM ==> entry.user && !Admits(old(mem), old(tree), va, 0, 3)
      ensures Ours(old(mem), old(tree), kernelSlots) && (entry.user || va[0] in kernelSlots) ==> Ours(mem, tree, kernelSlots)
      ensures e in {Ok, EPERM, ENOMEM, EEXIST}
    {
      hide Shape, SameViews, Grew, PathUser, Look, OneView, Written, Tidy, Ours, Admits, Stock, Spent;
      var table;
      e, table := Descend(va, 3, entry.user, true);
      if e != Ok {
        return;
      }
      ghost var m, t, g := mem, tree, pages;
      ShapeEntry(mem, tree, va[..3], va[3]);
      if !replace && mem[table][va[3]] != ZERO {
        EntryShows(mem, tree, va);
        ViewAt(old(mem), mem, root, va);
        return EEXIST;
      }
      if !replace {
        ZeroIsFault(mem, tree, va);
        ViewAt(old(mem), mem, root, va);
      }
      PathFlag(mem, tree, va);
      WriteLeaf(table, va, 3, entry);
      OneViewFrom(old(mem), m, mem, root, va, PathUser(m, t, va[..3]), entry);
      GrewJoin(old(mem), old(tree), old(pages), m, t, g, mem, tree, pages);
      return Ok;
    }

    /** The walk of the undo loops: every table on the way exists. */
    method Follow(va: seq<nat>) returns (table: nat)
      requires Valid() && IsVa(va) && va[..3] in tree
      ensures table == tree[va[..3]]
    {
      hide Points, Rooted;
      table := root;
      assert va[..0] == [];
      var k := 0;
      while k < 3
        invariant 0 <= k <= 3 && va[..k] in tree && table == tree[va[..k]]
      {
        TableOnPath(mem, tree, va, k);
        table := mem[table][va[k]].frame;
        k := k + 1;
      }
    }

    /** Undo one page: clear its entry and give its frame back. */
    method ClearPage(n: nat)
      requires Valid() && Safe(mem, root, tree, pages) && Ix(n)[..3] in tree && UserHit(Look(mem, root, Ix(n), 0))
      modifies this`mem, this`pages, this`free
      ensures Valid() && Safe(mem, root, tree, pages) && OneView(old(mem), mem, root, Ix(n), Fault)
      ensures pages <= old(pages) && old(pages) - pages <= {Look(old(mem), root, Ix(n), 0).frame}
      ensures Ours(old(mem), tree, kernelSlots) ==> Ours(mem, tree, kernelSlots)
    {
      hide Shape, Look, Ix, Safe, PathUser, Tidy, Ours, Stock;
      var va := Ix(n);
      IxIsVa(n);
      var table := Follow(va);
      PathFlag(mem, tree, va);
      ShapeEntry(mem, tree, va[..3], va[3]);
      var frame := mem[table][va[3]].frame;
      LeafFrame(mem, tree, va);
      SafeFacts(mem, root, tree, pages, va);
      WriteLeaf(table, va, 3, ZERO);
      ClearedView(old(mem), mem, root, va, PathUser(old(mem), tree, va[..3]));
      SafeLess(old(mem), mem, root, tree, pages, va);
      FreePages({frame});
    }

    /** One page of a run: a frame from the allocator, mapped, or given back. */
    method MapFresh(n: nat, rw: bool, nx: bool) returns (e: Error)
      requires Valid() && Safe(mem, root, tree, pages) && (rw ==> nx) && n < 0x8_0000_0000
      modifies this`mem, this`pages, this`free, this`tree
      ensures Valid() && Safe(mem, root, tree, pages) && Grown(old(mem), old(tree), old(pages), mem, tree)
      ensures e != Ok ==> SameViews(old(mem), mem, root)
      ensures e == Ok ==> Ix(n)[..3] in tree && Look(old(mem), root, Ix(n), 0) == Fault && UserAddress(n * 4096, kernelSlots)
      ensures e == Ok ==> exists x :: OneView(old(mem), mem, root, Ix(n), x) && UserPage(rw, nx)(x)
      ensures |free| >= |old(free)| - 4 && (e == ENOMEM ==> |old(free)| < 4)
      ensures Ours(old(mem), old(tree), kernelSlots) ==> Ours(mem, tree, kernelSlots)
      ensures e in {Ok, EPERM, ENOMEM, EEXIST}
      ensures Ours(old(mem), old(tree), kernelSlots) && UserAddress(n * 4096, kernelSlots) && Look(old(mem), root, Ix(n), 0) == Fault ==> e in {Ok, ENOMEM}
    {
      hide Shape, Look, Ix, Safe, SameViews, Grown, UserAddress, Canonical, Tidy, Ours, Admits, Stock;
      GrewNot(mem, tree, pages);
      var p := AllocPage();
      if p == 0 {
        return ENOMEM;
      }
      PageAddress(n);
      if Ours(mem, tree, kernelSlots) && UserAddress(n * 4096, kernelSlots) {
        UserSlot(n, kernelSlots);
        OursAdmits(mem, tree, Ix(n), kernelSlots);
      }
      IxIsVa(n);
      assert n * 4096 / 4096 == n && p * 4096 / 4096 == p;
      e := MapPageRaw(n * 4096, p * 4096, Entry(0, false, rw, true, false, nx, false, 0), false);
      GrownLess(old(mem), old(tree), old(pages), old(pages) + {p}, mem, tree, pages);
      if e != Ok {
        SafeSame(old(mem), mem, root, old(tree), tree, old(pages), old(pages));
        FreePages({p});
        SafeWider(mem, root, tree, old(pages), pages);
        return;
      }
      SafeMore(old(mem), mem, root, old(tree), tree, old(pages), pages, Ix(n), Hit(p, rw, true, nx, false, 0));
      return Ok;
    }

    /** Map a run of pages; on failure clear what was mapped. */
    method MapRun(first: nat, n: nat, rw: bool, nx: bool) returns (e: Error)
      requires Valid() && Safe(mem, root, tree, pages) && (rw ==> nx) && first + n <= 0x8_0000_0000
      modifies this`mem, this`pages, this`free, this`tree
      ensures Valid() && Safe(mem, root, tree, pages)
      ensures e != Ok ==> SameViews(old(mem), mem, root)
      ensures e == Ok ==> RunView(old(mem), mem, root, first, n, UserPage(rw, nx))
      ensures Ours(old(mem), old(tree), kernelSlots) ==> Ours(mem, tree, kernelSlots)
      ensures e in {Ok, EPERM, ENOMEM, EEXIST} && (e == ENOMEM ==> |old(free)| < 4 * n)
      ensures Ours(old(mem), old(tree), kernelSlots) && Vacant(old(mem), root, first, n, kernelSlots) ==> e in {Ok, ENOMEM}
    {
      hide Shape, Look, Ix, Safe, SameViews, Grown, UserAddress, RunView, OneView, UserPage, Tidy, Ours, Stock, Vacant;
      var done := 0;
      e := Ok;
      RunNone(mem, mem, root, first, UserPage(rw, nx));
      GrewNot(mem, tree, pages);
      while done < n
        invariant 0 <= done <= n && Valid() && Safe(mem, root, tree, pages) && e == Ok
        invariant RunView(old(mem), mem, root, first, done, UserPage(rw, nx)) && Hung(tree, first, done)
        invariant |free| >= |old(free)| - 4 * done && (Ours(old(mem), old(tree), kernelSlots) ==> Ours(mem, tree, kernelSlots))
      {
        ghost var m, t, g := mem, tree, pages;
        if Vacant(old(mem), root, first, n, kernelSlots) {
          VacantNext(old(mem), mem, root, first, n, done, kernelSlots, UserPage(rw, nx));
        }
        e := MapFresh(first + done, rw, nx);
        HungGrows(m, t, g, mem, tree, first, done);
        if e != Ok {
          RunSame(old(mem), m, mem, root, first, done, UserPage(rw, nx));
          ClearRun(first, done, rw, nx, old(mem));
          return;
        }
        ghost var x :| OneView(m, mem, root, Ix(first + done), x) && UserPage(rw, nx)(x);
        RunMore(old(mem), m, mem, root, first, done, UserPage(rw, nx), x);
        IxIsVa(first + done);
        HungMore(tree, first, done);
        done := done + 1;
      }
    }

    method ClearRun(first: nat, n: nat, rw: bool, nx: bool, ghost before: Memory)
      requires Valid() && Safe(mem, root, tree, pages) && first + n <= 0x8_0000_0000 && Hung(tree, first, n)
      requires RunView(before, mem, root, first, n, UserPage(rw, nx))
      modifies this`mem, this`pages, this`free
      ensures Valid() && Safe(mem, root, tree, pages) && SameViews(before, mem, root)
      ensures Ours(old(mem), tree, kernelSlots) ==> Ours(mem, tree, kernelSlots)
    {
      hide Shape, Look, Ix, Safe, SameViews, RunView, OneView, UserPage, Hung, Tidy, Ours, Stock;
      var j := 0;
      while j < n
        invariant 0 <= j <= n && Valid() && Safe(mem, root, tree, pages)
        invariant RunView(before, mem, root, first + j, n - j, UserPage(rw, nx))
        invariant Ours(old(mem), tree, kernelSlots) ==> Ours(mem, tree, kernelSlots)
      {
        ghost var m := mem;
        RunHead(before, mem, root, first + j, n - j, rw, nx);
        HungAt(tree, first, n, j);
        ClearPage(first + j);
        RunLess(before, m, mem, root, first + j, n - j, UserPage(rw, nx));
        j := j + 1;
      }
      RunNone(before, mem, root, first + j, UserPage(rw, nx));
    }

    /** x86_64_vmm_translate: permissions are gathered on the way down. */
    method Translate(v: nat) returns (e: Error, phys: nat, rw: bool, user: bool, nx: bool)
      requires Valid() && v < 0x1_0000_0000_0000_0000
      ensures e == Ok <==> Canonical(v) && Look(mem, root, Ix(v / 4096), 0).Hit?
      ensures e == Ok ==> var x := Look(mem, root, Ix(v / 4096), 0);
        phys == x.frame * 4096 + v % 4096 && rw == x.rw && user == x.user && nx == x.nx
      ensures e in {Ok, EFAULT}
    {
      hide Points, Rooted, Ix, Canonical, Gathered, Under, Leaf, Aligned;
      phys, rw, user, nx := 0, true, true, false;
      if !Canonical(v) {
        return EFAULT, phys, rw, user, nx;
      }
      var va := Ix(v / 4096);
      IxIsVa(v / 4096);
      assert va[..0] == [];
      GatherNothing(Look(mem, root, va, 0));
      var table, k := root, 0;
      while true
        invariant 0 <= k <= 3 && va[..k] in tree && tree[va[..k]] == table
        invariant Look(mem, root, va, 0) == Gathered(rw, user, nx, Look(mem, table, va, k))
        decreases 4 - k
      {
        var entry := mem[table][va[k]];
        ShapeEntry(mem, tree, va[..k], va[k]);
        if !entry.present {
          GatherLeaf(va, k, entry, rw, user, nx);
          return EFAULT, phys, rw, user, nx;
        }
        GatherLeaf(va, k, entry, rw, user, nx);
        GatherStep(entry, rw, user, nx, Look(mem, entry.frame, va, k + 1));
        rw, user, nx := rw && entry.rw, user && entry.user, nx || entry.nx;
        if LeafAt(k, entry) {
          LeafLevel(k, entry);
          PhysOffset(v, k);
          phys := Aligned(entry.frame, Span(k)) * 4096 + v % (Span(k) * 4096);
          return Ok, phys, rw, user, nx;
        }
        assert va[..k] + [va[k]] == va[..k + 1];
        table := entry.frame;
        k := k + 1;
      }
    }

    // -------------------------------------------------------------- x86_64_as_alloc_ex

    /** One promised page. */
    method MapLazy(n: nat, rw: bool) returns (e: Error)
      requires Valid() && Safe(mem, root, tree, pages)
      modifies this`mem, this`pages, this`free, this`tree
      ensures Valid() && Safe(mem, root, tree, pages) && Grew(old(mem), old(tree), old(pages), mem, tree, pages)
      ensures e != Ok ==> SameViews(old(mem), mem, root)
      ensures e == Ok ==> RunView(old(mem), mem, root, n, 1, LazyPage(rw)) && Open(mem, tree, n, 1, 3)
      ensures Spent(old(free), free, 3) && (e == ENOMEM ==> |old(free)| < 3)
      ensures Ours(old(mem), old(tree), kernelSlots) ==> Ours(mem, tree, kernelSlots)
      ensures Ours(old(mem), old(tree), kernelSlots) && Ix(n)[0] !in kernelSlots && Look(old(mem), root, Ix(n), 0) == Fault ==> e in {Ok, ENOMEM}
    {
      hide Shape, Look, Ix, Safe, SameViews, Grew, PathUser, Written, OneView, RunView, Open, LazyEntry, Tidy, Ours, Stock, Admits, Spent;
      var va := Ix(n);
      IxIsVa(n);
      if Ours(mem, tree, kernelSlots) && va[0] !in kernelSlots {
        OursAdmits(mem, tree, va, kernelSlots);
      }
      var table;
      e, table := Descend(va, 3, true, true);
      ghost var m, t, g := mem, tree, pages;
      GrownTables(old(mem), old(tree), old(pages), m, t, g);
      GrewPages(old(mem), old(tree), old(pages), m, t, g);
      SafeSame(old(mem), m, root, old(tree), t, old(pages), g);
      if e != Ok {
        return;
      }
      ShapeEntry(mem, tree, va[..3], va[3]);
      if mem[table][va[3]] != ZERO {
        EntryShows(mem, tree, va);
        ViewAt(old(mem), mem, root, va);
        return EEXIST;
      }
      ZeroIsFault(mem, tree, va);
      PathFlag(mem, tree, va);
      LazyFields(rw);
      assert |va[..3]| == 3;
      WriteLeaf(table, va, 3, LazyEntry(rw));
      GrewJoin(old(mem), old(tree), old(pages), m, t, g, mem, tree, pages);
      GrewNot(m, t, g);
      ViewAt(old(mem), m, root, va);
      LazyWritten(old(mem), m, mem, root, n, PathUser(m, t, va[..3]), rw);
      LazyWritten(m, m, mem, root, n, PathUser(m, t, va[..3]), rw);
      OneViewRun(old(mem), mem, root, n, LazyPage(rw), Lazy(LazyEntry(rw)));
      SafeMore(m, mem, root, t, t, g, g, va, Lazy(LazyEntry(rw)));
      UserSame(m, mem, t, g, va[..3]);
      OpenOne(mem, tree, n, 3);
      return Ok;
    }

    /** Take back a promised page. */
    method ClearLazy(n: nat, rw: bool)
      requires Valid() && Safe(mem, root, tree, pages) && Open(mem, tree, n, 1, 3)
      modifies this`mem, this`pages, this`free, this`tree
      ensures Valid() && Safe(mem, root, tree, pages) && Grew(old(mem), old(tree), old(pages), mem, tree, pages)
      ensures Cleared(old(mem), mem, root, n, 1)
      ensures Ours(old(mem), old(tree), kernelSlots) ==> Ours(mem, tree, kernelSlots)
    {
      hide Shape, Look, Ix, Safe, SameViews, Grew, PathUser, Written, OneView, Open, Cleared, Tidy, Ours, Stock, Spent, Admits;
      assert |Ix(n)[..3]| == 3 by { IxIsVa(n); }
      var va := Ix(n);
      IxIsVa(n);
      OpenAt(mem, tree, n, 1, 3, n);
      var e, table := Descend(va, 3, true, false);
      PathFlag(mem, tree, va);
      WriteLeaf(table, va, 3, ZERO);
      ClearedView(old(mem), mem, root, va, PathUser(old(mem), tree, va[..3]));
      OneViewCleared(old(mem), mem, root, n);
      SafeFault(old(mem), mem, root, tree, pages, va);
    }

    /** A run of promised pages; on failure the ones made are taken back, last first. */
    method LazyRun(first: nat, n: nat, rw: bool) returns (e: Error)
      requires Valid() && Safe(mem, root, tree, pages) && first + n <= 0x8_0000_0000
      modifies this`mem, this`pages, this`free, this`tree
      ensures Valid() && Safe(mem, root, tree, pages)
      ensures e != Ok ==> SameViews(old(mem), mem, root)
      ensures e == Ok ==> RunView(old(mem), mem, root, first, n, LazyPage(rw))
      ensures Ours(old(mem), old(tree), kernelSlots) ==> Ours(mem, tree, kernelSlots)
      ensures e == ENOMEM ==> |old(free)| < 3 * n
      ensures Ours(old(mem), old(tree), kernelSlots) && Vacant(old(mem), root, first, n, kernelSlots) ==> e in {Ok, ENOMEM}
    {
      hide Shape, Look, Ix, Safe, SameViews, Grew, PathUser, OneView, RunView, Open, LazyPage, Cleared, Tidy, Ours, Stock, Vacant, UserAddress;
      var done := 0;
      e := Ok;
      RunNone(mem, mem, root, first, LazyPage(rw));
      GrewNot(mem, tree, pages);
      OpenNone(mem, tree, first, 3);
      while done < n && e == Ok
        invariant 0 <= done <= n && Valid() && Safe(mem, root, tree, pages)
        invariant RunView(old(mem), mem, root, first, done, LazyPage(rw)) && Open(mem, tree, first, done, 3)
        invariant (Ours(old(mem), old(tree), kernelSlots) ==> Ours(mem, tree, kernelSlots)) && (e == Ok ==> |free| >= |old(free)| - 3 * done)
        invariant (e == ENOMEM ==> |old(free)| < 3 * n)
          && (Ours(old(mem), old(tree), kernelSlots) && Vacant(old(mem), root, first, n, kernelSlots) ==> e in {Ok, ENOMEM})
        decreases n - done, if e == Ok then 1 else 0
      {
        ghost var m, t, g, f := mem, tree, pages, free;
        if Vacant(old(mem), root, first, n, kernelSlots) {
          VacantNext(old(mem), mem, root, first, n, done, kernelSlots, LazyPage(rw));
        }
        e := MapLazy(first + done, rw);
        OpenGrows(m, t, g, mem, tree, pages, first, done, 3);
        if e == Ok {
          RunJoin(old(mem), m, mem, root, first, done, 1, LazyPage(rw));
          OpenJoin(mem, tree, first, done, 1, 3);
          done := done + 1;
        } else {
          RunSame(old(mem), m, mem, root, first, done, LazyPage(rw));
        }
      }
      if e != Ok {
        while done > 0
          invariant 0 <= done <= n && Valid() && Safe(mem, root, tree, pages)
          invariant RunView(old(mem), mem, root, first, done, LazyPage(rw)) && Open(mem, tree, first, done, 3)
          invariant Ours(old(mem), old(tree), kernelSlots) ==> Ours(mem, tree, kernelSlots)
        {
          done := done - 1;
          ghost var m, t, g := mem, tree, pages;
          OpenPart(mem, tree, first, done + 1, 3, done);
          ClearLazy(first + done, rw);
          OpenGrows(m, t, g, mem, tree, pages, first, done, 3);
          RunCut(old(mem), m, mem, root, first, done, 1, LazyPage(rw));
        }
        RunNone(old(mem), mem, root, first, LazyPage(rw));
      }
    }

    /** The page allocator: 512 aligned free pages, or 0 if there are none. */
    method AllocBlock() returns (p: nat)
      requires Stock(pages, free)
      modifies this`pages, this`free
      ensures if p == 0 then pages == old(pages) && free == old(free) && Starts(free) == {}
        else p in Starts(old(free)) && p % 512 == 0 && Block(p) <= old(free) && Block(p) !! old(pages) && pages == old(pages) + Block(p)
             && free == old(free) - Block(p)
      ensures Stock(pages, free)
    {
      hide Block;
      var starts := Starts(free);
      if starts == {} {
        return 0;
      }
      p :| p in starts;
      pages, free := pages + Block(p), free - Block(p);
    }

    /** One two-megabyte page. */
    method MapHuge(n: nat, rw: bool, nx: bool) returns (e: Error)
      requires Valid() && Safe(mem, root, tree, pages) && (rw ==> nx) && n % 512 == 0
      modifies this`mem, this`pages, this`free, this`tree
      ensures Valid() && Safe(mem, root, tree, pages) && Grew(old(mem), old(tree), old(pages), mem, tree, pages)
      ensures SameBelow(old(mem), mem, old(tree), 3)
      ensures e != Ok ==> SameViews(old(mem), mem, root) && SameBelow(old(mem), mem, old(tree), 2)
      ensures e == Ok ==> RunView(old(mem), mem, root, n, 512, UserPage(rw, nx)) && Open(mem, tree, n, 512, 2)
      ensures e == Ok ==> LargeHere(mem, tree, n, rw, nx) && OneEntry(old(mem), mem, old(tree), n)
      ensures |Starts(free)| >= |Starts(old(free))| - 3 && (e == ENOMEM ==> |Starts(old(free))| <= 2)
      ensures Shallow(old(tree), tree, 2) && (Ours(old(mem), old(tree), kernelSlots) ==> Ours(mem, tree, kernelSlots))
      ensures Ours(old(mem), old(tree), kernelSlots) && Ix(n)[0] !in kernelSlots && Look(old(mem), root, Ix(n), 0) == Fault && Ix(n)[..3] !in old(tree) ==>
        e in {Ok, ENOMEM}
    {
      hide Shape, Look, Ix, Safe, SameViews, Grew, PathUser, Written, RunView, Open, SameBelow, LargeHere, OneEntry, Block, LargeEntry,
        UserPage, Tidy, Ours, Stock, Admits, Spent, Shallow, Starts;
      var va := Ix(n);
      IxIsVa(n);
      if Ours(mem, tree, kernelSlots) && va[0] !in kernelSlots {
        OursAdmits(mem, tree, va, kernelSlots);
      }
      FewStarts(free);
      var table;
      e, table := Descend(va, 2, true, true);
      StartsSpent(old(free), free, 2);
      ghost var m, t, g := mem, tree, pages;
      GrownTables(old(mem), old(tree), old(pages), m, t, g);
      GrewPages(old(mem), old(tree), old(pages), m, t, g);
      SafeSame(old(mem), m, root, old(tree), t, old(pages), g);
      SameBelowMore(old(mem), m, old(tree), 2);
      if e != Ok {
        return;
      }
      ShapeEntry(mem, tree, va[..2], va[2]);
      if mem[table][va[2]] != ZERO {
        BlockShows(mem, tree, va);
        ViewAt(old(mem), mem, root, va);
        ShallowAt(old(tree), tree, 2, va[..3]);
        return EEXIST;
      }
      ghost var f := free;
      var p := AllocBlock();
      StartsBlock(f, p);
      GrewWider(old(mem), old(tree), old(pages), m, t, g, pages);
      if p == 0 {
        return ENOMEM;
      }
      PutHuge(table, n, p, rw, nx, g);
      GrewJoin(old(mem), old(tree), old(pages), m, t, pages, mem, tree, pages);
      RunAfterSame(old(mem), m, mem, root, n, 512, UserPage(rw, nx));
      LargeWritten(old(mem), old(tree), old(pages), m, t, g, n, p, rw, nx);
      return Ok;
    }

    /** Write the entry of a two-megabyte page whose frames are new. */
    method PutHuge(table: nat, n: nat, p: nat, rw: bool, nx: bool, ghost g: set<nat>)
      requires Valid() && n % 512 == 0 && (rw ==> nx) && IsVa(Ix(n)) && Ix(n)[..2] in tree && tree[Ix(n)[..2]] == table
      requires table in mem && |mem[table]| == 512 && mem[table][Ix(n)[2]] == ZERO && PathUser(mem, tree, Ix(n)[..2])
      requires Safe(mem, root, tree, g) && tree.Values <= g && p % 512 == 0 && Block(p) !! g && pages == g + Block(p)
      modifies this`mem
      ensures Valid() && Safe(mem, root, tree, pages) && Grew(old(mem), tree, pages, mem, tree, pages)
      ensures RunView(old(mem), mem, root, n, 512, UserPage(rw, nx)) && Open(mem, tree, n, 512, 2)
      ensures mem == Put(old(mem), table, Ix(n)[2], LargeEntry(p, rw, nx))
      ensures Ours(old(mem), tree, kernelSlots) ==> Ours(mem, tree, kernelSlots)
    {
      hide Shape, Look, Ix, Safe, Grew, PathUser, Written, RunView, Open, Block, LargeEntry, UserPage, Tidy, Ours, Stock;
      var va := Ix(n);
      ShapeEntry(mem, tree, va[..2], va[2]);
      LargeFields(p, rw, nx);
      LargeIsOurs(kernelSlots, va[..2], va[2], p, rw, nx);
      WriteLeaf(table, va, 2, LargeEntry(p, rw, nx));
      EmptyBlock(old(mem), tree, va);
      BlockRun(old(mem), mem, root, n, p, rw, nx);
      SafeBlock(old(mem), mem, root, tree, g, pages, n, p, rw, nx);
      UserSame(old(mem), mem, tree, pages, va[..2]);
      OpenOne(mem, tree, n, 2);
    }

    /** Take back a two-megabyte page. */
    method ClearHuge(n: nat, rw: bool, nx: bool)
      requires Valid() && Safe(mem, root, tree, pages) && n % 512 == 0 && Open(mem, tree, n, 512, 2) && LargeHere(mem, tree, n, rw, nx)
      modifies this`mem, this`pages, this`free, this`tree
      ensures Valid() && Safe(mem, root, tree, pages) && Grew(old(mem), old(tree), {}, mem, tree, pages) && tree == old(tree)
      ensures Cleared(old(mem), mem, root, n, 512) && OneEntry(old(mem), mem, old(tree), n)
      ensures Ours(old(mem), old(tree), kernelSlots) ==> Ours(mem, tree, kernelSlots)
    {
      hide Shape, Look, Ix, Safe, SameViews, Grew, PathUser, Written, Open, Cleared, OneEntry, Block, LargeEntry, Tidy, Ours, Stock, Spent, Admits,
        Shallow;
      var va := Ix(n);
      IxIsVa(n);
      OpenAt(mem, tree, n, 512, 2, n);
      var e, table := Descend(va, 2, true, false);
      ShapeEntry(mem, tree, va[..2], va[2]);
      var leaf := mem[table][va[2]];
      LargeFields(leaf.frame, rw, nx);
      WriteLeaf(table, va, 2, ZERO);
      BlockCleared(old(mem), mem, tree, pages, n, leaf.frame, rw, nx);
      EntryPut(old(mem), tree, n, ZERO);
      GrewAny(old(mem), tree, pages, mem, tree, pages - Block(leaf.frame));
      if leaf.present {
        FreePages(Block(leaf.frame));
      }
    }

    /** A run of two-megabyte pages; on failure the ones made are taken back, last first. */
    method HugeRun(first: nat, n: nat, rw: bool, nx: bool) returns (e: Error)
      requires Valid() && Safe(mem, root, tree, pages) && (rw ==> nx) && first % 512 == n % 512 == 0 && first + n <= 0x8_0000_0000
      modifies this`mem, this`pages, this`free, this`tree
      ensures Valid() && Safe(mem, root, tree, pages)
      ensures e != Ok ==> SameViews(old(mem), mem, root)
      ensures e == Ok ==> RunView(old(mem), mem, root, first, n, UserPage(rw, nx))
      ensures Ours(old(mem), old(tree), kernelSlots) ==> Ours(mem, tree, kernelSlots)
      ensures e == ENOMEM ==> |Starts(old(free))| < 3 * (n / 512)
      ensures Ours(old(mem), old(tree), kernelSlots) && Vacant(old(mem), root, first, n, kernelSlots) && Bare(old(tree), first, n) ==> e in {Ok, ENOMEM}
    {
      hide Shape, Look, Ix, Safe, SameViews, Grew, PathUser, RunView, Open, UserPage, Cleared, Larges, LargeHere, OneEntry, SameBelow, Tidy, Ours, Stock,
        Vacant, Bare, UserAddress, Shallow, Starts;
      ShallowNone(tree, 2);
      var done := 0;
      e := Ok;
      RunNone(mem, mem, root, first, UserPage(rw, nx));
      GrewNot(mem, tree, pages);
      OpenNone(mem, tree, first, 2);
      LargesNone(mem, tree, first, rw, nx);
      while done < n && e == Ok
        invariant 0 <= done <= n && done % 512 == 0 && Valid() && Safe(mem, root, tree, pages)
        invariant RunView(old(mem), mem, root, first, done, UserPage(rw, nx)) && Open(mem, tree, first, done, 2)
        invariant Larges(mem, tree, first, done, rw, nx)
        invariant (Ours(old(mem), old(tree), kernelSlots) ==> Ours(mem, tree, kernelSlots)) && Shallow(old(tree), tree, 2)
        invariant (e == Ok ==> |Starts(free)| >= |Starts(old(free))| - 3 * (done / 512)) && (e == ENOMEM ==> |Starts(old(free))| < 3 * (n / 512))
        invariant Ours(old(mem), old(tree), kernelSlots) && Vacant(old(mem), root, first, n, kernelSlots) && Bare(old(tree), first, n) ==> e in {Ok, ENOMEM}
        decreases n - done, if e == Ok then 1 else 0
      {
        ghost var m, t, g := mem, tree, pages;
        if Vacant(old(mem), root, first, n, kernelSlots) && Bare(old(tree), first, n) {
          VacantNext(old(mem), mem, root, first, n, done, kernelSlots, UserPage(rw, nx));
          BareAt(old(tree), tree, first, n, done);
        }
        SumBlock(first, done);
        e := MapHuge(first + done, rw, nx);
        ShallowJoin(old(tree), t, tree, 2, 2);
        OpenGrows(m, t, g, mem, tree, pages, first, done, 2);
        if e == Ok {
          RunJoin(old(mem), m, mem, root, first, done, 512, UserPage(rw, nx));
          OpenJoin(mem, tree, first, done, 512, 2);
          LargesMore(m, t, g, mem, tree, pages, first, done, rw, nx);
          done := done + 512;
        } else {
          RunSame(old(mem), m, mem, root, first, done, UserPage(rw, nx));
          LargesSame(m, t, g, mem, tree, pages, first, done, rw, nx);
        }
      }
      if e != Ok {
        UndoHuge(first, done, rw, nx, old(mem));
      }
    }

    method UndoHuge(first: nat, n: nat, rw: bool, nx: bool, ghost before: Memory)
      requires Valid() && Safe(mem, root, tree, pages) && first % 512 == n % 512 == 0 && first + n <= 0x8_0000_0000
      requires RunView(before, mem, root, first, n, UserPage(rw, nx)) && Open(mem, tree, first, n, 2) && Larges(mem, tree, first, n, rw, nx)
      modifies this`mem, this`pages, this`free, this`tree
      ensures Valid() && Safe(mem, root, tree, pages) && SameViews(before, mem, root)
      ensures Ours(old(mem), old(tree), kernelSlots) ==> Ours(mem, tree, kernelSlots)
    {
      hide Shape, Look, Ix, Safe, SameViews, Grew, PathUser, RunView, Open, UserPage, Cleared, Larges, LargeHere, OneEntry, Tidy, Ours, Stock;
      var done := n;
      while done > 0
        invariant 0 <= done <= n && done % 512 == 0 && Valid() && Safe(mem, root, tree, pages)
        invariant RunView(before, mem, root, first, done, UserPage(rw, nx)) && Open(mem, tree, first, done, 2)
        invariant Larges(mem, tree, first, done, rw, nx)
        invariant Ours(old(mem), old(tree), kernelSlots) ==> Ours(mem, tree, kernelSlots)
      {
        done := done - 512;
        ghost var m, t, g := mem, tree, pages;
        SumBlock(first, done);
        OpenPart(mem, tree, first, done + 512, 2, done);
        LargesAt(mem, tree, first, done + 512, rw, nx, first + done);
        ClearHuge(first + done, rw, nx);
        OpenGrows(m, t, {}, mem, tree, pages, first, done, 2);
        LargesLess(m, mem, t, first, done, rw, nx);
        RunCut(before, m, mem, root, first, done, 512, UserPage(rw, nx));
      }
      RunNone(before, mem, root, first, UserPage(rw, nx));
    }

    // -------------------------------------------------------------- the operations of an address space

    /** What every operation keeps. */
    ghost predicate Inv()
      reads this`mem, this`pages, this`free, this`tree, this`next, this`count
    {
      && Valid() && Safe(mem, root, tree, pages) && Ours(mem, tree, kernelSlots)
      && count == |Held(mem, root)| && count <= MAX_USER_PAGES && USER_BASE <= next <= USER_LIMIT
    }

    /** x86_64_as_create on a kernel table that maps nothing for users. */
    constructor (root: nat, kernelSlots: set<nat>, nx: bool, mem: Memory, pages: set<nat>, free: set<nat>, ghost tree: Tree)
      requires Shape(mem, tree) && tree[[]] == root && tree.Values <= pages && Tidy(mem, tree) && Stock(pages, free) && Ours(mem, tree, kernelSlots)
      requires forall va :: IsVa(va) ==> !Counts(Look(mem, root, va, 0))
      ensures Inv() && count == 0 && next == USER_BASE + 0x20_0000
      ensures this.root == root && this.mem == mem && this.kernelSlots == kernelSlots && this.nxSupported == nx
    {
      this.root, this.kernelSlots, this.nxSupported := root, kernelSlots, nx;
      this.mem, this.pages, this.free, this.tree := mem, pages, free, tree;
      next, count := USER_BASE + 0x20_0000, 0;
      new;
      hide Look, Shape, Tidy, Stock, Ours;
      NothingHeld(mem, root, tree, pages);
    }

    /** x86_64_as_alloc. */
    method Alloc(bytes: nat, align: nat, rwx: nat) returns (e: Error, base: nat)
      requires Inv()
      modifies this`mem, this`pages, this`free, this`tree, this`next, this`count
      ensures Inv()
      ensures e != Ok ==> SameViews(old(mem), mem, root) && count == old(count) && next == old(next)
      ensures e == Ok ==>
        && align > 0 && base % align == 0 && base % 4096 == 0 && old(next) <= base
        && next == base + Pages(bytes) * 4096 + 4096 && count == old(count) + Pages(bytes)
        && RunView(old(mem), mem, root, base / 4096, Pages(bytes), UserPage(CanWrite(rwx), !CanExecute(rwx)))
      ensures e == EINVAL <== bytes == 0 || !Power2(align) || align > 0x4000_0000 || !RwxOk(rwx)
      ensures e == Ok ==> Placed(old(next), Unit(align, 4096), base)
      ensures Asked(bytes, align, rwx) ==> (e == ENOTSUP <==> !nxSupported) && (nxSupported && bytes > MAX_USER_PAGES * 4096 <==> e == E2BIG)
      ensures Asked(bytes, align, rwx) && nxSupported && bytes <= MAX_USER_PAGES * 4096 ==> forall v: nat :: Placed(old(next), Unit(align, 4096), v) ==>
        if !Fits(old(count), v, Pages(bytes)) then e == ENOMEM
        else Vacant(old(mem), root, v / 4096, Pages(bytes), kernelSlots) ==> e == Ok || (e == ENOMEM && |old(free)| < 4 * Pages(bytes))
    {
      hide Look, Safe, SameViews, Held, RunView, UserPage, Shape, Power2, RwxOk, CanWrite, CanExecute, Tidy, Ours, Stock, Vacant, Placed;
      base := 0;
      RunNone(mem, mem, root, 0, UserPage(true, true));
      GrewNot(mem, tree, pages);
      if bytes == 0 || !Power2(align) || align > 0x4000_0000 || !RwxOk(rwx) {
        return EINVAL, 0;
      }
      if !nxSupported {
        return ENOTSUP, 0;
      }
      if bytes > MAX_USER_PAGES * 4096 {
        return E2BIG, 0;
      }
      var n := Pages(bytes);
      var unit := if align < 4096 then 4096 else align;
      var v := AlignUp(next, unit);
      UnitFacts(next, align, 4096, unit);
      forall x
        ensures Placed(next, unit, x) <==> x == v
      {
        PlacedIs(next, unit, x);
      }
      if n > MAX_USER_PAGES - count || v >= USER_LIMIT || n * 4096 + 4096 > USER_LIMIT - v {
        return ENOMEM, 0;
      }
      assert v / 4096 + n <= 0x8_0000_0000;
      RwxExclusive(rwx);
      e := MapRun(v / 4096, n, CanWrite(rwx), !CanExecute(rwx));
      if e != Ok {
        HeldSame(old(mem), mem, root);
        return;
      }
      UserPageCounts(CanWrite(rwx), !CanExecute(rwx));
      HeldRun(old(mem), mem, root, v / 4096, n, UserPage(CanWrite(rwx), !CanExecute(rwx)));
      next := v + n * 4096 + 4096;
      count := count + n;
      base := v;
    }

    /** x86_64_as_alloc_ex with a promise (lazy) or two-megabyte pages. */
    method AllocEx(bytes: nat, align: nat, rwx: nat, lazy: bool) returns (e: Error, base: nat)
      requires Inv()
      modifies this`mem, this`pages, this`free, this`tree, this`next, this`count
      ensures Inv()
      ensures e != Ok ==> SameViews(old(mem), mem, root) && count == old(count) && next == old(next)
      ensures e == Ok ==>
        && align > 0 && base % align == 0 && base % 4096 == 0 && old(next) <= base
        && next == base + Pages(bytes) * 4096 + 4096 && count == old(count) + Pages(bytes)
        && (if lazy then !CanExecute(rwx) && RunView(old(mem), mem, root, base / 4096, Pages(bytes), LazyPage(CanWrite(rwx)))
            else RunView(old(mem), mem, root, base / 4096, Pages(bytes), UserPage(CanWrite(rwx), !CanExecute(rwx))))
      ensures e == EINVAL <== bytes == 0 || bytes > MAX_USER_PAGES * 4096 || !Power2(align) || align > 0x4000_0000 || !RwxOk(rwx)
      ensures e == Ok ==> Placed(old(next), Unit(align, if lazy then 4096 else 0x20_0000), base)
      ensures Asked(bytes, align, rwx) && bytes <= MAX_USER_PAGES * 4096 && nxSupported && !(lazy && CanExecute(rwx)) && (lazy || bytes % 0x20_0000 == 0) ==>
        forall v: nat :: Placed(old(next), Unit(align, if lazy then 4096 else 0x20_0000), v) ==>
          if !Fits(old(count), v, Pages(bytes)) then e == ENOMEM
          else Vacant(old(mem), root, v / 4096, Pages(bytes), kernelSlots) && (lazy || Bare(old(tree), v / 4096, Pages(bytes))) ==>
            e == Ok || (e == ENOMEM && if lazy then |old(free)| < 3 * Pages(bytes) else |Starts(old(free))| < 3 * (Pages(bytes) / 512))
    {
      hide Look, Safe, SameViews, Held, RunView, UserPage, LazyPage, Shape, Power2, RwxOk, CanWrite, CanExecute, Tidy, Ours, Stock, Vacant, Placed, Bare,
        Starts;
      base := 0;
      RunNone(mem, mem, root, 0, UserPage(true, true));
      GrewNot(mem, tree, pages);
      if bytes == 0 || bytes > MAX_USER_PAGES * 4096 || !Power2(align) || align > 0x4000_0000 || !RwxOk(rwx) {
        return EINVAL, 0;
      }
      if !nxSupported {
        return ENOTSUP, 0;
      }
      if lazy && CanExecute(rwx) {
        return EPERM, 0;
      }
      if !lazy && bytes % 0x20_0000 != 0 {
        return EINVAL, 0;
      }
      var least := if lazy then 4096 else 0x20_0000;
      var unit := if align < least then least else align;
      var n := Pages(bytes);
      var v := AlignUp(next, unit);
      UnitFacts(next, align, least, unit);
      forall x
        ensures Placed(next, unit, x) <==> x == v
      {
        PlacedIs(next, unit, x);
      }
      if n > MAX_USER_PAGES - count || v >= USER_LIMIT || n * 4096 + 4096 > USER_LIMIT - v {
        return ENOMEM, 0;
      }
      assert v / 4096 + n <= 0x8_0000_0000;
      RwxExclusive(rwx);
      if !lazy {
        WholeBlocks(v, bytes);
      }
      e := TakeRun(v / 4096, n, CanWrite(rwx), !CanExecute(rwx), lazy);
      if e != Ok {
        return;
      }
      next := v + n * 4096 + 4096;
      base := v;
    }

    /** A run of promised or of two-megabyte pages, counted. */
    method TakeRun(first: nat, n: nat, rw: bool, nx: bool, lazy: bool) returns (e: Error)
      requires Inv() && (rw ==> nx) && first + n <= 0x8_0000_0000 && (!lazy ==> first % 512 == n % 512 == 0) && n <= MAX_USER_PAGES - count
      modifies this`mem, this`pages, this`free, this`tree, this`count
      ensures Inv()
      ensures e != Ok ==> SameViews(old(mem), mem, root) && count == old(count)
      ensures e == Ok ==> count == old(count) + n && RunView(old(mem), mem, root, first, n, if lazy then LazyPage(rw) else UserPage(rw, nx))
      ensures e == ENOMEM ==> if lazy then |old(free)| < 3 * n else |Starts(old(free))| < 3 * (n / 512)
      ensures Vacant(old(mem), root, first, n, kernelSlots) && (lazy || Bare(old(tree), first, n)) ==> e in {Ok, ENOMEM}
    {
      hide Look, Safe, SameViews, Held, RunView, UserPage, LazyPage, Shape, Tidy, Ours, Stock, Vacant, Bare, Starts;
      if lazy {
        e := LazyRun(first, n, rw);
      } else {
        e := HugeRun(first, n, rw, nx);
      }
      if e != Ok {
        HeldSame(old(mem), mem, root);
        return;
      }
      UserPageCounts(rw, nx);
      LazyPageCounts(rw);
      HeldRun(old(mem), mem, root, first, n, if lazy then LazyPage(rw) else UserPage(rw, nx));
      count := count + n;
    }

    /** x86_64_as_map_at: pages at a fixed address, none of which may be mapped. */
    method MapFixed(address: nat, bytes: nat, rwx: nat) returns (e: Error)
      requires Inv()
      modifies this`mem, this`pages, this`free, this`tree, this`count
      ensures Inv()
      ensures e != Ok ==> SameViews(old(mem), mem, root) && count == old(count)
      ensures e == Ok ==>
        && address % 4096 == 0 && count == old(count) + Pages(bytes)
        && RunView(old(mem), mem, root, address / 4096, Pages(bytes), UserPage(CanWrite(rwx), !CanExecute(rwx)))
      ensures e == EINVAL <== bytes == 0 || address % 4096 != 0 || address < 0x1_0000 || !RwxOk(rwx)
      ensures e == Ok ==> address + Pages(bytes) * 4096 <= CANON_LIMIT && address / 0x80_0000_0000 !in kernelSlots
      ensures FixedOk(address, bytes, rwx) && nxSupported ==>
        if address / 0x80_0000_0000 in kernelSlots then e == EPERM
        else if Pages(bytes) > MAX_USER_PAGES - old(count) then e == ENOMEM
        else Vacant(old(mem), root, address / 4096, Pages(bytes), kernelSlots) ==> e == Ok || (e == ENOMEM && |old(free)| < 4 * Pages(bytes))
    {
      hide Look, Safe, SameViews, Held, RunView, UserPage, Shape, RwxOk, CanWrite, CanExecute, Canonical, Ix, Tidy, Ours, Stock, Vacant;
      RunNone(mem, mem, root, 0, UserPage(true, true));
      GrewNot(mem, tree, pages);
      if bytes == 0 || bytes > MAX_USER_PAGES * 4096 || address % 4096 != 0 || address < 0x1_0000 || address >= CANON_LIMIT
        || bytes > CANON_LIMIT - address || !RwxOk(rwx) || !nxSupported {
        return EINVAL;
      }
      var n, slot := Pages(bytes), address / 0x80_0000_0000;
      if (address + n * 4096 - 1) / 0x80_0000_0000 != slot {
        return EINVAL;
      }
      if slot in kernelSlots {
        return EPERM;
      }
      if n > MAX_USER_PAGES - count {
        return ENOMEM;
      }
      FixedRange(address, bytes);
      var i := 0;
      while i < n
        invariant 0 <= i <= n && mem == old(mem) && tree == old(tree) && pages == old(pages) && count == old(count) && free == old(free)
      {
        var hit, phys, rw, user, nx := Translate(address + i * 4096);
        if hit == Ok {
          NotVacant(mem, root, address, n, i, kernelSlots);
          return EEXIST;
        }
        i := i + 1;
      }
      RwxExclusive(rwx);
      e := MapRun(address / 4096, n, CanWrite(rwx), !CanExecute(rwx));
      if e != Ok {
        HeldSame(old(mem), mem, root);
        return;
      }
      UserPageCounts(CanWrite(rwx), !CanExecute(rwx));
      HeldRun(old(mem), mem, root, address / 4096, n, UserPage(CanWrite(rwx), !CanExecute(rwx)));
      count := count + n;
    }

    /** x86_64_demand_fault: a promised page gets its frame. */
    method DemandFault(address: nat, present: bool, write: bool) returns (e: Error)
      requires Inv()
      modifies this`mem, this`pages, this`free, this`tree
      ensures Inv()
      ensures e != Ok ==> SameViews(old(mem), mem, root)
      ensures e == Ok ==> USER_BASE <= address < USER_LIMIT && !present
      ensures e == Ok ==>
        var was := Look(old(mem), root, Ix(address / 4096), 0);
        && was.Lazy? && (write ==> was.entry.rw)
        && exists f :: f !in old(pages) && Supplied(old(mem), mem, root, Ix(address / 4096), was.entry, f)
      ensures USER_BASE <= address < USER_LIMIT && !present && Servable(old(mem), old(tree), root, Ix(address / 4096), write) ==>
        e == if old(free) == {} then ENOMEM else Ok
    {
      hide Servable, Look, Safe, SameViews, Held, Shape, Ix, Grew, PathUser, Written, OneView, Tidy, Ours, Stock, Spent, Admits, Shallow;
      GrewNot(mem, tree, pages);
      if address < USER_BASE || address >= USER_LIMIT || present {
        return EFAULT;
      }
      ServablePath(mem, tree, root, Ix(address / 4096), write);
      var va := Ix(address / 4096);
      IxIsVa(address / 4096);
      var table;
      e, table := Descend(va, 3, true, false);
      ghost var m, t, g := mem, tree, pages;
      GrownTables(old(mem), old(tree), old(pages), m, t, g);
      GrewPages(old(mem), old(tree), old(pages), m, t, g);
      SafeSame(old(mem), m, root, old(tree), t, old(pages), g);
      HeldSame(old(mem), m, root);
      if e != Ok {
        return;
      }
      ShapeEntry(mem, tree, va[..3], va[3]);
      var entry := mem[table][va[3]];
      if Servable(old(mem), old(tree), root, va, write) {
        ServableEntry(old(mem), old(tree), root, pages, va, write);
      }
      if !entry.lazy || entry.present || !entry.user || (write && !entry.rw) {
        return EFAULT;
      }
      var phys := AllocPage();
      SafeWider(m, root, t, g, pages);
      if phys == 0 {
        return ENOMEM;
      }
      LazyLook(m, t, va, entry);
      ViewAt(old(mem), m, root, va);
      LazySafe(m, root, t, g, va);
      PathFlag(mem, tree, va);
      var filled := entry.(frame := phys, lazy := false, present := true);
      WriteLeaf(table, va, 3, filled);
      OneViewFrom(old(mem), m, mem, root, va, true, filled);
      GrewNot(m, t, g);
      OneViewFrom(m, m, mem, root, va, true, filled);
      SafeMore(m, mem, root, t, t, g, pages, va, Hit(phys, entry.rw, entry.user, entry.nx, entry.large, entry.rest));
      HeldKept(m, mem, root, va, Hit(phys, entry.rw, entry.user, entry.nx, entry.large, entry.rest));
      return Ok;
    }
  }
}
