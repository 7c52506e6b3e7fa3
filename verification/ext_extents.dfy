/**
 ext4 extent trees: whatever the blocks hold, decoding gives a sound extent
 list, and if it succeeds exactly the leaves of the tree in order.
 */
module ExtExtents {
  import opened Basics
  import opened Extents

  const MAGIC: nat := 0xf30a

  function Item(h: seq<byte>, i: nat): (x: seq<byte>)
    requires 24 + 12 * i <= |h|
    ensures |x| == 12
  {
    h[12 + 12 * i..24 + 12 * i]
  }

  /** A leaf entry; lengths above 32768 are unwritten extents, which read as holes. */
  function LeafRun(x: seq<byte>): Run
    requires |x| == 12
  {
    var len := Rd16(x, 4);
    Run(Rd32(x, 0), Rd32(x, 8) + 0x1_0000_0000 * Rd16(x, 6), if len > 32768 then len - 32768 else len, len > 32768)
  }

  function Child(x: seq<byte>): nat
    requires |x| == 12
  {
    Rd32(x, 4) + 0x1_0000_0000 * Rd16(x, 8)
  }

  function Block(d: seq<byte>, block: nat, c: nat): seq<byte> { if (c + 1) * block <= |d| then d[c * block..(c + 1) * block] else [] }

  function Count(h: seq<byte>): nat { if |h| >= 4 then Rd16(h, 2) else 0 }

  /** The leaves below the first n entries of a node, from left to right. */
  function Leaves(d: seq<byte>, block: nat, h: seq<byte>, depth: nat, n: nat): seq<Run>
    decreases depth, n
  {
    if n == 0 || 12 + 12 * n > |h| then []
    else Leaves(d, block, h, depth, n - 1) + Below(d, block, Item(h, n - 1), depth)
  }

  /** The leaf, or the leaves of the child, that an entry stands for. */
  function Below(d: seq<byte>, block: nat, x: seq<byte>, depth: nat): seq<Run>
    requires |x| == 12
    decreases depth, 0
  {
    if depth == 0 then [LeafRun(x)]
    else
      var b := Block(d, block, Child(x));
      Leaves(d, block, b, depth - 1, Count(b))
  }

  // ---------------------------------------------------------------- well-formed trees

  /** The header of a node. */
  predicate NodeOk(h: seq<byte>, depth: nat) {
    && |h| >= 12 && Rd16(h, 0) == MAGIC && Rd16(h, 6) == depth <= 5
    && Rd16(h, 2) <= Rd16(h, 4) <= (|h| - 12) / 12 && Rd16(h, 4) != 0
  }

  /** The first n entries: first blocks ascend, and children are well-formed nodes inside the volume. */
  predicate TreeOk(d: seq<byte>, block: nat, blocks: nat, sumOk: seq<byte> -> bool, h: seq<byte>, depth: nat, n: nat)
    decreases depth, n
  {
    n == 0 || (12 + 12 * n <= |h| && TreeOk(d, block, blocks, sumOk, h, depth, n - 1)
               && (n > 1 ==> Rd32(Item(h, n - 2), 0) < Rd32(Item(h, n - 1), 0)) && ChildOk(d, block, blocks, sumOk, Item(h, n - 1), depth))
  }

  predicate ChildOk(d: seq<byte>, block: nat, blocks: nat, sumOk: seq<byte> -> bool, x: seq<byte>, depth: nat)
    requires |x| == 12
    decreases depth, 0
  {
    depth == 0 || (
      var b := Block(d, block, Child(x));
      0 < Child(x) < blocks && sumOk(b) && NodeOk(b, depth - 1) && TreeOk(d, block, blocks, sumOk, b, depth - 1, Count(b)))
  }

  /** Nodes below the first n entries. */
  function Nodes(d: seq<byte>, block: nat, h: seq<byte>, depth: nat, n: nat): nat
    decreases depth, n
  {
    if n == 0 || 12 + 12 * n > |h| then 0
    else Nodes(d, block, h, depth, n - 1) + NodesBelow(d, block, Item(h, n - 1), depth)
  }

  function NodesBelow(d: seq<byte>, block: nat, x: seq<byte>, depth: nat): nat
    requires |x| == 12
    decreases depth, 0
  {
    if depth == 0 then 0
    else
      var b := Block(d, block, Child(x));
      1 + Nodes(d, block, b, depth - 1, Count(b))
  }

  /** What a decoding needs: room in the run list and in the budget of nodes. */
  ghost predicate Fits(d: seq<byte>, block: nat, blocks: nat, h: seq<byte>, depth: nat, runs: seq<Run>, n: nat, budget: int) {
    var all := runs + Leaves(d, block, h, depth, n);
    Sound(all, blocks) && |all| <= RUNS && Nodes(d, block, h, depth, n) <= budget
  }

  /** The entries are well-formed up to each, and fit up to each. */
  lemma {:induction false} Before(d: seq<byte>, block: nat, blocks: nat, sumOk: seq<byte> -> bool, h: seq<byte>, depth: nat, runs: seq<Run>, i: nat,
                                  n: nat, budget: int)
    requires i <= n && TreeOk(d, block, blocks, sumOk, h, depth, n) && Fits(d, block, blocks, h, depth, runs, n, budget)
    ensures TreeOk(d, block, blocks, sumOk, h, depth, i) && Fits(d, block, blocks, h, depth, runs, i, budget)
    decreases n
  {
    hide ChildOk, Below, Sound, Item, NodesBelow;
    if i < n {
      var some, more := runs + Leaves(d, block, h, depth, n - 1), Below(d, block, Item(h, n - 1), depth);
      assert runs + Leaves(d, block, h, depth, n) == some + more;
      SoundBefore(some, more, blocks);
      Before(d, block, blocks, sumOk, h, depth, runs, i, n - 1, budget);
    }
  }

  lemma SoundBefore(runs: seq<Run>, more: seq<Run>, blocks: nat)
    requires Sound(runs + more, blocks)
    ensures Sound(runs, blocks)
  {
    var all := runs + more;
    assert forall i :: 0 <= i < |runs| ==> all[i] == runs[i];
  }

  /** What the next entry of a decoding has to offer. */
  lemma NextEntry(d: seq<byte>, block: nat, blocks: nat, sumOk: seq<byte> -> bool, h: seq<byte>, depth: nat, runs: seq<Run>, i: nat, n: nat, budget: int)
    requires i < n && 12 + 12 * n <= |h| && TreeOk(d, block, blocks, sumOk, h, depth, n) && Fits(d, block, blocks, h, depth, runs, n, budget)
    ensures var x, out := Item(h, i), runs + Leaves(d, block, h, depth, i);
      && (i > 0 ==> Rd32(Item(h, i - 1), 0) < Rd32(x, 0)) && ChildOk(d, block, blocks, sumOk, x, depth)
      && Sound(out + Below(d, block, x, depth), blocks) && |out + Below(d, block, x, depth)| <= RUNS
      && Nodes(d, block, h, depth, i) + NodesBelow(d, block, x, depth) <= budget
  {
    hide ChildOk, Below, Sound, Item, NodesBelow;
    Before(d, block, blocks, sumOk, h, depth, runs, i + 1, n, budget);
    var x := Item(h, i);
    assert runs + Leaves(d, block, h, depth, i + 1) == runs + Leaves(d, block, h, depth, i) + Below(d, block, x, depth);
  }

  lemma BlockFits(block: nat, c: nat, blocks: nat, length: nat)
    requires c < blocks && blocks * block <= length
    ensures (c + 1) * block <= length && (c + 1) * block == c * block + block
  {
    Multiples(c + 1, blocks, block);
  }

  lemma ItemFits(entries: nat, max: nat, bytes: nat, i: nat)
    requires 12 <= bytes && entries <= max <= (bytes - 12) / 12 && i < entries
    ensures 24 + 12 * i <= bytes
  {
  }

  /** ext_extents on a node h of the given depth; sumOk is the checksum test of a block. */
  method Decode(d: seq<byte>, healthy: bool, block: nat, blocks: nat, sumOk: seq<byte> -> bool, h: seq<byte>, depth: nat, runs: seq<Run>, budget: nat)
    returns (e: Error, out: seq<Run>, left: nat)
    requires block > 0 && blocks * block <= |d| && Sound(runs, blocks) && |runs| <= RUNS
    ensures Sound(out, blocks) && |out| <= RUNS && runs <= out && left <= budget && e in {Ok, EIO}
    ensures e == Ok ==> depth <= 5 && left < budget && out == runs + Leaves(d, block, h, depth, Count(h))
    ensures e == Ok ==> NodeOk(h, depth) && TreeOk(d, block, blocks, sumOk, h, depth, Count(h)) && left == budget - 1 - Nodes(d, block, h, depth, Count(h))
    ensures healthy && NodeOk(h, depth) && TreeOk(d, block, blocks, sumOk, h, depth, Count(h)) && Fits(d, block, blocks, h, depth, runs, Count(h), budget - 1) ==>
      e == Ok
    decreases depth, 1
  {
    hide Sound, LeafRun, Block, Appends, Leaves, Below, Rd32, TreeOk, Fits, Nodes, Item, ChildOk, NodesBelow;
    out, left := runs, budget;
    if Fits(d, block, blocks, h, depth, runs, Count(h), budget - 1) {
      FitsBudget(d, block, blocks, h, depth, runs, Count(h), budget - 1);
    }
    if left == 0 || |h| < 12 || Rd16(h, 0) != MAGIC || Rd16(h, 6) != depth || depth > 5 {
      return EIO, out, left;
    }
    left := left - 1;
    var entries, max := Rd16(h, 2), Rd16(h, 4);
    if entries > max || max > (|h| - 12) / 12 || max == 0 {
      return EIO, out, left;
    }
    LeavesNone(d, block, h, depth);
    var last, i := 0, 0;
    while i < entries
      invariant 0 <= i <= entries && left < budget && Sound(out, blocks) && |out| <= RUNS && runs <= out
      invariant out == runs + Leaves(d, block, h, depth, i) && TreeOk(d, block, blocks, sumOk, h, depth, i)
      invariant left == budget - 1 - Nodes(d, block, h, depth, i) && (i > 0 ==> last == Rd32(Item(h, i - 1), 0))
    {
      ItemFits(entries, max, |h|, i);
      var x := Item(h, i);
      if TreeOk(d, block, blocks, sumOk, h, depth, entries) && Fits(d, block, blocks, h, depth, runs, entries, budget - 1) {
        NextEntry(d, block, blocks, sumOk, h, depth, runs, i, entries, budget - 1);
      }
      var logical := Rd32(x, 0);
      if i > 0 && logical <= last {
        return EIO, out, left;
      }
      last := logical;
      ghost var before := out;
      if depth == 0 {
        LeafBelow(d, block, blocks, sumOk, x);
        if Sound(before + [LeafRun(x)], blocks) && |before| < RUNS {
          assert before + [LeafRun(x)] + [] == before + [LeafRun(x)];
          FirstAppends(before, LeafRun(x), [], blocks);
        }
        e, out := RunAdd(out, LeafRun(x), blocks);
        RoomLeft(before, LeafRun(x), blocks);
      } else {
        e, out, left := Descend(d, healthy, block, blocks, sumOk, x, depth, out, left);
      }
      if e != Ok {
        return;
      }
      LeavesStep(d, block, h, depth, i);
      TreeStep(d, block, blocks, sumOk, h, depth, i);
      assert before + Below(d, block, x, depth) == runs + Leaves(d, block, h, depth, i + 1);
      i := i + 1;
    }
    return Ok, out, left;
  }

  lemma LeavesNone(d: seq<byte>, block: nat, h: seq<byte>, depth: nat)
    ensures Leaves(d, block, h, depth, 0) == [] && Nodes(d, block, h, depth, 0) == 0
    ensures forall blocks, sumOk: seq<byte> -> bool :: TreeOk(d, block, blocks, sumOk, h, depth, 0)
  {
  }

  lemma LeavesStep(d: seq<byte>, block: nat, h: seq<byte>, depth: nat, i: nat)
    requires 24 + 12 * i <= |h|
    ensures Leaves(d, block, h, depth, i + 1) == Leaves(d, block, h, depth, i) + Below(d, block, Item(h, i), depth)
  {
    hide Below;
  }

  lemma LeafBelow(d: seq<byte>, block: nat, blocks: nat, sumOk: seq<byte> -> bool, x: seq<byte>)
    requires |x| == 12
    ensures Below(d, block, x, 0) == [LeafRun(x)] && NodesBelow(d, block, x, 0) == 0 && ChildOk(d, block, blocks, sumOk, x, 0)
  {
  }

  lemma TreeStep(d: seq<byte>, block: nat, blocks: nat, sumOk: seq<byte> -> bool, h: seq<byte>, depth: nat, i: nat)
    requires 24 + 12 * i <= |h|
    ensures TreeOk(d, block, blocks, sumOk, h, depth, i + 1) <==>
      (TreeOk(d, block, blocks, sumOk, h, depth, i)
       && (i > 0 ==> Rd32(Item(h, i - 1), 0) < Rd32(Item(h, i), 0)) && ChildOk(d, block, blocks, sumOk, Item(h, i), depth))
    ensures Nodes(d, block, h, depth, i + 1) == Nodes(d, block, h, depth, i) + NodesBelow(d, block, Item(h, i), depth)
  {
    hide ChildOk, NodesBelow, Item;
  }

  lemma FitsBudget(d: seq<byte>, block: nat, blocks: nat, h: seq<byte>, depth: nat, runs: seq<Run>, n: nat, budget: int)
    requires Fits(d, block, blocks, h, depth, runs, n, budget)
    ensures budget >= 0
  {
  }

  lemma RoomLeft(runs: seq<Run>, r: Run, blocks: nat)
    ensures Appends(runs, r, blocks) ==> |runs| < RUNS
  {
  }

  /** One entry of an inner node. */
  method Descend(d: seq<byte>, healthy: bool, block: nat, blocks: nat, sumOk: seq<byte> -> bool, x: seq<byte>, depth: nat, runs: seq<Run>, budget: nat)
    returns (e: Error, out: seq<Run>, left: nat)
    requires block > 0 && blocks * block <= |d| && Sound(runs, blocks) && |runs| <= RUNS && |x| == 12 && 0 < depth
    ensures Sound(out, blocks) && |out| <= RUNS && runs <= out && left <= budget && e in {Ok, EIO}
    ensures e == Ok ==> left < budget && out == runs + Below(d, block, x, depth)
    ensures e == Ok ==> ChildOk(d, block, blocks, sumOk, x, depth) && left == budget - NodesBelow(d, block, x, depth)
    ensures var all := runs + Below(d, block, x, depth);
      healthy && ChildOk(d, block, blocks, sumOk, x, depth) && NodesBelow(d, block, x, depth) <= budget && Sound(all, blocks) && |all| <= RUNS ==> e == Ok
    decreases depth, 0
  {
    hide Sound, Leaves, TreeOk, Nodes, NodeOk;
    out, left := runs, budget;
    var physical := Child(x);
    if physical == 0 || physical >= blocks {
      return EIO, out, left;
    }
    BlockFits(block, physical, blocks, |d|);
    var readable := Answers(healthy);
    if !readable {
      return EIO, out, left;
    }
    var b := d[physical * block..physical * block + block];
    assert b == Block(d, block, physical);
    if !sumOk(b) {
      return EIO, out, left;
    }
    e, out, left := Decode(d, healthy, block, blocks, sumOk, b, depth - 1, runs, budget);
  }
}
