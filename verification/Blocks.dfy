/** Blocks, the store they are looked up in, and the walk from two blocks down to where their
    branches meet. A header commits to the whole block, so a block stands for its header too. */
module Blocks {
  import opened Transactions

  /** Hashes are injective: a hash stands for the block it was computed from. The zero hash stands
      for no block. */
  datatype Hash = Zero | Id(block: Block)

  datatype Block = Block(parent: Hash, number: nat, difficulty: nat, txs: seq<Tx>, extra: nat) {
    function Hash(): Hash { Id(this) }
  }

  /** Lookup by hash and number. The number before 0 belongs to no block. */
  function GetBlock(stored: set<Block>, h: Hash, number: int): Option<Block> {
    if h.Id? && h.block in stored && h.block.number == number then Some(h.block) else None
  }

  function GetParent(stored: set<Block>, b: Block): Option<Block> { GetBlock(stored, b.parent, b.number - 1) }

  /** The `k`-th ancestor of `b`. */
  function Up(b: Block, k: nat): Option<Block> {
    if k == 0 then Some(b) else if b.parent.Id? then Up(b.parent.block, k - 1) else None
  }

  /** The walk from `b` finds `k` ancestors in the store. */
  ghost predicate Rooted(stored: set<Block>, b: Block, k: nat) {
    k == 0 || (GetParent(stored, b).Some? && Rooted(stored, b.parent.block, k - 1))
  }

  /** The last `k` blocks up to `b`, `b` first. */
  ghost function Branch(b: Block, k: nat): seq<Block> {
    if k == 0 then [] else [b] + if b.parent.Id? then Branch(b.parent.block, k - 1) else []
  }

  /** `i` steps down from `a` and `j` steps down from `b` lead to the same block. */
  ghost predicate Meet(stored: set<Block>, a: Block, b: Block, i: nat, j: nat) {
    Rooted(stored, a, i) && Rooted(stored, b, j) && Up(a, i) == Up(b, j)
  }

  /** The first block where the branches of `a` and `b` meet. */
  ghost predicate ForkPoint(stored: set<Block>, a: Block, b: Block, i: nat, j: nat) {
    Meet(stored, a, b, i, j) && forall k, l :: Meet(stored, a, b, k, l) ==> i <= k && j <= l
  }

  lemma {:induction false} RootedNumber(stored: set<Block>, b: Block, k: nat)
    requires Rooted(stored, b, k)
    ensures Up(b, k).Some? && Up(b, k).value.number == b.number - k
    decreases k
  {
    if k > 0 {
      RootedNumber(stored, b.parent.block, k - 1);
    }
  }

  lemma MeetSwap(stored: set<Block>, a: Block, b: Block, i: nat, j: nat)
    ensures Meet(stored, a, b, i, j) == Meet(stored, b, a, j, i)
  {
  }

  /** The higher of two blocks is above every place where they meet. */
  lemma MeetBelow(stored: set<Block>, a: Block, b: Block, i: nat, j: nat)
    requires Meet(stored, a, b, i, j) && a != b && a.number >= b.number
    ensures i > 0 && GetParent(stored, a).Some? && Meet(stored, a.parent.block, b, i - 1, j)
  {
    RootedNumber(stored, a, i);
    RootedNumber(stored, b, j);
  }

  /** What is known about two branches after walking `x` steps from `a` and `y` steps from `b`. */
  ghost predicate Walked(stored: set<Block>, a: Block, b: Block, x: nat, y: nat, a': Block, b': Block) {
    && Rooted(stored, a, x) && Up(a, x) == Some(a')
    && Rooted(stored, b, y) && Up(b, y) == Some(b')
    && forall i: nat, j: nat :: Meet(stored, a, b, i, j) ==> i >= x && j >= y && Meet(stored, a', b', i - x, j - y)
  }

  lemma {:induction false} Further(stored: set<Block>, a: Block, x: nat, a': Block)
    requires Rooted(stored, a, x) && Up(a, x) == Some(a') && GetParent(stored, a').Some?
    ensures Rooted(stored, a, x + 1) && Up(a, x + 1) == Some(a'.parent.block)
    ensures Branch(a, x + 1) == Branch(a, x) + [a']
    decreases x
  {
    if x > 0 {
      Further(stored, a.parent.block, x - 1, a');
    }
  }

  lemma WalkOne(stored: set<Block>, a: Block, b: Block, x: nat, y: nat, a': Block, b': Block)
    requires Walked(stored, a, b, x, y, a', b') && a' != b' && a'.number >= b'.number
    ensures GetParent(stored, a').None? ==> forall i: nat, j: nat :: !Meet(stored, a, b, i, j)
    ensures GetParent(stored, a').Some? ==> Walked(stored, a, b, x + 1, y, a'.parent.block, b')
    ensures GetParent(stored, a').Some? ==> Branch(a, x + 1) == Branch(a, x) + [a']
  {
    forall i: nat, j: nat | Meet(stored, a, b, i, j)
      ensures GetParent(stored, a').Some? && i >= x + 1 && Meet(stored, a'.parent.block, b', i - x - 1, j - y)
    {
      MeetBelow(stored, a', b', i - x, j - y);
    }
    if GetParent(stored, a').Some? {
      Further(stored, a, x, a');
    }
  }

  lemma WalkOther(stored: set<Block>, a: Block, b: Block, x: nat, y: nat, a': Block, b': Block)
    requires Walked(stored, a, b, x, y, a', b')
    ensures Walked(stored, b, a, y, x, b', a')
  {
    forall i: nat, j: nat | Meet(stored, b, a, i, j) ensures i >= y && j >= x && Meet(stored, b', a', i - y, j - x) {
      MeetSwap(stored, a, b, j, i);
      MeetSwap(stored, a', b', j - x, i - y);
    }
  }

  lemma WalkStart(stored: set<Block>, a: Block, b: Block)
    ensures Walked(stored, a, b, 0, 0, a, b) && Branch(a, 0) == Branch(b, 0) == []
  {
  }

  lemma WalkTwo(stored: set<Block>, a: Block, b: Block, x: nat, y: nat, a': Block, b': Block)
    requires Walked(stored, a, b, x, y, a', b') && a' != b' && b'.number >= a'.number
    ensures GetParent(stored, b').None? ==> forall i: nat, j: nat :: !Meet(stored, a, b, i, j)
    ensures GetParent(stored, b').Some? ==> Walked(stored, a, b, x, y + 1, a', b'.parent.block)
    ensures GetParent(stored, b').Some? ==> Branch(b, y + 1) == Branch(b, y) + [b']
  {
    WalkOther(stored, a, b, x, y, a', b');
    WalkOne(stored, b, a, y, x, b', a');
    if GetParent(stored, b').Some? {
      WalkOther(stored, b, a, y + 1, x, b'.parent.block, a');
    } else {
      forall i: nat, j: nat ensures !Meet(stored, a, b, i, j) { MeetSwap(stored, a, b, i, j); }
    }
  }

  lemma WalkEnd(stored: set<Block>, a: Block, b: Block, x: nat, y: nat, c: Block)
    requires Walked(stored, a, b, x, y, c, c)
    ensures ForkPoint(stored, a, b, x, y)
  {
  }

  lemma {:induction false} BranchAt(stored: set<Block>, b: Block, k: nat, i: nat)
    requires Rooted(stored, b, k) && i < k
    ensures |Branch(b, k)| == k && Rooted(stored, b, i) && Up(b, i) == Some(Branch(b, k)[i])
    decreases k
  {
    if k > 1 {
      BranchAt(stored, b.parent.block, k - 1, if i > 0 then i - 1 else 0);
    }
  }

  lemma {:induction false} BranchLength(b: Block, k: nat)
    ensures |Branch(b, k)| <= k
    decreases k
  {
    if k > 0 && b.parent.Id? {
      BranchLength(b.parent.block, k - 1);
    }
  }

  /** Above the fork point the branches have no block in common. */
  lemma Disjoint(stored: set<Block>, a: Block, b: Block, i: nat, j: nat, c: Block)
    requires ForkPoint(stored, a, b, i, j)
    ensures !(c in Branch(a, i) && c in Branch(b, j))
  {
    if c in Branch(a, i) && c in Branch(b, j) {
      var k :| 0 <= k < |Branch(a, i)| && Branch(a, i)[k] == c;
      var l :| 0 <= l < |Branch(b, j)| && Branch(b, j)[l] == c;
      BranchLength(a, i);
      BranchLength(b, j);
      BranchAt(stored, a, i, k);
      BranchAt(stored, b, j, l);
      assert Meet(stored, a, b, k, l);
    }
  }

  /** All transactions of some blocks, in order. */
  function TxsOf(blocks: seq<Block>): seq<Tx> {
    if blocks == [] then [] else TxsOf(blocks[..|blocks| - 1]) + blocks[|blocks| - 1].txs
  }

  lemma {:induction false} InTxsOf(blocks: seq<Block>, tx: Tx)
    ensures tx in TxsOf(blocks) <==> exists b :: b in blocks && tx in b.txs
  {
    if blocks != [] {
      var n := |blocks| - 1;
      InTxsOf(blocks[..n], tx);
      assert blocks == blocks[..n] + [blocks[n]];
    }
  }

  lemma TxsOfMore(blocks: seq<Block>, b: Block)
    ensures TxsOf(blocks + [b]) == TxsOf(blocks) + b.txs
  {
    assert (blocks + [b])[..|blocks|] == blocks;
  }

  /** A walk that collects the transactions it passes. */
  ghost predicate Gathered(stored: set<Block>, a: Block, b: Block, x: nat, y: nat, a': Block, b': Block,
                           left: seq<Tx>, right: seq<Tx>) {
    && Walked(stored, a, b, x, y, a', b')
    && left == TxsOf(Branch(a, x)) && right == TxsOf(Branch(b, y))
  }

  lemma GatherStart(stored: set<Block>, a: Block, b: Block)
    ensures Gathered(stored, a, b, 0, 0, a, b, [], [])
  {
    WalkStart(stored, a, b);
  }

  lemma GatherOld(stored: set<Block>, a: Block, b: Block, x: nat, y: nat, a': Block, b': Block, left: seq<Tx>, right: seq<Tx>)
    requires Gathered(stored, a, b, x, y, a', b', left, right) && a' != b' && a'.number >= b'.number
    ensures GetParent(stored, a').None? ==> forall i: nat, j: nat :: !Meet(stored, a, b, i, j)
    ensures GetParent(stored, a').Some? ==>
              Gathered(stored, a, b, x + 1, y, a'.parent.block, b', left + a'.txs, right)
  {
    WalkOne(stored, a, b, x, y, a', b');
    TxsOfMore(Branch(a, x), a');
  }

  lemma GatherNew(stored: set<Block>, a: Block, b: Block, x: nat, y: nat, a': Block, b': Block, left: seq<Tx>, right: seq<Tx>)
    requires Gathered(stored, a, b, x, y, a', b', left, right) && a' != b' && b'.number >= a'.number
    ensures GetParent(stored, b').None? ==> forall i: nat, j: nat :: !Meet(stored, a, b, i, j)
    ensures GetParent(stored, b').Some? ==>
              Gathered(stored, a, b, x, y + 1, a', b'.parent.block, left, right + b'.txs)
  {
    WalkTwo(stored, a, b, x, y, a', b');
    TxsOfMore(Branch(b, y), b');
  }

  lemma GatherEnd(stored: set<Block>, a: Block, b: Block, x: nat, y: nat, c: Block, left: seq<Tx>, right: seq<Tx>)
    requires Gathered(stored, a, b, x, y, c, c, left, right)
    ensures ForkPoint(stored, a, b, x, y) && Meet(stored, a, b, x, y)
    ensures left == TxsOf(Branch(a, x)) && right == TxsOf(Branch(b, y))
  {
    WalkEnd(stored, a, b, x, y, c);
  }

  function Difference(a: seq<Tx>, b: seq<Tx>): seq<Tx> {
    if a == [] then []
    else Difference(a[..|a| - 1], b) + if a[|a| - 1] in b then [] else [a[|a| - 1]]
  }

  /** core/types/transaction.go, TxDifference: the transactions of `a` that are not in `b`. */
  method TxDifference(a: seq<Tx>, b: seq<Tx>) returns (keep: seq<Tx>)
    ensures keep == Difference(a, b)
  {
    keep := [];
    var remove: set<TxHash> := {};
    for i := 0 to |b|
      invariant remove == set tx | tx in b[..i] :: tx.Hash()
    {
      assert b[..i + 1] == b[..i] + [b[i]];
      remove := remove + {b[i].Hash()};
    }
    assert b[..|b|] == b;
    for i := 0 to |a|
      invariant keep == Difference(a[..i], b)
    {
      assert a[..i + 1][..i] == a[..i];
      assert a[i].Hash() in remove <==> a[i] in b;
      if a[i].Hash() !in remove {
        keep := keep + [a[i]];
      }
    }
    assert a[..|a|] == a;
  }

  lemma {:induction false} InDifference(a: seq<Tx>, b: seq<Tx>, tx: Tx)
    ensures tx in Difference(a, b) <==> tx in a && tx !in b
  {
    if a != [] {
      InDifference(a[..|a| - 1], b, tx);
      assert a == a[..|a| - 1] + [a[|a| - 1]];
    }
  }

  /** Two blocks on one parent meet there, and not above. */
  lemma SiblingsMeet(stored: set<Block>, a: Block, b: Block)
    requires a != b && a.parent == b.parent && a.parent.Id? && a.parent.block in stored && a.number == b.number == a.parent.block.number + 1
    ensures Meet(stored, a, b, 1, 1) && a.Hash() != b.parent
  {
    assert Rooted(stored, a.parent.block, 0);
    assert Up(a, 1) == Up(a.parent.block, 0);
    assert a.Hash() == b.parent ==> a.number == a.number - 1;
  }

  lemma SiblingFork(stored: set<Block>, a: Block, b: Block, i: nat, j: nat)
    requires a != b && a.parent == b.parent && a.parent.Id? && a.parent.block in stored && a.number == b.number == a.parent.block.number + 1
    requires ForkPoint(stored, a, b, i, j)
    ensures i == j == 1 && Branch(a, i) == [a] && Branch(b, j) == [b]
  {
    SiblingsMeet(stored, a, b);
    RootedNumber(stored, a, i);
    RootedNumber(stored, b, j);
    assert i <= 1 && j <= 1;
    assert Branch(a.parent.block, 0) == [] && Branch(b.parent.block, 0) == [];
  }
}
