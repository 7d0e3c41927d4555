/** The tree of stored headers, and the path from the genesis to one of them. */
module ChainTree {
  import opened Transactions
  import opened Blocks

  predicate Child(stored: set<Block>, b: Block) {
    b.parent.Id? && b.parent.block in stored && b.number == b.parent.block.number + 1
  }

  /** Every stored header but the genesis has its parent stored, one number below. */
  ghost predicate Tree(genesis: Block, stored: set<Block>) {
    && genesis in stored && genesis.number == 0
    && forall b :: b in stored && b != genesis ==> Child(stored, b)
  }

  /** The ancestor of `b` at number `n`. */
  function AtNumber(b: Block, n: nat): Option<Block> {
    if n <= b.number then Up(b, b.number - n) else None
  }

  function HashAt(b: Block, n: nat): Hash {
    if AtNumber(b, n).Some? then AtNumber(b, n).value.Hash() else Zero
  }

  /** Numbers to hashes, along the path that leads to `b`. */
  ghost function PathTo(b: Block): map<nat, Hash> {
    map n | 0 <= n <= b.number :: HashAt(b, n)
  }

  /** The difficulty of a header and all its ancestors. */
  ghost function Weight(genesis: Block, b: Block): nat {
    b.difficulty + if b != genesis && b.parent.Id? then Weight(genesis, b.parent.block) else 0
  }

  lemma {:induction false} TreeUp(genesis: Block, stored: set<Block>, b: Block, k: nat)
    requires Tree(genesis, stored) && b in stored && k <= b.number
    ensures Up(b, k).Some? && Up(b, k).value in stored && Up(b, k).value.number == b.number - k
    ensures k == b.number ==> Up(b, k) == Some(genesis)
    decreases k
  {
    if k > 0 {
      assert b != genesis;
      TreeUp(genesis, stored, b.parent.block, k - 1);
    }
  }

  lemma {:induction false} UpTwice(b: Block, j: nat, k: nat)
    requires Up(b, j).Some?
    ensures Up(Up(b, j).value, k) == Up(b, j + k)
    decreases j
  {
    if j > 0 {
      UpTwice(b.parent.block, j - 1, k);
    }
  }

  /** Below a common block two paths are the same. */
  lemma SamePath(genesis: Block, stored: set<Block>, a: Block, b: Block, n: nat, m: nat)
    requires Tree(genesis, stored) && a in stored && b in stored && m <= n <= a.number && n <= b.number
    requires HashAt(a, n) == HashAt(b, n)
    ensures HashAt(a, m) == HashAt(b, m)
  {
    hide Up, Tree;
    TreeUp(genesis, stored, a, a.number - n);
    TreeUp(genesis, stored, b, b.number - n);
    UpTwice(a, a.number - n, n - m);
    UpTwice(b, b.number - n, n - m);
  }

  /** One step down a path. */
  lemma PathParent(genesis: Block, stored: set<Block>, b: Block, n: nat)
    requires Tree(genesis, stored) && b in stored && 0 < n <= b.number
    ensures HashAt(b, n).Id? && HashAt(b, n).block in stored && HashAt(b, n).block.number == n
    ensures HashAt(b, n - 1) == HashAt(b, n).block.parent && HashAt(b, n).block.parent.Id?
    ensures HashAt(b, n).block.parent.block in stored && HashAt(b, n).block.parent.block.number == n - 1
  {
    TreeUp(genesis, stored, b, b.number - n);
    UpTwice(b, b.number - n, 1);
    var x := Up(b, b.number - n).value;
    assert x != genesis;
    assert Child(stored, x);
    assert Up(x, 1) == Some(x.parent.block);
    assert AtNumber(b, n) == Some(x);
    assert AtNumber(b, n - 1) == Some(x.parent.block);
  }

  lemma PathEnds(genesis: Block, stored: set<Block>, b: Block)
    requires Tree(genesis, stored) && b in stored
    ensures HashAt(b, 0) == genesis.Hash() && HashAt(b, b.number) == b.Hash()
  {
    TreeUp(genesis, stored, b, b.number);
  }

  ghost function Depth(b: Block): nat { if b.parent.Id? then 1 + Depth(b.parent.block) else 0 }

  lemma {:induction false} UpDepth(b: Block, k: nat)
    requires Up(b, k).Some?
    ensures Depth(Up(b, k).value) == Depth(b) - k
    decreases k
  {
    if k > 0 {
      UpDepth(b.parent.block, k - 1);
    }
  }

  /** Hashes cannot be circular, so nothing stored is the parent of the genesis. */
  lemma GenesisFirst(genesis: Block, stored: set<Block>)
    requires Tree(genesis, stored)
    ensures !(genesis.parent.Id? && genesis.parent.block in stored)
  {
    if genesis.parent.Id? && genesis.parent.block in stored {
      var p := genesis.parent.block;
      TreeUp(genesis, stored, p, p.number);
      UpDepth(p, p.number);
    }
  }

  /** A header on a known parent extends the tree. */
  lemma Grow(genesis: Block, stored: set<Block>, b: Block)
    requires Tree(genesis, stored) && Child(stored, b)
    ensures Tree(genesis, stored + {b}) && b != genesis
  {
    forall c | c in stored + {b} && c != genesis ensures Child(stored + {b}, c) {
      assert c in stored ==> Child(stored, c);
    }
  }

  /** Everything up to some number is a tree again. */
  lemma Prune(genesis: Block, stored: set<Block>, n: nat)
    requires Tree(genesis, stored)
    ensures Tree(genesis, set b | b in stored && b.number <= n)
  {
  }

  /** Numbers in use have no gaps. */
  lemma {:induction false} NoGaps(genesis: Block, stored: set<Block>, b: Block, n: nat)
    requires Tree(genesis, stored) && b in stored && n <= b.number
    ensures exists c :: c in stored && c.number == n
  {
    TreeUp(genesis, stored, b, b.number - n);
    assert Up(b, b.number - n).value in stored;
  }
}
