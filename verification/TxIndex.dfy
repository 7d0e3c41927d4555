/** The index from transactions to block numbers that a chain of blocks ought to have. */
module TxIndex {
  import opened Transactions
  import opened Blocks
  import opened ChainTree

  type Lookup = map<TxHash, nat>

  function Entries(b: Block): Lookup { map tx | tx in b.txs :: tx.Hash() := b.number }

  /** The index of the chain that ends in `b`; later blocks override earlier ones. */
  ghost function Index(genesis: Block, b: Block): Lookup {
    (if b != genesis && b.parent.Id? then Index(genesis, b.parent.block) else map[]) + Entries(b)
  }

  predicate Has(txs: seq<Tx>, h: TxHash) { h.preimage in txs }

  /** The same entry, or none, in both. */
  ghost predicate Agree(a: Lookup, b: Lookup, h: TxHash) { (h in a <==> h in b) && (h in a ==> a[h] == b[h]) }

  lemma EntriesOf(b: Block, h: TxHash)
    ensures h in Entries(b) <==> Has(b.txs, h)
    ensures h in Entries(b) ==> Entries(b)[h] == b.number
  {
    assert h == h.preimage.Hash();
  }

  lemma IndexStep(genesis: Block, stored: set<Block>, b: Block, h: TxHash)
    requires Tree(genesis, stored) && b in stored && b != genesis
    ensures Has(b.txs, h) ==> h in Index(genesis, b) && Index(genesis, b)[h] == b.number
    ensures !Has(b.txs, h) ==> Agree(Index(genesis, b), Index(genesis, b.parent.block), h)
  {
    EntriesOf(b, h);
  }

  lemma {:induction false} TxsOfCons(b: Block, blocks: seq<Block>)
    ensures TxsOf([b] + blocks) == b.txs + TxsOf(blocks)
    decreases |blocks|
  {
    if blocks == [] {
      assert [b] + blocks == [] + [b];
      TxsOfMore([], b);
    } else {
      var n := |blocks| - 1;
      TxsOfCons(b, blocks[..n]);
      assert [b] + blocks == ([b] + blocks[..n]) + [blocks[n]];
      TxsOfMore([b] + blocks[..n], blocks[n]);
    }
  }

  /** A transaction of the last blocks is indexed; any other has the entry it had before them. */
  lemma {:induction false} IndexBranch(genesis: Block, stored: set<Block>, b: Block, k: nat, h: TxHash)
    requires Tree(genesis, stored) && b in stored && k <= b.number
    ensures Up(b, k).Some?
    ensures Has(TxsOf(Branch(b, k)), h) ==> h in Index(genesis, b)
    ensures !Has(TxsOf(Branch(b, k)), h) ==> Agree(Index(genesis, b), Index(genesis, Up(b, k).value), h)
    decreases k
  {
    if k > 0 {
      var p := b.parent.block;
      IndexStep(genesis, stored, b, h);
      IndexBranch(genesis, stored, p, k - 1, h);
      TxsOfCons(b, Branch(p, k - 1));
    }
  }

  /** No transaction of a stored block is on the chain below it. */
  ghost predicate NoReplay(genesis: Block, stored: set<Block>) {
    forall b, tx :: b in stored && b != genesis && b.parent.Id? && tx in b.txs ==> tx.Hash() !in Index(genesis, b.parent.block)
  }

  lemma NoTxs()
    ensures TxsOf([]) == []
  {
  }

  lemma {:induction false} NotBelow(genesis: Block, stored: set<Block>, b: Block, k: nat, tx: Tx)
    requires Tree(genesis, stored) && NoReplay(genesis, stored) && b in stored && k <= b.number
    requires tx in TxsOf(Branch(b, k))
    ensures Up(b, k).Some? && tx.Hash() !in Index(genesis, Up(b, k).value)
    decreases k
  {
    hide Index, TxsOf;
    TreeUp(genesis, stored, b, k);
    NoTxs();
    if k > 0 {
      var p := b.parent.block;
      TxsOfCons(b, Branch(p, k - 1));
      if tx in b.txs {
        IndexBranch(genesis, stored, p, k - 1, tx.Hash());
      } else {
        NotBelow(genesis, stored, p, k - 1, tx);
      }
    }
  }

  /** The block at number `n` of the chain that ends in `b` has the transaction. */
  ghost predicate On(b: Block, n: nat, h: TxHash) { AtNumber(b, n).Some? && Has(AtNumber(b, n).value.txs, h) }

  lemma HeadOn(b: Block, h: TxHash)
    ensures On(b, b.number, h) <==> Has(b.txs, h)
  {
    assert Up(b, 0) == Some(b);
  }

  lemma WithinChain(b: Block, n: nat)
    ensures AtNumber(b, n).Some? ==> n <= b.number
  {
  }

  lemma ParentOn(b: Block, n: nat, h: TxHash)
    requires b.parent.Id? && b.number == b.parent.block.number + 1 && n < b.number
    ensures On(b, n, h) <==> On(b.parent.block, n, h)
  {
  }

  lemma GenesisIndex(genesis: Block, stored: set<Block>, h: TxHash)
    requires Tree(genesis, stored)
    ensures h in Index(genesis, genesis) <==> Has(genesis.txs, h)
    ensures h in Index(genesis, genesis) ==> Index(genesis, genesis)[h] == 0
  {
    EntriesOf(genesis, h);
  }

  /** The index of a chain gives each transaction on it the number of the last block that has it. */
  lemma {:induction false} IndexExactly(genesis: Block, stored: set<Block>, b: Block, h: TxHash)
    requires Tree(genesis, stored) && b in stored
    ensures h in Index(genesis, b) <==> exists n: nat :: On(b, n, h)
    ensures h in Index(genesis, b) ==> On(b, Index(genesis, b)[h], h) && forall n: nat :: On(b, n, h) ==> n <= Index(genesis, b)[h]
    decreases b
  {
    hide Index, AtNumber;
    HeadOn(b, h);
    if b == genesis {
      GenesisIndex(genesis, stored, h);
      forall n: nat | On(b, n, h) ensures n == 0 { WithinChain(b, n); }
    } else {
      IndexStep(genesis, stored, b, h);
      IndexExactly(genesis, stored, b.parent.block, h);
      forall n: nat | n < b.number ensures On(b, n, h) <==> On(b.parent.block, n, h) { ParentOn(b, n, h); }
      forall n: nat ensures On(b, n, h) ==> n <= b.number { WithinChain(b, n); }
      forall n: nat ensures On(b.parent.block, n, h) ==> n < b.number { WithinChain(b.parent.block, n); }
    }
  }
}
