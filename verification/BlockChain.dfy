/** core/blockchain.go: writing head blocks and reorganising the canonical chain. */
module BlockChains {
  import opened Transactions
  import opened Blocks
  import opened ChainTree
  import opened HeaderChains
  import opened TxIndex

  /** An index without gaps that leads to `b`, and may go on beyond it. */
  ghost predicate Leads(canon: map<nat, Hash>, b: Block) {
    && (forall n: nat :: n <= b.number ==> n in canon && canon[n] == HashAt(b, n))
    && (forall n: nat, m: nat :: n in canon && m <= n ==> m in canon)
    && (forall n: nat :: n in canon ==> canon[n] != Zero)
  }

  /** Whether the old and the new branch were walked down to `a` and `b`, and what they had above. */
  ghost predicate Collected(stored: set<Block>, old0: Block, new0: Block, i: nat, j: nat, a: Block, b: Block,
                            oldChain: seq<Block>, newChain: seq<Block>, deletedTxs: seq<Tx>) {
    && Gathered(stored, old0, new0, i, j, a, b, deletedTxs, TxsOf(newChain))
    && oldChain == Branch(old0, i) && newChain == Branch(new0, j)
  }

  lemma CollectStart(stored: set<Block>, a: Block, b: Block)
    ensures Collected(stored, a, b, 0, 0, a, b, [], [], [])
  {
    GatherStart(stored, a, b);
  }

  lemma CollectOld(stored: set<Block>, old0: Block, new0: Block, i: nat, j: nat, a: Block, b: Block,
                   oldChain: seq<Block>, newChain: seq<Block>, deletedTxs: seq<Tx>)
    requires Collected(stored, old0, new0, i, j, a, b, oldChain, newChain, deletedTxs) && a != b && a.number >= b.number
    ensures GetParent(stored, a).None? ==> forall k: nat, l: nat :: !Meet(stored, old0, new0, k, l)
    ensures GetParent(stored, a).Some? ==>
              Collected(stored, old0, new0, i + 1, j, a.parent.block, b, oldChain + [a], newChain, deletedTxs + a.txs)
  {
    hide Branch, TxsOf, Walked;
    GatherOld(stored, old0, new0, i, j, a, b, deletedTxs, TxsOf(newChain));
    WalkOne(stored, old0, new0, i, j, a, b);
  }

  lemma CollectNew(stored: set<Block>, old0: Block, new0: Block, i: nat, j: nat, a: Block, b: Block,
                   oldChain: seq<Block>, newChain: seq<Block>, deletedTxs: seq<Tx>)
    requires Collected(stored, old0, new0, i, j, a, b, oldChain, newChain, deletedTxs) && a != b && b.number >= a.number
    ensures GetParent(stored, b).None? ==> forall k: nat, l: nat :: !Meet(stored, old0, new0, k, l)
    ensures GetParent(stored, b).Some? ==>
              Collected(stored, old0, new0, i, j + 1, a, b.parent.block, oldChain, newChain + [b], deletedTxs)
  {
    hide Branch, TxsOf, Walked;
    GatherNew(stored, old0, new0, i, j, a, b, deletedTxs, TxsOf(newChain));
    WalkTwo(stored, old0, new0, i, j, a, b);
    TxsOfMore(newChain, b);
  }

  lemma CollectEnd(stored: set<Block>, old0: Block, new0: Block, i: nat, j: nat, c: Block,
                   oldChain: seq<Block>, newChain: seq<Block>, deletedTxs: seq<Tx>)
    requires Collected(stored, old0, new0, i, j, c, c, oldChain, newChain, deletedTxs)
    ensures ForkPoint(stored, old0, new0, i, j) && Meet(stored, old0, new0, i, j)
    ensures oldChain == Branch(old0, i) && newChain == Branch(new0, j) && deletedTxs == TxsOf(oldChain)
  {
    GatherEnd(stored, old0, new0, i, j, c, deletedTxs, TxsOf(newChain));
  }

  /** The first half of reorg: both branches down to the common block. */
  method FindFork(stored: set<Block>, oldHead: Block, newHead: Block)
    returns (ok: bool, oldChain: seq<Block>, newChain: seq<Block>, deletedTxs: seq<Tx>, ghost i: nat, ghost j: nat)
    ensures ok <==> exists k, l :: Meet(stored, oldHead, newHead, k, l)
    ensures ok ==> ForkPoint(stored, oldHead, newHead, i, j)
    ensures ok ==> oldChain == Branch(oldHead, i) && newChain == Branch(newHead, j) && deletedTxs == TxsOf(oldChain)
  {
    hide Collected, ForkPoint, Meet, TxsOf, Branch;
    var oldBlock, newBlock := Some(oldHead), Some(newHead);
    ok, oldChain, newChain, deletedTxs, i, j := false, [], [], [], 0, 0;
    CollectStart(stored, oldHead, newHead);
    if oldHead.number > newHead.number {
      while oldBlock.Some? && oldBlock.value.number != newHead.number
        invariant oldBlock.Some? ==> Collected(stored, oldHead, newHead, i, j, oldBlock.value, newHead, oldChain, newChain, deletedTxs)
        invariant oldBlock.Some? ==> oldBlock.value.number >= newHead.number
        invariant oldBlock.None? ==> forall k, l :: !Meet(stored, oldHead, newHead, k, l)
        decreases if oldBlock.Some? then oldBlock.value.number + 1 else 0
      {
        var b := oldBlock.value;
        CollectOld(stored, oldHead, newHead, i, j, b, newHead, oldChain, newChain, deletedTxs);
        oldChain, deletedTxs := oldChain + [b], deletedTxs + b.txs;
        oldBlock, i := GetParent(stored, b), i + 1;
      }
    } else {
      while newBlock.Some? && newBlock.value.number != oldHead.number
        invariant newBlock.Some? ==> Collected(stored, oldHead, newHead, i, j, oldHead, newBlock.value, oldChain, newChain, deletedTxs)
        invariant newBlock.Some? ==> newBlock.value.number >= oldHead.number
        invariant newBlock.None? ==> forall k, l :: !Meet(stored, oldHead, newHead, k, l)
        decreases if newBlock.Some? then newBlock.value.number + 1 else 0
      {
        var b := newBlock.value;
        CollectNew(stored, oldHead, newHead, i, j, oldHead, b, oldChain, newChain, deletedTxs);
        newChain := newChain + [b];
        newBlock, j := GetParent(stored, b), j + 1;
      }
    }
    if oldBlock.None? || newBlock.None? {
      return;
    }
    var a, b := oldBlock.value, newBlock.value;
    while a != b
      invariant Collected(stored, oldHead, newHead, i, j, a, b, oldChain, newChain, deletedTxs) && a.number == b.number
      decreases a.number
    {
      CollectOld(stored, oldHead, newHead, i, j, a, b, oldChain, newChain, deletedTxs);
      oldBlock := GetParent(stored, a);
      newBlock := GetParent(stored, b);
      oldChain, deletedTxs := oldChain + [a], deletedTxs + a.txs;
      newChain := newChain + [b];
      if oldBlock.None? {
        return;
      }
      CollectNew(stored, oldHead, newHead, i + 1, j, oldBlock.value, b, oldChain, newChain[..|newChain| - 1], deletedTxs);
      if newBlock.None? {
        return;
      }
      assert newChain[..|newChain| - 1] + [b] == newChain;
      a, b, i, j := oldBlock.value, newBlock.value, i + 1, j + 1;
    }
    CollectEnd(stored, oldHead, newHead, i, j, a, oldChain, newChain, deletedTxs);
    ok := true;
  }

  lemma BelowChild(b: Block, n: nat)
    requires b.parent.Id? && b.number == b.parent.block.number + 1 && n < b.number
    ensures HashAt(b, n) == HashAt(b.parent.block, n)
  {
  }

  /** One more block on top of where an index leads. */
  lemma LeadsNext(genesis: Block, stored: set<Block>, canon: map<nat, Hash>, b: Block)
    requires Tree(genesis, stored) && b in stored && Child(stored, b) && Leads(canon, b.parent.block)
    ensures Leads(canon[b.number := b.Hash()], b)
  {
    hide Tree, HashAt;
    PathEnds(genesis, stored, b);
    PathEnds(genesis, stored, b.parent.block);
    PathParent(genesis, stored, b, b.number);
    forall n: nat | n < b.number ensures HashAt(b, n) == HashAt(b.parent.block, n) { BelowChild(b, n); }
  }

  lemma BelowUp(b: Block, k: nat, n: nat)
    requires Up(b, k).Some? && Up(b, k).value.number == b.number - k && n <= b.number - k
    ensures HashAt(Up(b, k).value, n) == HashAt(b, n)
  {
    hide Up;
    UpTwice(b, k, b.number - k - n);
  }

  /** An index that leads to a block leads to its ancestors. */
  lemma LeadsBelow(genesis: Block, stored: set<Block>, canon: map<nat, Hash>, b: Block, k: nat)
    requires Tree(genesis, stored) && b in stored && Leads(canon, b) && k <= b.number
    ensures Up(b, k).Some? && Leads(canon, Up(b, k).value)
  {
    hide Tree, Up, HashAt;
    TreeUp(genesis, stored, b, k);
    var c := Up(b, k).value;
    forall n: nat | n <= c.number ensures HashAt(c, n) == HashAt(b, n) { BelowUp(b, k, n); }
  }

  /** While the new branch is written: its transactions so far have their new entries, all others
      the ones they had. */
  ghost predicate Relooking(genesis: Block, lookup0: Lookup, lookup: Lookup, base: Block, added: seq<Tx>) {
    forall h :: if Has(added, h) then Agree(lookup, Index(genesis, base), h) else Agree(lookup, lookup0, h)
  }

  lemma RelookNext(genesis: Block, stored: set<Block>, lookup0: Lookup, lookup: Lookup, b: Block, added: seq<Tx>)
    requires Tree(genesis, stored) && b in stored && b != genesis
    requires Relooking(genesis, lookup0, lookup, b.parent.block, added)
    ensures Relooking(genesis, lookup0, lookup + Entries(b), b, added + b.txs)
  {
    hide Index, Tree, Entries;
    forall h ensures if Has(added + b.txs, h) then Agree(lookup + Entries(b), Index(genesis, b), h)
                     else Agree(lookup + Entries(b), lookup0, h)
    {
      EntriesOf(b, h);
      IndexStep(genesis, stored, b, h);
      assert Has(added + b.txs, h) <==> Has(added, h) || Has(b.txs, h);
    }
  }

  /** After reorg has dropped the entries of the old branch that the new one, but for its head, does
      not have. */
  ghost predicate Relooked(genesis: Block, lookup0: Lookup, lookup: Lookup, base: Block, deleted: seq<Tx>, added: seq<Tx>) {
    forall h :: if Has(added, h) then Agree(lookup, Index(genesis, base), h)
                else if Has(deleted, h) then h !in lookup
                else Agree(lookup, lookup0, h)
  }

  lemma DropLost(genesis: Block, lookup0: Lookup, lookup: Lookup, base: Block, deleted: seq<Tx>, added: seq<Tx>)
    requires Relooking(genesis, lookup0, lookup, base, added)
    ensures Relooked(genesis, lookup0, lookup - set tx | tx in Difference(deleted, added) :: tx.Hash(), base, deleted, added)
  {
    hide Index, Difference;
    var gone := set tx | tx in Difference(deleted, added) :: tx.Hash();
    forall h ensures h in gone <==> Has(deleted, h) && !Has(added, h) {
      InDifference(deleted, added, h.preimage);
      assert h == h.preimage.Hash();
    }
  }

  lemma {:induction false} TreeRooted(genesis: Block, stored: set<Block>, b: Block, k: nat)
    requires Tree(genesis, stored) && b in stored && k <= b.number
    ensures Rooted(stored, b, k)
    decreases k
  {
    if k > 0 {
      assert b != genesis;
      TreeRooted(genesis, stored, b.parent.block, k - 1);
    }
  }

  /** Any two stored blocks meet, at the genesis at the latest. */
  lemma TreeMeets(genesis: Block, stored: set<Block>, a: Block, b: Block)
    requires Tree(genesis, stored) && a in stored && b in stored
    ensures Meet(stored, a, b, a.number, b.number)
  {
    TreeRooted(genesis, stored, a, a.number);
    TreeRooted(genesis, stored, b, b.number);
    TreeUp(genesis, stored, a, a.number);
    TreeUp(genesis, stored, b, b.number);
  }

  /** Where the branches meet, in numbers. */
  lemma ForkNumbers(genesis: Block, stored: set<Block>, a: Block, b: Block, i: nat, j: nat)
    requires Tree(genesis, stored) && a in stored && b in stored && ForkPoint(stored, a, b, i, j)
    ensures i <= a.number && j <= b.number && a.number - i == b.number - j
    ensures Up(a, i).Some? && Up(a, i) == Up(b, j) && Up(a, i).value in stored && Up(a, i).value.number == a.number - i
  {
    TreeMeets(genesis, stored, a, b);
    TreeUp(genesis, stored, a, i);
    TreeUp(genesis, stored, b, j);
  }

  /** The block that reorg leaves as the head, for writeHeadBlock to go on from. */
  function Base(oldHead: Block, newHead: Block, j: nat): Block {
    if j >= 2 && newHead.parent.Id? then newHead.parent.block else oldHead
  }

  lemma BaseStored(genesis: Block, stored: set<Block>, a: Block, b: Block, j: nat)
    requires Tree(genesis, stored) && a in stored && b in stored && j <= b.number
    ensures Base(a, b, j) in stored
    ensures j >= 2 ==> Child(stored, b) && Base(a, b, j).number == b.number - 1
  {
  }

  /** The base has the new head's path below it. */
  lemma SameBelow(genesis: Block, stored: set<Block>, a: Block, b: Block, i: nat, j: nat)
    requires Tree(genesis, stored) && a in stored && b in stored && ForkPoint(stored, a, b, i, j)
    ensures forall n: nat :: n < b.number && (j >= 2 || n <= a.number - i) ==> HashAt(Base(a, b, j), n) == HashAt(b, n)
    ensures j == 0 ==> HashAt(a, b.number) == b.Hash()
  {
    hide Tree, ForkPoint;
    ForkNumbers(genesis, stored, a, b, i, j);
    var c := Up(a, i).value;
    forall n: nat | n < b.number && (j >= 2 || n <= a.number - i) ensures HashAt(Base(a, b, j), n) == HashAt(b, n) {
      if j >= 2 {
        BaseStored(genesis, stored, a, b, j);
        BelowChild(b, n);
      } else {
        SamePath(genesis, stored, a, b, c.number, n);
      }
    }
  }

  /** A one-block branch, or none, does not overwrite the end of a longer old branch. */
  lemma FinalCanon(genesis: Block, stored: set<Block>, a: Block, b: Block, i: nat, j: nat)
    requires Tree(genesis, stored) && a in stored && b in stored && ForkPoint(stored, a, b, i, j)
    ensures PathTo(Base(a, b, j))[b.number := b.Hash()] == PathTo(b) <==> j >= 2 || i <= j
    ensures Leads(PathTo(Base(a, b, j))[b.number := b.Hash()], b)
  {
    hide HashAt, Tree, ForkPoint, Up;
    ForkNumbers(genesis, stored, a, b, i, j);
    var base := Base(a, b, j);
    var canon := PathTo(base)[b.number := b.Hash()];
    PathEnds(genesis, stored, b);
    SameBelow(genesis, stored, a, b, i, j);
    BaseStored(genesis, stored, a, b, j);
    PathDefined(genesis, stored, base);
    PathDefined(genesis, stored, b);
    assert j < 2 && i > j ==> base.number in canon && base.number !in PathTo(b);
  }

  /** Some transaction was on the old branch and below it, and is not on the new one. */
  ghost predicate Lost(genesis: Block, a: Block, b: Block, i: nat, j: nat, h: TxHash) {
    && Has(TxsOf(Branch(a, i)), h) && !Has(TxsOf(Branch(b, j)), h) && !Has(b.txs, h)
    && Up(a, i).Some? && h in Index(genesis, Up(a, i).value)
  }

  /** The transactions that reorg writes before the head block. */
  ghost function Added(b: Block, j: nat): seq<Tx> {
    if j >= 2 && b.parent.Id? then TxsOf(Branch(b.parent.block, j - 1)) else []
  }

  lemma NewBranch(genesis: Block, stored: set<Block>, b: Block, j: nat, h: TxHash)
    requires Tree(genesis, stored) && b in stored && j <= b.number
    ensures Has(b.txs, h) ==> h in Index(genesis, b) && Index(genesis, b)[h] == b.number
    ensures j > 0 ==> (Has(TxsOf(Branch(b, j)), h) <==> Has(b.txs, h) || Has(Added(b, j), h))
    ensures j == 0 ==> !Has(TxsOf(Branch(b, j)), h)
    ensures Has(Added(b, j), h) && !Has(b.txs, h) ==> Agree(Index(genesis, b), Index(genesis, b.parent.block), h)
  {
    NoTxs();
    if b != genesis {
      IndexStep(genesis, stored, b, h);
      if j > 0 {
        TxsOfCons(b, Branch(b.parent.block, j - 1));
      }
    } else {
      EntriesOf(b, h);
    }
  }

  /** The entry of one transaction after reorg and writeHeadBlock. */
  lemma FinalEntry(genesis: Block, stored: set<Block>, a: Block, b: Block, i: nat, j: nat, lookup: Lookup, h: TxHash)
    requires Tree(genesis, stored) && a in stored && b in stored && ForkPoint(stored, a, b, i, j)
    requires Relooked(genesis, Index(genesis, a), lookup, Base(a, b, j), TxsOf(Branch(a, i)), Added(b, j))
    ensures Agree(lookup + Entries(b), Index(genesis, b), h) <==> !Lost(genesis, a, b, i, j, h)
  {
    hide Index, Tree, ForkPoint, Entries, TxsOf;
    ForkNumbers(genesis, stored, a, b, i, j);
    EntriesOf(b, h);
    IndexBranch(genesis, stored, a, i, h);
    IndexBranch(genesis, stored, b, j, h);
    NewBranch(genesis, stored, b, j, h);
    assert Has(Added(b, j), h) || !Has(Added(b, j), h);
  }

  lemma AgreeAll(a: Lookup, b: Lookup)
    requires forall h :: Agree(a, b, h)
    ensures a == b
  {
    forall h ensures (h in a <==> h in b) && (h in a ==> a[h] == b[h]) { assert Agree(a, b, h); }
  }

  lemma NoneLost(genesis: Block, stored: set<Block>, a: Block, b: Block, i: nat, j: nat, h: TxHash)
    requires Tree(genesis, stored) && NoReplay(genesis, stored) && a in stored && b in stored && ForkPoint(stored, a, b, i, j)
    ensures !Lost(genesis, a, b, i, j, h)
  {
    hide Index, Tree, ForkPoint, TxsOf, NoReplay;
    ForkNumbers(genesis, stored, a, b, i, j);
    if Has(TxsOf(Branch(a, i)), h) {
      NotBelow(genesis, stored, a, i, h.preimage);
      assert h == h.preimage.Hash();
    }
  }

  /** The whole index, given that no chain has a transaction twice. */
  lemma FinalLookup(genesis: Block, stored: set<Block>, a: Block, b: Block, i: nat, j: nat, lookup: Lookup)
    requires Tree(genesis, stored) && a in stored && b in stored && ForkPoint(stored, a, b, i, j)
    requires Relooked(genesis, Index(genesis, a), lookup, Base(a, b, j), TxsOf(Branch(a, i)), Added(b, j))
    ensures lookup + Entries(b) == Index(genesis, b) <==> forall h :: !Lost(genesis, a, b, i, j, h)
    ensures NoReplay(genesis, stored) ==> lookup + Entries(b) == Index(genesis, b)
  {
    hide Index, Tree, ForkPoint, Entries, TxsOf, Lost, NoReplay, Relooked;
    forall h { FinalEntry(genesis, stored, a, b, i, j, lookup, h); }
    if lookup + Entries(b) == Index(genesis, b) {
      assert forall h :: Agree(lookup + Entries(b), Index(genesis, b), h);
    }
    if forall h :: !Lost(genesis, a, b, i, j, h) {
      AgreeAll(lookup + Entries(b), Index(genesis, b));
    }
    if NoReplay(genesis, stored) {
      forall h ensures !Lost(genesis, a, b, i, j, h) { NoneLost(genesis, stored, a, b, i, j, h); }
    }
  }

  lemma BranchSize(genesis: Block, stored: set<Block>, b: Block, j: nat)
    requires Tree(genesis, stored) && b in stored && j <= b.number
    ensures |Branch(b, j)| == j
  {
    TreeRooted(genesis, stored, b, j);
    if j > 0 {
      BranchAt(stored, b, j, 0);
    }
  }

  lemma NothingAdded(genesis: Block, lookup: Lookup, base: Block, b: Block)
    ensures Relooking(genesis, lookup, lookup, base, []) && TxsOf(Branch(b, 0)) == []
  {
  }

  /** Going up a branch, the next block is the child of the last one. */
  lemma NextUp(genesis: Block, stored: set<Block>, b: Block, j: nat, k: nat)
    requires Tree(genesis, stored) && b in stored && k < j <= b.number
    ensures |Branch(b, j)| == j && Up(b, k) == Some(Branch(b, j)[k])
    ensures var c := Branch(b, j)[k];
            && c in stored && c != genesis && Child(stored, c) && Up(b, k + 1) == Some(c.parent.block)
            && forall m: nat :: Branch(c, m + 1) == [c] + Branch(c.parent.block, m)
  {
    TreeRooted(genesis, stored, b, j);
    BranchAt(stored, b, j, k);
    TreeUp(genesis, stored, b, k);
    UpTwice(b, k, 1);
    var c := Branch(b, j)[k];
    assert Up(c, 1) == Up(c.parent.block, 0);
  }

  lemma SameAdded(genesis: Block, lookup0: Lookup, lookup: Lookup, base: Block, deleted: seq<Tx>, added: seq<Tx>, added': seq<Tx>)
    requires Relooked(genesis, lookup0, lookup, base, deleted, added) && forall h :: Has(added, h) <==> Has(added', h)
    ensures Relooked(genesis, lookup0, lookup, base, deleted, added')
  {
    hide Index;
    forall h ensures if Has(added', h) then Agree(lookup, Index(genesis, base), h)
                     else if Has(deleted, h) then h !in lookup
                     else Agree(lookup, lookup0, h) {
      assert Has(added, h) <==> Has(added', h);
    }
  }

  /** Without the numbers above `from` and below `i`. */
  function Skipping(canon: map<nat, Hash>, from: nat, i: nat): map<nat, Hash> { map n | n in canon && !(from < n < i) :: canon[n] }

  lemma SkipNone(canon: map<nat, Hash>, from: nat)
    ensures Skipping(canon, from, from + 1) == canon
  {
  }

  lemma SkipOne(canon: map<nat, Hash>, from: nat, i: nat)
    requires i in canon && from < i
    ensures Skipping(canon, from, i + 1) == Skipping(canon, from, i) - {i}
    ensures |Skipping(canon, from, i) - {i}| < |Skipping(canon, from, i)|
  {
    var r := Skipping(canon, from, i);
    assert r.Keys == (r - {i}).Keys + {i};
  }

  lemma LeadsOnly(genesis: Block, stored: set<Block>, canon: map<nat, Hash>, head: Block, i: nat)
    requires Tree(genesis, stored) && head in stored && Leads(canon, head) && i > head.number && (i in canon ==> canon[i] == Zero)
    ensures Skipping(canon, head.number, i) == PathTo(head)
  {
    hide Tree, HashAt;
    PathDefined(genesis, stored, head);
  }

  /** Deletes the canonical numbers above the head, up to the first gap. */
  method DeleteAbove(ghost genesis: Block, ghost stored: set<Block>, canon: map<nat, Hash>, head: Block) returns (r: map<nat, Hash>)
    requires Tree(genesis, stored) && head in stored && Leads(canon, head)
    ensures r == PathTo(head)
  {
    hide Tree, HashAt, Leads, PathTo, Skipping;
    r := canon;
    var i: nat := head.number + 1;
    SkipNone(canon, head.number);
    while i in canon && canon[i] != Zero
      invariant i > head.number && r == Skipping(canon, head.number, i)
      decreases |r|
    {
      SkipOne(canon, head.number, i);
      r := r - {i};
      i := i + 1;
    }
    LeadsOnly(genesis, stored, canon, head, i);
  }

  lemma OnTop(genesis: Block, stored: set<Block>, a: Block, b: Block)
    requires Tree(genesis, stored) && a in stored && b in stored && b.parent == a.Hash()
    ensures ForkPoint(stored, a, b, 0, 1) && Child(stored, b) && b != genesis
  {
    GenesisFirst(genesis, stored);
    TreeRooted(genesis, stored, b, 1);
    assert Up(b, 1) == Up(a, 0);
    forall k: nat, l: nat | Meet(stored, a, b, k, l) ensures l > 0 {
      RootedNumber(stored, a, k);
      RootedNumber(stored, b, l);
    }
  }

  lemma IndexOnTop(genesis: Block, stored: set<Block>, b: Block)
    requires Tree(genesis, stored) && b in stored && b != genesis
    ensures Index(genesis, b.parent.block) + Entries(b) == Index(genesis, b)
  {
  }

  lemma OnOldBranch(genesis: Block, stored: set<Block>, a: Block, b: Block, i: nat)
    requires Tree(genesis, stored) && a in stored && b in stored && b.number <= a.number && HashAt(a, b.number) == b.Hash()
    ensures Meet(stored, a, b, a.number - b.number, 0)
  {
    TreeUp(genesis, stored, a, a.number - b.number);
    TreeRooted(genesis, stored, a, a.number - b.number);
  }

  /** After reorg the number of a head that is not the old head or its ancestor has another hash, or none. */
  lemma HeadUnmarked(genesis: Block, stored: set<Block>, a: Block, b: Block, i: nat, j: nat)
    requires Tree(genesis, stored) && a in stored && b in stored && ForkPoint(stored, a, b, i, j)
    ensures j > 0 && b.number in PathTo(Base(a, b, j)) ==> PathTo(Base(a, b, j))[b.number] != b.Hash()
  {
    hide Tree, HashAt;
    ForkNumbers(genesis, stored, a, b, i, j);
    BaseStored(genesis, stored, a, b, j);
    if j == 1 && b.number <= a.number && HashAt(a, b.number) == b.Hash() {
      OnOldBranch(genesis, stored, a, b, i);
    }
  }

  class BlockChain {
    const genesis: Block
    // The database: blocks, total difficulties, canonical hashes, transaction lookup entries.
    var stored: set<Block>
    var tds: map<Hash, nat>
    var canon: map<nat, Hash>
    var lookup: Lookup
    // The head markers, the same on disk and in memory.
    var currentBlock: Block
    var currentHeader: Block
    var currentFast: Block

    /** The stored blocks are a tree with right weights, and no chain has a transaction twice. */
    ghost predicate Grounded() reads `stored, `tds {
      Tree(genesis, stored) && Weighed(genesis, stored, tds) && NoReplay(genesis, stored)
    }

    /** The number index leads to the head block, and the lookup is the head's. Headers may be ahead. */
    ghost predicate Valid() reads this {
      && Grounded() && currentBlock in stored
      && Leads(canon, currentBlock) && lookup == Index(genesis, currentBlock)
    }

    ghost predicate Heaviest() reads `stored, `currentBlock {
      forall b :: b in stored ==> Weight(genesis, b) <= Weight(genesis, currentBlock)
    }

    constructor (genesis: Block)
      requires genesis.number == 0
      ensures Valid() && Heaviest() && this.genesis == genesis && stored == {genesis} && currentBlock == genesis
    {
      this.genesis, stored, tds := genesis, {genesis}, map[genesis.Hash() := genesis.difficulty];
      canon, lookup := map[0 := genesis.Hash()], Entries(genesis);
      currentBlock, currentHeader, currentFast := genesis, genesis, genesis;
      new;
      assert Index(genesis, genesis) == map[] + Entries(genesis);
      assert map[] + Entries(genesis) == Entries(genesis);
    }

    /** writeHeadBlock. */
    method WriteHeadBlock(b: Block)
      modifies `canon, `lookup, `currentBlock, `currentHeader, `currentFast
      ensures currentBlock == b && canon == old(canon)[b.number := b.Hash()] && lookup == old(lookup) + Entries(b)
      ensures if b.number in old(canon) && old(canon)[b.number] == b.Hash()
              then currentHeader == old(currentHeader) && currentFast == old(currentFast)
              else currentHeader == currentFast == b
    {
      var updateHeads := !(b.number in canon && canon[b.number] == b.Hash());
      canon := canon[b.number := b.Hash()];
      lookup := lookup + Entries(b);
      if updateHeads {
        currentHeader, currentFast := b, b;
      }
      currentBlock := b;
    }

    /** Makes the new branch canonical up to, but not including, its head. */
    method WriteBranch(newChain: seq<Block>, ghost newHead: Block, ghost j: nat) returns (addedTxs: seq<Tx>)
      requires Grounded() && newHead in stored && j <= newHead.number && newChain == Branch(newHead, j)
      requires Up(newHead, j).Some? && Leads(canon, Up(newHead, j).value) && currentBlock in stored && Leads(canon, currentBlock)
      modifies `canon, `lookup, `currentBlock, `currentHeader, `currentFast
      ensures currentBlock == Base(old(currentBlock), newHead, j) && Leads(canon, currentBlock)
      ensures forall h :: Has(addedTxs, h) <==> Has(Added(newHead, j), h)
      ensures Relooking(genesis, old(lookup), lookup, currentBlock, addedTxs)
    {
      hide Tree, Weighed, NoReplay, Leads, Index, Branch, TxsOf, Entries, Up, Relooking;
      addedTxs := [];
      BranchSize(genesis, stored, newHead, j);
      NothingAdded(genesis, lookup, currentBlock, newHead);
      ghost var base := Up(newHead, j).value;
      NothingAdded(genesis, lookup, base, base);
      var k := |newChain| - 1;
      while k >= 1
        invariant k <= j - 1 && (j >= 1 ==> k >= 0) && (j == 0 ==> k == -1)
        invariant j >= 1 ==> Up(newHead, k + 1) == Some(base) && Leads(canon, base)
        invariant j >= 1 ==> forall h :: Has(addedTxs, h) <==> Has(TxsOf(Branch(base, j - 1 - k)), h)
        invariant Relooking(genesis, old(lookup), lookup, base, addedTxs)
        invariant if k < j - 1 then currentBlock == base else currentBlock == old(currentBlock) && lookup == old(lookup) && addedTxs == []
        invariant currentBlock in stored && Leads(canon, currentBlock)
        decreases k
      {
        var b := newChain[k];
        NextUp(genesis, stored, newHead, j, k);
        LeadsNext(genesis, stored, canon, b);
        RelookNext(genesis, stored, old(lookup), lookup, b, addedTxs);
        TxsOfCons(b, Branch(base, j - 1 - k));
        assert Branch(b, j - 1 - k + 1) == [b] + Branch(base, j - 1 - k);
        assert forall h :: Has(addedTxs + b.txs, h) <==> Has(addedTxs, h) || Has(b.txs, h);
        WriteHeadBlock(b);
        addedTxs := addedTxs + b.txs;
        base := b;
        k := k - 1;
      }
      if j >= 2 {
        OneUp(genesis, stored, newHead);
      }
    }

    /** reorg. Any two stored blocks have a fork point; the number index then leads exactly to the new
        branch without its head, or to the old head if the new branch has no more than its head. */
    method Reorg(newHead: Block) returns (ok: bool, ghost i: nat, ghost j: nat)
      requires Valid() && newHead in stored
      modifies `canon, `lookup, `currentBlock, `currentHeader, `currentFast
      ensures ok && ForkPoint(stored, old(currentBlock), newHead, i, j)
      ensures currentBlock == Base(old(currentBlock), newHead, j) && canon == PathTo(currentBlock)
      ensures Relooked(genesis, Index(genesis, old(currentBlock)), lookup, currentBlock,
                       TxsOf(Branch(old(currentBlock), i)), Added(newHead, j))
    {
      hide Tree, Weighed, NoReplay, Leads, Index, Branch, TxsOf, Up, Relooking, Relooked, ForkPoint, Meet, PathTo, Difference;
      TreeMeets(genesis, stored, currentBlock, newHead);
      var oldChain, newChain, deletedTxs;
      ok, oldChain, newChain, deletedTxs, i, j := FindFork(stored, currentBlock, newHead);
      ForkNumbers(genesis, stored, currentBlock, newHead, i, j);
      LeadsBelow(genesis, stored, canon, currentBlock, i);
      var addedTxs := WriteBranch(newChain, newHead, j);
      BaseStored(genesis, stored, old(currentBlock), newHead, j);
      var gone := TxDifference(deletedTxs, addedTxs);
      DropLost(genesis, old(lookup), lookup, currentBlock, deletedTxs, addedTxs);
      lookup := lookup - set tx | tx in gone :: tx.Hash();
      SameAdded(genesis, old(lookup), lookup, currentBlock, deletedTxs, addedTxs, Added(newHead, j));
      canon := DeleteAbove(genesis, stored, canon, currentBlock);
    }

    /** writeKnownBlock, which is also how a block that wins the fork choice becomes the head. */
    method WriteKnownBlock(b: Block) returns (ok: bool, ghost i: nat, ghost j: nat)
      requires Valid() && b in stored
      modifies `canon, `lookup, `currentBlock, `currentHeader, `currentFast
      ensures ok && Valid() && currentBlock == b
      ensures ForkPoint(stored, old(currentBlock), b, i, j)
      ensures b.parent != old(currentBlock).Hash() ==> (canon == PathTo(b) <==> j >= 2 || i <= j)
      ensures b.parent != old(currentBlock).Hash() && j > 0 ==> currentHeader == currentFast == b
      ensures b.parent == old(currentBlock).Hash() ==>
                && canon == old(canon)[b.number := b.Hash()]
                && if b.number in old(canon) && old(canon)[b.number] == b.Hash()
                   then currentHeader == old(currentHeader) && currentFast == old(currentFast)
                   else currentHeader == currentFast == b
    {
      hide Tree, Weighed, NoReplay, Leads, Index, Branch, TxsOf, Up, Relooked, ForkPoint, PathTo, Entries;
      ghost var head := currentBlock;
      if b.parent != currentBlock.Hash() {
        ok, i, j := Reorg(b);
        FinalCanon(genesis, stored, head, b, i, j);
        FinalLookup(genesis, stored, head, b, i, j, lookup);
        HeadUnmarked(genesis, stored, head, b, i, j);
      } else {
        ok := true;
        i, j := 0, 1;
        OnTop(genesis, stored, head, b);
        LeadsNext(genesis, stored, canon, b);
        IndexOnTop(genesis, stored, b);
      }
      WriteHeadBlock(b);
    }

    /** Writes a block and its total difficulty to the database. */
    method Store(b: Block, td: nat)
      requires Valid() && Child(stored, b) && td == b.difficulty + Weight(genesis, b.parent.block)
      requires forall tx :: tx in b.txs ==> tx.Hash() !in Index(genesis, b.parent.block)
      modifies `stored, `tds
      ensures Valid() && stored == old(stored) + {b} && td == Weight(genesis, b)
    {
      hide Weight, Tree, Weighed, Leads, Index;
      Grow(genesis, stored, b);
      WeightMore(genesis, stored, b);
      WeighedMore(genesis, stored, tds, b);
      stored := stored + {b};
      tds := tds[b.Hash() := td];
    }

    function Td(h: Hash): Option<nat> reads `tds { if h in tds then Some(tds[h]) else None }

    lemma TdIs(b: Block)
      requires Grounded()
      ensures b in stored <==> Td(b.Hash()).Some?
      ensures b in stored ==> Td(b.Hash()).value == Weight(genesis, b)
    {
      hide Weight, Tree, NoReplay;
    }

    /** Whether `b` takes over: a heavier chain does, and among equals a shorter one, or one the miner
        prefers, or a random one. */
    ghost predicate Wins(b: Block, currentPreserve: bool, blockPreserve: bool, coin: bool) reads `currentBlock {
      var mine, other := Weight(genesis, b), Weight(genesis, currentBlock);
      || mine > other
      || (mine == other && (|| b.number < currentBlock.number
                            || (b.number == currentBlock.number && !currentPreserve && (blockPreserve || coin))))
    }

    lemma NoTd()
      requires Grounded()
      ensures Td(Zero).None?
    {
      hide Weight, Tree, NoReplay;
    }

    /** writeBlockWithState, as far as blocks and their indexes are concerned. Blocks come verified: the
        number is the next one, and no transaction is on the chain already. A block that takes over
        leaves the index with exactly its path, unless it is a single block instead of a longer branch. */
    method WriteBlockWithState(b: Block, currentPreserve: bool, blockPreserve: bool, coin: bool)
      returns (status: Status, ok: bool, ghost i: nat, ghost j: nat)
      requires Valid() && (b.parent.Id? && b.parent.block in stored ==> b.number == b.parent.block.number + 1)
      requires b.parent.Id? ==> forall tx :: tx in b.txs ==> tx.Hash() !in Index(genesis, b.parent.block)
      modifies this
      ensures Valid() && (old(Heaviest()) ==> Heaviest())
      ensures ok <==> b.parent.Id? && b.parent.block in old(stored)
      ensures !ok ==> status == NonStatTy && stored == old(stored) && currentBlock == old(currentBlock) && canon == old(canon)
      ensures ok ==> stored == old(stored) + {b}
      ensures ok ==> if old(Wins(b, currentPreserve, blockPreserve, coin)) then currentBlock == b && status == CanonStatTy
                     else currentBlock == old(currentBlock) && status == SideStatTy && canon == old(canon)
      ensures ok ==>
                var mine, other := Weight(genesis, b), Weight(genesis, old(currentBlock));
                && (mine > other ==> currentBlock == b) && (mine < other ==> currentBlock == old(currentBlock))
                && (mine == other && b.number < old(currentBlock).number ==> currentBlock == b)
                && (mine == other && b.number > old(currentBlock).number ==> currentBlock == old(currentBlock))
                && (mine == other && b.number == old(currentBlock).number ==>
                      currentBlock == if !currentPreserve && (blockPreserve || coin) then b else old(currentBlock))
      ensures ok && old(Wins(b, currentPreserve, blockPreserve, coin)) ==>
                && ForkPoint(stored, old(currentBlock), b, i, j)
                && if b.parent == old(currentBlock).Hash() then canon == old(canon)[b.number := b.Hash()]
                   else (canon == PathTo(b) <==> j >= 2 || i <= j)
    {
      hide Grounded, Leads, Index, Weight, PathTo, ForkPoint;
      i, j := 0, 0;
      if b.parent.Id? {
        TdIs(b.parent.block);
      } else {
        NoTd();
      }
      var ptd := Td(b.parent);
      if ptd.None? {
        return NonStatTy, false, 0, 0;
      }
      TdIs(currentBlock);
      var localTd := Td(currentBlock.Hash());
      var externTd := b.difficulty + ptd.value;
      Store(b, externTd);
      var reorg := externTd > localTd.value;
      if !reorg && externTd == localTd.value {
        if b.number < currentBlock.number {
          reorg := true;
        } else if b.number == currentBlock.number {
          reorg := !currentPreserve && (blockPreserve || coin);
        }
      }
      ok := true;
      if reorg {
        var done;
        done, i, j := WriteKnownBlock(b);
        status := CanonStatTy;
      } else {
        status := SideStatTy;
      }
    }
  }

  datatype BlockOp = BlockOp(block: Block, currentPreserve: bool, blockPreserve: bool, coin: bool)

  /** A block as it comes out of verification. */
  ghost predicate Verified(genesis: Block, b: Block) {
    b.parent.Id? ==> b.number == b.parent.block.number + 1 && forall tx :: tx in b.txs ==> tx.Hash() !in Index(genesis, b.parent.block)
  }

  /** Over any run of blocks the index leads to the head, the lookup is the head's, and the head is
      the heaviest block. */
  method RunBlocks(bc: BlockChain, ops: seq<BlockOp>)
    requires bc.Valid() && bc.Heaviest() && forall op :: op in ops ==> Verified(bc.genesis, op.block)
    modifies bc
    ensures bc.Valid() && bc.Heaviest()
  {
    hide BlockChain.Valid, BlockChain.Heaviest, Index;
    for i := 0 to |ops|
      invariant bc.Valid() && bc.Heaviest()
    {
      assert ops[i] in ops;
      var status, ok, k, l := bc.WriteBlockWithState(ops[i].block, ops[i].currentPreserve, ops[i].blockPreserve, ops[i].coin);
    }
  }

  /** A single heavy block on the genesis takes over from two light ones, and the number of the second
      stays in the index. */
  method StaleNumberLeft() returns (bc: BlockChain)
    ensures fresh(bc) && bc.Valid() && bc.canon != PathTo(bc.currentBlock)
  {
    var g := Block(Zero, 0, 1, [], 0);
    var a := Block(g.Hash(), 1, 1, [], 0);
    var b := Block(a.Hash(), 2, 1, [], 0);
    var c := Block(g.Hash(), 1, 5, [], 0);
    assert Weight(g, g) == 1 && Weight(g, a) == 2 && Weight(g, b) == 3 && Weight(g, c) == 6;
    bc := new BlockChain(g);
    var status, ok, i, j := bc.WriteBlockWithState(a, false, false, false);
    assert bc.currentBlock == a && a in bc.stored;
    status, ok, i, j := bc.WriteBlockWithState(b, false, false, false);
    assert bc.currentBlock == b && g in bc.stored;
    status, ok, i, j := bc.WriteBlockWithState(c, false, false, false);
    assert bc.currentBlock == c && b in bc.stored;
    ForkNumbers(g, bc.stored, b, c, i, j);
  }
}
