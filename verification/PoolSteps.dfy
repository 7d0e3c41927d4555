/** What the steps of the pool do to its content, its virtual nonces and its heartbeats, as
    relations between values, and how the loops of the pool build these relations up. */
module PoolSteps {
  import opened Transactions
  import opened TxSortedMaps
  import opened TxLists
  import opened TxPriced
  import opened PoolContent
  import opened PoolTotals
  import opened Blocks
  import opened TxNoncers

  datatype PoolError = AlreadyKnown | OversizedData | NegativeValue | GasLimit | InvalidSender | Underpriced
                     | NonceTooLow | InsufficientFunds | GasUintOverflow | IntrinsicGas | ReplaceUnderpriced

  /** The configuration, as sanitized on construction. */
  datatype Config = Config(priceBump: Positive, accountSlots: Positive, globalSlots: Positive,
                           accountQueue: Positive, globalQueue: Positive, lifetime: Positive)

  /** The account state at the chain head. */
  datatype StateView = StateView(nonce: Address -> uint64, balance: Address -> int)

  ghost predicate AtLeastPriced(all: Pooled, locals: set<Address>, price: nat) {
    forall h :: h in all ==> Local(locals, all[h]) || all[h].gasPrice >= price
  }

  /** What is local or not below a price. */
  ghost function WorthKeeping(all: Pooled, locals: set<Address>, price: nat): Pooled {
    map h | h in all && (Local(locals, all[h]) || all[h].gasPrice >= price) :: all[h]
  }

  ghost function HashesOf(txs: seq<Tx>): set<TxHash> { set tx | tx in txs :: tx.Hash() }

  lemma NoHashesOf()
    ensures HashesOf([]) == {}
  {
  }

  lemma HashIn(txs: seq<Tx>, tx: Tx)
    ensures tx in txs <==> tx.Hash() in HashesOf(txs)
  {
  }

  lemma MoreHashes(txs: seq<Tx>, i: nat, all: Pooled)
    requires i < |txs|
    ensures HashesOf(txs[..i + 1]) == HashesOf(txs[..i]) + {txs[i].Hash()}
    ensures all - HashesOf(txs[..i + 1]) == all - HashesOf(txs[..i]) - {txs[i].Hash()}
  {
    assert txs[..i + 1] == txs[..i] + [txs[i]];
    assert HashesOf(txs[..i + 1]) == HashesOf(txs[..i]) + {txs[i].Hash()} by {
      assert txs[i] in txs[..i + 1];
      forall h | h in HashesOf(txs[..i]) ensures h in HashesOf(txs[..i + 1]) {
        var tx :| tx in txs[..i] && tx.Hash() == h;
        assert tx in txs[..i + 1];
      }
    }
  }

  /** Of a covering heap, what is neither kept nor dropped is not pooled. */
  lemma CoverKept(all: Pooled, before: seq<Tx>, items: seq<Tx>, drop: seq<Tx>, dead: seq<Tx>)
    requires Keyed(all) && Covered(all, before) && AllDead(all, dead)
    requires multiset(before) == multiset(items) + multiset(drop) + multiset(dead)
    ensures forall h :: h in all ==> all[h] in items || all[h] in drop
    ensures Covered(all - HashesOf(drop), items)
  {
    forall h | h in all ensures all[h] in items || all[h] in drop {
      assert all[h] in multiset(before);
      assert all[h] in dead ==> !Live(all, all[h]);
      assert all[h] in multiset(items) || all[h] in multiset(drop);
    }
    forall h | h in all - HashesOf(drop) ensures all[h] in items {
      HashIn(drop, all[h]);
    }
  }

  lemma DroppedCheap(all: Pooled, locals: set<Address>, price: nat, before: seq<Tx>, items: seq<Tx>, drop: seq<Tx>, dead: seq<Tx>)
    requires Keyed(all) && Covered(all, before) && PriceCapped(all, locals, price, before, items, drop, dead)
    ensures Covered(all - HashesOf(drop), items) && HashesOf(drop) <= all.Keys
    ensures all - HashesOf(drop) == WorthKeeping(all, locals, price)
  {
    CoverKept(all, before, items, drop, dead);
    forall h | h in all ensures h in HashesOf(drop) <==> !Local(locals, all[h]) && all[h].gasPrice < price {
      if h in HashesOf(drop) {
        var tx :| tx in drop && tx.Hash() == h;
      } else {
        HashIn(drop, all[h]);
      }
    }
  }

  /** The walk of reset: what the old branch had and the new one does not. */
  method Reinjection(stored: set<Block>, oldHead: Block, newHead: Block)
    returns (ok: bool, reinject: seq<Tx>, ghost i: nat, ghost j: nat)
    ensures ok <==> oldHead in stored && exists k, l :: Meet(stored, oldHead, newHead, k, l)
    ensures ok ==> ForkPoint(stored, oldHead, newHead, i, j)
    ensures ok ==> reinject == Difference(TxsOf(Branch(oldHead, i)), TxsOf(Branch(newHead, j)))
    ensures !ok ==> reinject == []
  {
    hide Gathered, ForkPoint, Meet, TxsOf, Branch;
    ok, reinject, i, j := false, [], 0, 0;
    var found := GetBlock(stored, oldHead.Hash(), oldHead.number);
    if found.None? {
      return;
    }
    var rem, add := oldHead, newHead;
    var discarded, included := [], [];
    GatherStart(stored, oldHead, newHead);
    var parent;
    while rem.number > add.number
      invariant Gathered(stored, oldHead, newHead, i, j, rem, add, discarded, included)
      decreases rem.number
    {
      GatherOld(stored, oldHead, newHead, i, j, rem, add, discarded, included);
      discarded := discarded + rem.txs;
      parent := GetParent(stored, rem);
      if parent.None? {
        return;
      }
      rem, i := parent.value, i + 1;
    }
    while add.number > rem.number
      invariant Gathered(stored, oldHead, newHead, i, j, rem, add, discarded, included) && rem.number <= add.number
      decreases add.number
    {
      GatherNew(stored, oldHead, newHead, i, j, rem, add, discarded, included);
      included := included + add.txs;
      parent := GetParent(stored, add);
      if parent.None? {
        return;
      }
      add, j := parent.value, j + 1;
    }
    while rem != add
      invariant Gathered(stored, oldHead, newHead, i, j, rem, add, discarded, included) && rem.number == add.number
      decreases rem.number
    {
      GatherOld(stored, oldHead, newHead, i, j, rem, add, discarded, included);
      discarded := discarded + rem.txs;
      parent := GetParent(stored, rem);
      if parent.None? {
        return;
      }
      rem, i := parent.value, i + 1;
      GatherNew(stored, oldHead, newHead, i, j, rem, add, discarded, included);
      included := included + add.txs;
      parent := GetParent(stored, add);
      if parent.None? {
        return;
      }
      add, j := parent.value, j + 1;
    }
    GatherEnd(stored, oldHead, newHead, i, j, rem, discarded, included);
    reinject := TxDifference(discarded, included);
    ok := true;
  }

  datatype ResetRequest = ResetRequest(oldHead: Option<Block>, newHead: Block, stored: set<Block>, state: Option<StateView>,
                                       gasLimit: uint64, next: bool)

  /** Whether reset has to look for transactions of an abandoned branch. */
  predicate Shallow(oldHead: Option<Block>, newHead: Block) {
    && oldHead.Some? && oldHead.value.Hash() != newHead.parent
    && -64 <= oldHead.value.number - newHead.number <= 64
  }

  /** Whether reset can move to the new head: its state is there, and so are the branches if they are needed. */
  ghost predicate Reachable(r: ResetRequest) {
    && r.state.Some?
    && (Shallow(r.oldHead, r.newHead) ==> r.oldHead.value in r.stored && exists i, j :: Meet(r.stored, r.oldHead.value, r.newHead, i, j))
  }

  /** `txs` are the transactions of the old branch above the fork point that the new branch does not have. */
  ghost predicate Abandoned(stored: set<Block>, oldHead: Block, newHead: Block, txs: seq<Tx>) {
    exists i, j :: ForkPoint(stored, oldHead, newHead, i, j)
                   && txs == Difference(TxsOf(Branch(oldHead, i)), TxsOf(Branch(newHead, j)))
  }

  /** What reset has to add again. */
  ghost predicate ToReinject(r: ResetRequest, txs: seq<Tx>) {
    if Shallow(r.oldHead, r.newHead) then Abandoned(r.stored, r.oldHead.value, r.newHead, txs) else txs == []
  }

  lemma LiveSigned(c: Content, tx: Tx)
    requires Consistent(c, {}) && Live(c.all, tx)
    ensures tx.signed
  {
    assert Acct(c, {}, tx.sender);
  }

  /** Whoever is local keeps everything. */
  lemma KeepsLocal(c: Content, all: Pooled, locals: set<Address>, price: nat)
    requires Consistent(c, {}) && Keyed(c.all) && all == WorthKeeping(c.all, locals, price)
    ensures forall h :: h in all <==> h in c.all && (c.all[h].sender in locals || c.all[h].gasPrice >= price)
  {
    hide Consistent;
    forall h | h in c.all ensures c.all[h].signed {
      assert c.all[h].Hash() == h;
      LiveSigned(c, c.all[h]);
    }
  }

  lemma KeysPriced(all: Pooled, all': Pooled, locals: set<Address>, price: nat)
    requires AtLeastPriced(all, locals, price) && all'.Keys <= all.Keys && Keyed(all) && Keyed(all')
    ensures AtLeastPriced(all', locals, price)
  {
    forall h | h in all' ensures all'[h] == all[h] {
      assert all'[h].Hash() == h && all[h].Hash() == h;
    }
  }

  /** Shortening pending lists brings nothing new into the pool. */
  lemma OnlyCut(c: Content, d: Content, exempt: set<Address>, cap: nat)
    requires Consistent(c, {}) && Consistent(d, {}) && Keyed(d.all) && d.queue == c.queue
    requires d.pending == c.pending || d.pending == CutTo(c.pending, exempt, cap)
    ensures d.all.Keys <= c.all.Keys
  {
    forall h | h in d.all ensures h in c.all {
      var tx := d.all[h];
      assert Acct(c, {}, tx.sender) && Acct(d, {}, tx.sender);
      assert Live(d.all, tx);
      assert Holds(Items(d.pending, tx.sender), tx) ==> Holds(Items(c.pending, tx.sender), tx);
    }
  }

  lemma FairLimited(before: Lists, after: Lists, exempt: set<Address>, slots: nat, limit: nat, cap: nat)
    requires ListsOk(before, true) && FairCut(before, after, exempt, slots, limit, cap)
    ensures Total(after) <= limit || forall a :: a in after && a !in exempt ==> |after[a].items| <= slots
  {
    hide Total;
    forall a | a in after && a !in exempt ensures |after[a].items| <= cap { LowestLen(before[a].items, cap); }
  }

  function Lower(x: uint64, y: uint64): uint64 { if x <= y then x else y }

  /** The virtual nonce of `a` once its pending list is cut to `cap`. */
  function CutNonce(p: Lists, exempt: set<Address>, cap: nat, n: Noncer, a: Address): uint64 {
    if a in p && a !in exempt && |p[a].items| > cap then Lower(n.Get(a), Flat(p[a].items)[cap].nonce) else n.Get(a)
  }

  ghost predicate CutState(p0: Lists, p: Lists, exempt: set<Address>, cap: nat, n0: Noncer, n: Noncer) {
    && p == CutTo(p0, exempt, cap)
    && forall a :: n.Get(a) == CutNonce(p0, exempt, cap, n0, a)
  }

  lemma CutIs(p0: Lists, p: Lists, exempt: set<Address>, cap: nat, n0: Noncer, n: Noncer)
    ensures CutState(p0, p, exempt, cap, n0, n) ==> p == CutTo(p0, exempt, cap)
  {
  }

  ghost predicate Last(m: TxMap, last: uint64) { last in m && forall k :: k in m ==> k <= last }

  /** The virtual nonce of `a` is the one after its highest pending nonce. */
  ghost predicate Follows(pending: Lists, n: Noncer, a: Address) {
    a in pending && exists last: uint64 :: Last(pending[a].items, last) && n.Get(a) == (last + 1) % 0x1_0000_0000_0000_0000
  }

  lemma NoncerSame(m: Noncer, a: Address, v: uint64)
    ensures m.Set(a, v).Get(a) == v && forall x :: x != a ==> m.Set(a, v).Get(x) == m.Get(x)
  {
  }

  lemma FollowOne(pending: Lists, n: Noncer, a: Address, v: uint64)
    requires a in pending && WellKeyed(pending[a].items) && |pending[a].items| > 0
    requires v == NextNonce(Flat(pending[a].items)[|pending[a].items| - 1].nonce)
    ensures Follows(pending, n.Set(a, v), a)
    ensures forall b :: b != a && Follows(pending, n, b) ==> Follows(pending, n.Set(a, v), b)
  {
    hide Flat, Noncer.Set, Noncer.Get;
    NoncerSame(n, a, v);
    var m := pending[a].items;
    assert m.Keys != {};
    LastOfFlat(m);
    assert Last(m, Flat(m)[|m| - 1].nonce);
  }

  /** The last loop of runReorg. */
  method Following(pending: Lists, before: Noncer) returns (n: Noncer)
    requires NoneEmpty(pending) && ListsOk(pending, true)
    ensures forall a :: a in pending ==> Follows(pending, n, a)
    ensures forall a :: a !in pending ==> n.Get(a) == before.Get(a)
  {
    hide Follows, Noncer.Set, Noncer.Get, CapsBound;
    n := before;
    var todo := pending.Keys;
    while todo != {}
      invariant todo <= pending.Keys
      invariant forall a :: a in pending && a !in todo ==> Follows(pending, n, a)
      invariant forall a :: a !in pending ==> n.Get(a) == before.Get(a)
      decreases |todo|
    {
      var a :| a in todo;
      assert pending[a].items.Keys != {} && |pending[a].items| > 0;
      var v := NextNonce(Flat(pending[a].items)[|pending[a].items| - 1].nonce);
      FollowOne(pending, n, a, v);
      NoncerSame(n, a, v);
      n := n.Set(a, v);
      todo := todo - {a};
    }
  }

  /** The steps that the pool takes, on behalf of its users, of the chain, or of the clock. */
  datatype PoolOp = Batch(txs: seq<Tx>, local: bool) | Price(price: nat) | Expire
                  | Reorg(reset: Option<ResetRequest>, dirty: set<Address>)
                  | Remove(hash: TxHash, outofbound: bool) | Promote(accounts: set<Address>) | Demote | Truncate

  /** Exactly the transactions are in `txs` that are in a block of the old branch above the fork point, and
      in none of the new branch. */
  ghost predicate LostTxs(stored: set<Block>, oldHead: Block, newHead: Block, txs: seq<Tx>, i: nat, j: nat) {
    && ForkPoint(stored, oldHead, newHead, i, j)
    && forall tx :: tx in txs <==> (exists b :: b in Branch(oldHead, i) && tx in b.txs) && !(exists b :: b in Branch(newHead, j) && tx in b.txs)
  }

  lemma ReinjectExactly(r: ResetRequest, txs: seq<Tx>)
    requires ToReinject(r, txs)
    ensures if r.oldHead.Some? && r.newHead.parent != r.oldHead.value.Hash()
               && r.oldHead.value.number <= r.newHead.number + 64 && r.newHead.number <= r.oldHead.value.number + 64
            then exists i, j :: LostTxs(r.stored, r.oldHead.value, r.newHead, txs, i, j)
            else txs == []
  {
    hide ForkPoint, Difference, TxsOf, Branch;
    if Shallow(r.oldHead, r.newHead) {
      var a, b := r.oldHead.value, r.newHead;
      var i, j :| ForkPoint(r.stored, a, b, i, j) && txs == Difference(TxsOf(Branch(a, i)), TxsOf(Branch(b, j)));
      forall tx ensures tx in txs <==> (exists c :: c in Branch(a, i) && tx in c.txs) && !(exists c :: c in Branch(b, j) && tx in c.txs) {
        InDifference(TxsOf(Branch(a, i)), TxsOf(Branch(b, j)), tx);
        InTxsOf(Branch(a, i), tx);
        InTxsOf(Branch(b, j), tx);
      }
      assert LostTxs(r.stored, a, b, txs, i, j);
    }
  }

  lemma ReachableExactly(r: ResetRequest)
    ensures Reachable(r) <==>
              && r.state.Some?
              && (r.oldHead.Some? && r.newHead.parent != r.oldHead.value.Hash()
                  && r.oldHead.value.number <= r.newHead.number + 64 && r.newHead.number <= r.oldHead.value.number + 64 ==>
                    r.oldHead.value in r.stored && exists i, j :: Meet(r.stored, r.oldHead.value, r.newHead, i, j))
  {
    hide Meet;
  }

  lemma AbandonedSo(stored: set<Block>, oldHead: Block, newHead: Block, txs: seq<Tx>, i: nat, j: nat)
    requires ForkPoint(stored, oldHead, newHead, i, j) && txs == Difference(TxsOf(Branch(oldHead, i)), TxsOf(Branch(newHead, j)))
    ensures Abandoned(stored, oldHead, newHead, txs)
  {
  }

  method Distinctly(accounts: set<Address>) returns (r: seq<Address>)
    ensures forall i, j :: 0 <= i < j < |r| ==> r[i] != r[j]
    ensures forall a :: a in r <==> a in accounts
  {
    r := [];
    var todo := accounts;
    while todo != {}
      invariant todo <= accounts && (forall i, j :: 0 <= i < j < |r| ==> r[i] != r[j])
      invariant forall a :: a in r <==> a in accounts && a !in todo
      decreases |todo|
    {
      var a :| a in todo;
      r, todo := r + [a], todo - {a};
    }
  }

  predicate Recent(beats: map<Address, nat>, exempt: set<Address>, lifetime: nat, now: nat, a: Address)
    requires a in beats
  {
    a in exempt || now - beats[a] <= lifetime
  }

  /** The eviction tick, with `todo` still to be looked at: all others are gone exactly if they are not recent. */
  ghost predicate Evicting(q0: Lists, b0: map<Address, nat>, exempt: set<Address>, lifetime: nat, now: nat, todo: set<Address>,
                           q: Lists, b: map<Address, nat>) {
    && todo <= q.Keys && todo <= b.Keys && q.Keys <= q0.Keys <= b0.Keys
    && (forall a :: a in todo ==> b[a] == b0[a])
    && (forall a :: a in q ==> q[a] == q0[a])
    && (forall a :: a in q0 && a !in todo ==> (a in q <==> Recent(b0, exempt, lifetime, now, a)))
  }

  lemma EvictStart(q: Lists, b: map<Address, nat>, exempt: set<Address>, lifetime: nat, now: nat)
    requires q.Keys <= b.Keys
    ensures Evicting(q, b, exempt, lifetime, now, q.Keys, q, b)
  {
  }

  lemma EvictOne(q0: Lists, b0: map<Address, nat>, exempt: set<Address>, lifetime: nat, now: nat, todo: set<Address>,
                 q: Lists, b: map<Address, nat>, a: Address)
    requires Evicting(q0, b0, exempt, lifetime, now, todo, q, b) && a in todo
    ensures a in q && a in b
    ensures Recent(b, exempt, lifetime, now, a) ==> Evicting(q0, b0, exempt, lifetime, now, todo - {a}, q, b)
  {
  }

  lemma EvictDropped(q0: Lists, b0: map<Address, nat>, exempt: set<Address>, lifetime: nat, now: nat, todo: set<Address>,
                     q: Lists, b: map<Address, nat>, b': map<Address, nat>, a: Address)
    requires Evicting(q0, b0, exempt, lifetime, now, todo, q, b) && a in todo && a in b && !Recent(b, exempt, lifetime, now, a)
    requires b' - {a} == b - {a}
    ensures Evicting(q0, b0, exempt, lifetime, now, todo - {a}, q - {a}, b')
  {
    forall x | x in todo && x != a ensures x in b' && b'[x] == b[x] {
      assert x in b - {a};
    }
  }

  lemma EvictEnd(q0: Lists, b0: map<Address, nat>, exempt: set<Address>, lifetime: nat, now: nat, q: Lists, b: map<Address, nat>)
    requires Evicting(q0, b0, exempt, lifetime, now, {}, q, b)
    ensures q0.Keys <= b0.Keys
    ensures q == map a | a in q0 && (a in exempt || now - b0[a] <= lifetime) :: q0[a]
  {
  }

  lemma StillPriced(all: Pooled, all': Pooled, locals: set<Address>, price: nat)
    requires AtLeastPriced(all, locals, price) && all'.Keys <= all.Keys && forall h :: h in all' ==> all'[h] == all[h]
    ensures AtLeastPriced(all', locals, price)
  {
  }

  lemma PendingTx(c: Content, tx: Tx)
    requires Consistent(c, {}) && tx.nonce in Items(c.pending, tx.sender)
    ensures var prev := Items(c.pending, tx.sender)[tx.nonce];
            prev.sender == tx.sender && prev.nonce == tx.nonce && prev.signed && Live(c.all, prev)
    ensures tx.nonce !in Items(c.queue, tx.sender)
  {
    assert Acct(c, {}, tx.sender);
    assert Holds(Items(c.pending, tx.sender), Items(c.pending, tx.sender)[tx.nonce]);
  }

  lemma QueuedTx(c: Content, tx: Tx)
    requires Consistent(c, {})
    ensures var prev := At(ListOf(c.queue, tx.sender, false), tx.nonce);
            prev.Some? ==> prev.value.sender == tx.sender && prev.value.nonce == tx.nonce
  {
    assert Acct(c, {}, tx.sender);
  }

  lemma MoreNonEmpty(lists: Lists, tx: Tx, l: AccountList)
    requires NoneEmpty(lists) && Holds(l.items, tx)
    ensures NoneEmpty(lists[tx.sender := l])
  {
    assert tx.nonce in l.items.Keys;
  }

  lemma Enlisted(all: Pooled, all': Pooled, locals: set<Address>, locals': set<Address>, price: nat, prev: Option<Tx>, tx: Tx)
    requires AtLeastPriced(all, locals, price) && all' == Relisted(all, prev, tx) && tx.signed && locals <= locals'
    requires tx.sender in locals' || tx.gasPrice >= price
    ensures AtLeastPriced(all', locals', price)
  {
  }

  /** A replacement is local if what it replaces is, and costs more. */
  lemma Repriced(all: Pooled, all': Pooled, locals: set<Address>, price: nat, prev: Option<Tx>, tx: Tx)
    requires Keyed(all) && AtLeastPriced(all, locals, price) && prev.Some? && tx.signed && all' == Relisted(all, prev, tx)
    requires Live(all, prev.value) && prev.value.sender == tx.sender && prev.value.gasPrice < tx.gasPrice
    ensures AtLeastPriced(all', locals, price)
  {
    assert all[prev.value.Hash()] == prev.value;
  }

  lemma CoverAfterRemoved(all: Pooled, before: seq<Tx>, items: seq<Tx>)
    requires items == before || multiset(items) == multiset(set h | h in all :: all[h])
    ensures Covered(all, before) ==> Covered(all, items)
  {
    if items != before {
      forall h | h in all ensures all[h] in items {
        assert all[h] in (set h | h in all :: all[h]);
        assert all[h] in multiset(items);
      }
    }
  }

  lemma CoverAfterPut(before: seq<Tx>, items: seq<Tx>, tx: Tx)
    requires multiset(items) == multiset(before) + multiset{tx}
    ensures tx in items && forall t :: t in before ==> t in items
  {
    assert tx in multiset(items);
    forall t | t in before ensures t in items {
      assert t in multiset(before);
      assert t in multiset(items);
    }
  }

  /** What promoteExecutables does with the queued list of one account: drop what is too old or
      too costly, take what is ready, and cap the rest unless the account is local. */
  datatype Promotion = Promotion(list: AccountList, ready: TxMap, forwards: TxMap, drops: TxMap, caps: TxMap)

  function Beaten(beats: map<Address, nat>, a: Address, part: TxMap, now: nat): map<Address, nat> {
    if part.Keys == {} then beats else beats[a := now]
  }

  /** The pending list of account `a` after `part` was promoted. */
  ghost predicate Promoted(a: Address, before: Lists, after: Lists, noncer: Noncer, noncer': Noncer,
                           beats: map<Address, nat>, beats': map<Address, nat>, part: TxMap, now: nat) {
    && after - {a} == before - {a}
    && Items(after, a) == Items(before, a) + part
    && (a in after <==> a in before || part.Keys != {})
    && noncer' == (if part.Keys == {} then noncer else noncer.Set(a, NextNonce(Flat(part)[|part| - 1].nonce)))
    && beats' == Beaten(beats, a, part, now)
  }

  /** The contents after one account went through promoteExecutables. */
  ghost predicate AccountPromoted(a: Address, r: Promotion, c: Content, d: Content, noncer: Noncer, noncer': Noncer,
                                  beats: map<Address, nat>, beats': map<Address, nat>, now: nat) {
    && d.queue == Stored(c.queue, a, r.list)
    && d.all == c.all - Hashes(r.forwards) - Hashes(r.drops) - Hashes(r.caps)
    && Promoted(a, c.pending, d.pending, noncer, noncer', beats, Beaten(beats, a, r.ready, now), r.ready, now)
    && beats' == Beaten(beats, a, r.ready, now) - (if r.list.items.Keys == {} then {a} else {})
  }

  ghost predicate SameAccount(a: Address, c: Content, d: Content, noncer: Noncer, noncer': Noncer) {
    && (a in d.queue <==> a in c.queue) && (a in c.queue ==> d.queue[a] == c.queue[a])
    && (a in d.pending <==> a in c.pending) && (a in c.pending ==> d.pending[a] == c.pending[a])
    && noncer'.Get(a) == noncer.Get(a)
  }

  ghost predicate OnePromoted(a: Address, r: Promotion, c: Content, d: Content, noncer: Noncer, noncer': Noncer) {
    && Items(d.queue, a) == r.list.items
    && Items(d.pending, a) == Items(c.pending, a) + r.ready
    && noncer'.Get(a) == if r.ready.Keys == {} then noncer.Get(a) else NextNonce(Flat(r.ready)[|r.ready| - 1].nonce)
  }

  /** The first `i` accounts have been promoted according to plan. */
  ghost predicate Progress(plan: Address -> Promotion, accounts: seq<Address>, i: nat, c: Content, d: Content,
                           n: Noncer, m: Noncer)
    requires i <= |accounts|
  {
    && (forall k :: 0 <= k < i ==> OnePromoted(accounts[k], plan(accounts[k]), c, d, n, m))
    && (forall a :: a !in accounts[..i] ==> SameAccount(a, c, d, n, m))
  }

  lemma StartProgress(plan: Address -> Promotion, accounts: seq<Address>, c: Content, n: Noncer)
    ensures Progress(plan, accounts, 0, c, c, n, n)
  {
  }

  lemma Untouched(plan: Address -> Promotion, accounts: seq<Address>, i: nat, c: Content, d: Content, n: Noncer, m: Noncer)
    requires i < |accounts| && forall i, j :: 0 <= i < j < |accounts| ==> accounts[i] != accounts[j]
    requires Progress(plan, accounts, i, c, d, n, m)
    ensures SameAccount(accounts[i], c, d, n, m)
  {
    assert accounts[i] !in accounts[..i];
  }

  lemma SameTwice(a: Address, c: Content, d: Content, e: Content, n: Noncer, m: Noncer, m': Noncer)
    requires SameAccount(a, c, d, n, m) && SameAccount(a, d, e, m, m')
    ensures SameAccount(a, c, e, n, m')
  {
  }

  lemma KeepPromoted(a: Address, r: Promotion, c: Content, d: Content, e: Content, n: Noncer, m: Noncer, m': Noncer)
    requires OnePromoted(a, r, c, d, n, m) && SameAccount(a, d, e, m, m')
    ensures OnePromoted(a, r, c, e, n, m')
  {
  }

  lemma JoinPromoted(a: Address, r: Promotion, c: Content, d: Content, e: Content, n: Noncer, m: Noncer, m': Noncer)
    requires SameAccount(a, c, d, n, m) && OnePromoted(a, r, d, e, m, m')
    ensures OnePromoted(a, r, c, e, n, m')
  {
  }

  lemma NextProgress(plan: Address -> Promotion, accounts: seq<Address>, i: nat, c: Content, d: Content, e: Content,
                     n: Noncer, m: Noncer, m': Noncer)
    requires i < |accounts| && forall i, j :: 0 <= i < j < |accounts| ==> accounts[i] != accounts[j]
    requires Progress(plan, accounts, i, c, d, n, m)
    requires OnePromoted(accounts[i], plan(accounts[i]), d, e, m, m')
    requires forall x :: x != accounts[i] ==> SameAccount(x, d, e, m, m')
    ensures Progress(plan, accounts, i + 1, c, e, n, m')
  {
    hide OnePromoted, SameAccount;
    Untouched(plan, accounts, i, c, d, n, m);
    forall k | 0 <= k < i + 1 ensures OnePromoted(accounts[k], plan(accounts[k]), c, e, n, m') {
      if k < i {
        KeepPromoted(accounts[k], plan(accounts[k]), c, d, e, n, m, m');
      } else {
        JoinPromoted(accounts[i], plan(accounts[i]), c, d, e, n, m, m');
      }
    }
    forall a | a !in accounts[..i + 1] ensures SameAccount(a, c, e, n, m') {
      assert accounts[..i + 1] == accounts[..i] + [accounts[i]];
      SameTwice(a, c, d, e, n, m, m');
    }
  }

  lemma EndProgress(plan: Address -> Promotion, accounts: seq<Address>, c: Content, d: Content, n: Noncer, m: Noncer)
    requires Progress(plan, accounts, |accounts|, c, d, n, m)
    ensures forall a :: a in accounts ==> OnePromoted(a, plan(a), c, d, n, m)
    ensures forall a :: a !in accounts ==> SameAccount(a, c, d, n, m)
  {
    hide OnePromoted, SameAccount;
    assert accounts[..|accounts|] == accounts;
  }

  lemma MinusSame(before: Lists, after: Lists, a: Address, x: Address)
    requires x != a && after - {a} == before - {a}
    ensures (x in after <==> x in before) && (x in before ==> after[x] == before[x])
  {
    assert x in after <==> x in after - {a};
    assert x in before <==> x in before - {a};
    assert x in before ==> (before - {a})[x] == before[x] && (after - {a})[x] == after[x];
  }

  lemma StoredSame(lists: Lists, a: Address, l: AccountList)
    ensures Items(Stored(lists, a, l), a) == l.items
    ensures forall x :: x != a ==> (x in Stored(lists, a, l) <==> x in lists)
    ensures forall x :: x != a && x in lists ==> Stored(lists, a, l)[x] == lists[x]
  {
    if l.items.Keys == {} { assert l.items == map[]; }
  }

  lemma PromotedHere(a: Address, r: Promotion, d: Content, e: Content, m: Noncer, m': Noncer, v: Option<uint64>)
    requires e.queue == Stored(d.queue, a, r.list) && Items(e.pending, a) == Items(d.pending, a) + r.ready
    requires v == if r.ready.Keys == {} then None else Some(NextNonce(Flat(r.ready)[|r.ready| - 1].nonce))
    requires m' == if v.Some? then m.Set(a, v.value) else m
    ensures OnePromoted(a, r, d, e, m, m')
  {
    hide Flat, Stored, Noncer.Set, Noncer.Get;
    StoredSame(d.queue, a, r.list);
    if v.Some? { NoncerSame(m, a, v.value); }
  }

  lemma SameElsewhere(a: Address, d: Content, e: Content, m: Noncer, m': Noncer, l: AccountList, v: Option<uint64>, x: Address)
    requires x != a && e.queue == Stored(d.queue, a, l) && e.pending - {a} == d.pending - {a}
    requires m' == if v.Some? then m.Set(a, v.value) else m
    ensures SameAccount(x, d, e, m, m')
  {
    hide Stored, Noncer.Set, Noncer.Get;
    StoredSame(d.queue, a, l);
    if v.Some? { NoncerSame(m, a, v.value); }
    MinusSame(d.pending, e.pending, a, x);
  }

  lemma StepPromoted(a: Address, r: Promotion, d: Content, e: Content, m: Noncer, m': Noncer,
                     b: map<Address, nat>, b': map<Address, nat>, now: nat)
    requires AccountPromoted(a, r, d, e, m, m', b, b', now)
    ensures OnePromoted(a, r, d, e, m, m')
    ensures forall x :: x != a ==> SameAccount(x, d, e, m, m')
    ensures forall h :: h in e.all ==> h in d.all
  {
    hide Flat, Hashes, Beaten, Stored, SameAccount, OnePromoted, Noncer.Set;
    var v := if r.ready.Keys == {} then None else Some(NextNonce(Flat(r.ready)[|r.ready| - 1].nonce));
    PromotedHere(a, r, d, e, m, m', v);
    forall x | x != a ensures SameAccount(x, d, e, m, m') {
      SameElsewhere(a, d, e, m, m', r.list, v, x);
    }
  }

  lemma IdlePromoted(a: Address, d: Content, m: Noncer)
    requires a !in d.queue
    ensures OnePromoted(a, Promotion(EmptyList(false), map[], map[], map[], map[]), d, d, m, m)
    ensures forall x :: SameAccount(x, d, d, m, m)
  {
    assert Items(d.pending, a) + map[] == Items(d.pending, a);
  }

  /** What demoteUnexecutables does with the pending list of one account: drop what is too old
      or too costly, and put back into the queue what that strands, or everything if the list no
      longer starts at the account's nonce. */
  datatype Demotion = Demotion(list: AccountList, requeued: TxMap, olds: TxMap, drops: TxMap)

  function Gapped(list: AccountList, nonce: uint64): TxMap {
    if |list.items| > 0 && nonce !in list.items then list.items else map[]
  }

  function DemotionOf(list: AccountList, nonce: uint64, balance: int, maxGas: uint64): Demotion {
    var scan := FullScan(list.(items := AtLeast(list.items, nonce)), balance, maxGas);
    var gapped := Gapped(scan.list, nonce);
    Demotion(scan.list.(items := scan.list.items - gapped.Keys), scan.invalids + gapped, Below(list.items, nonce), scan.drops)
  }

  /** The queue after `part` was put back into the list of account `a`. */
  ghost predicate Requeued(a: Address, before: Lists, after: Lists, beats: map<Address, nat>,
                           beats': map<Address, nat>, part: TxMap, now: nat) {
    && after - {a} == before - {a}
    && Items(after, a) == Items(before, a) + part
    && (a in after <==> a in before || part.Keys != {})
    && beats' == if part.Keys == {} || a in beats then beats else beats[a := now]
  }

  ghost predicate AccountDemoted(a: Address, r: Demotion, c: Content, d: Content,
                                 beats: map<Address, nat>, beats': map<Address, nat>, now: nat) {
    && d.pending == Stored(c.pending, a, r.list)
    && Requeued(a, c.queue, d.queue, beats, beats', r.requeued, now)
    && d.all == c.all - Hashes(r.olds) - Hashes(r.drops)
  }

  /** What account `a` looks like once it is demoted. */
  ghost predicate OneDemoted(a: Address, state: StateView, maxGas: uint64, c: Content, d: Content) {
    if a !in c.pending then a !in d.pending && Items(d.queue, a) == Items(c.queue, a)
    else
      var r := DemotionOf(c.pending[a], state.nonce(a), state.balance(a), maxGas);
      Items(d.pending, a) == r.list.items && Items(d.queue, a) == Items(c.queue, a) + r.requeued
  }

  ghost predicate Undemoted(a: Address, c: Content, d: Content) {
    && (a in d.pending <==> a in c.pending) && (a in c.pending ==> d.pending[a] == c.pending[a])
    && Items(d.queue, a) == Items(c.queue, a)
  }

  ghost predicate Demoting(todo: set<Address>, state: StateView, maxGas: uint64, c: Content, d: Content) {
    && todo <= c.pending.Keys
    && (forall a :: a in todo ==> Undemoted(a, c, d))
    && (forall a :: a !in todo ==> OneDemoted(a, state, maxGas, c, d))
  }

  lemma StartDemoting(state: StateView, maxGas: uint64, c: Content)
    ensures Demoting(c.pending.Keys, state, maxGas, c, c)
  {
  }

  lemma StillPending(todo: set<Address>, state: StateView, maxGas: uint64, c: Content, d: Content, a: Address)
    requires Demoting(todo, state, maxGas, c, d) && a in todo
    ensures a in d.pending && a in c.pending && d.pending[a] == c.pending[a]
  {
  }

  lemma DemotedHere(a: Address, r: Demotion, state: StateView, maxGas: uint64, c: Content, d: Content, e: Content,
                    b: map<Address, nat>, b': map<Address, nat>, now: nat)
    requires a in c.pending && r == DemotionOf(c.pending[a], state.nonce(a), state.balance(a), maxGas)
    requires Undemoted(a, c, d) && AccountDemoted(a, r, d, e, b, b', now)
    ensures OneDemoted(a, state, maxGas, c, e)
  {
    hide DemotionOf, Hashes, Stored;
    StoredSame(d.pending, a, r.list);
  }

  lemma DemotedElsewhere(a: Address, r: Demotion, d: Content, e: Content, b: map<Address, nat>, b': map<Address, nat>,
                         now: nat, x: Address)
    requires AccountDemoted(a, r, d, e, b, b', now) && x != a
    ensures Undemoted(x, d, e)
  {
    hide Hashes, Stored;
    StoredSame(d.pending, a, r.list);
    MinusSame(d.queue, e.queue, a, x);
  }

  lemma UndemotedTwice(a: Address, c: Content, d: Content, e: Content)
    requires Undemoted(a, c, d) && Undemoted(a, d, e)
    ensures Undemoted(a, c, e)
  {
  }

  lemma KeepDemoted(a: Address, state: StateView, maxGas: uint64, c: Content, d: Content, e: Content)
    requires OneDemoted(a, state, maxGas, c, d) && Undemoted(a, d, e)
    ensures OneDemoted(a, state, maxGas, c, e)
  {
    hide DemotionOf;
  }

  lemma NextDemoting(todo: set<Address>, state: StateView, maxGas: uint64, c: Content, d: Content, e: Content,
                     b: map<Address, nat>, b': map<Address, nat>, now: nat, a: Address)
    requires Demoting(todo, state, maxGas, c, d) && a in todo && a in d.pending
    requires AccountDemoted(a, DemotionOf(d.pending[a], state.nonce(a), state.balance(a), maxGas), d, e, b, b', now)
    ensures Demoting(todo - {a}, state, maxGas, c, e)
    ensures forall h :: h in e.all ==> h in d.all
  {
    hide DemotionOf, Hashes, OneDemoted, Undemoted, Stored;
    var r := DemotionOf(d.pending[a], state.nonce(a), state.balance(a), maxGas);
    StillPending(todo, state, maxGas, c, d, a);
    assert Undemoted(a, c, d);
    DemotedHere(a, r, state, maxGas, c, d, e, b, b', now);
    forall x | x != a ensures Undemoted(x, d, e) {
      DemotedElsewhere(a, r, d, e, b, b', now, x);
    }
    forall x | x in todo - {a} ensures Undemoted(x, c, e) { UndemotedTwice(x, c, d, e); }
    forall x | x !in todo - {a} ensures OneDemoted(x, state, maxGas, c, e) {
      if x != a { KeepDemoted(x, state, maxGas, c, d, e); }
    }
  }

  lemma EndDemoting(state: StateView, maxGas: uint64, c: Content, d: Content)
    requires Demoting({}, state, maxGas, c, d)
    ensures forall a :: OneDemoted(a, state, maxGas, c, d)
  {
    hide OneDemoted;
  }

  lemma LastOne(m: TxMap)
    requires WellKeyed(m) && |m| >= 1
    ensures Flat(Highest(m, |m| - 1)) == [Flat(m)[|m| - 1]] && |Highest(m, |m| - 1)| == 1
    ensures m.Keys != {} && (|m| >= 2 ==> Lowest(m, |m| - 1).Keys != {})
  {
    hide Flat;
    FlatSplit(m, |m| - 1);
    assert Flat(m)[|m| - 1..] == [Flat(m)[|m| - 1]];
    assert |Highest(m, |m| - 1)| == |Flat(Highest(m, |m| - 1))|;
  }

  /** Account `a` lost the last of `level` transactions. */
  ghost predicate Shortened(a: Address, level: nat, p: Lists, q: Lists, n: Noncer, m: Noncer) {
    && a in p && a in q && |p[a].items| == level && level > 0
    && q[a] == p[a].(items := Lowest(p[a].items, level - 1))
    && m.Get(a) == Lower(n.Get(a), Flat(p[a].items)[level - 1].nonce)
  }

  ghost predicate Unshortened(a: Address, p: Lists, q: Lists, n: Noncer, m: Noncer) {
    && (a in q <==> a in p) && (a in p ==> q[a] == p[a]) && m.Get(a) == n.Get(a)
  }

  lemma UnshortenedSelf(a: Address, p: Lists, n: Noncer)
    ensures Unshortened(a, p, p, n, n)
  {
  }

  lemma Same(a: Address, p: Lists, q: Lists, n: Noncer, m: Noncer)
    requires Unshortened(a, p, q, n, m)
    ensures (a in q <==> a in p) && (a in p ==> q[a] == p[a]) && m.Get(a) == n.Get(a)
  {
  }

  lemma PutKeys(q: Lists, a: Address, list: AccountList)
    requires a in q
    ensures Put(q, a, list).Keys == q.Keys
  {
  }

  lemma ShortenedHere(a: Address, level: nat, p: Lists, q: Lists, r: Lists, n: Noncer, m: Noncer, k: Noncer)
    requires a in q && a in r && Unshortened(a, p, q, n, m) && |q[a].items| == level > 0
    requires r[a] == q[a].(items := Lowest(q[a].items, level - 1))
    requires k == m.SetIfLower(a, Flat(q[a].items)[level - 1].nonce)
    ensures Shortened(a, level, p, r, n, k)
  {
  }

  lemma ShortenedElsewhere(q: Lists, a: Address, list: AccountList, m: Noncer, k: Noncer, v: uint64, x: Address)
    requires x != a && k == m.SetIfLower(a, v)
    ensures Unshortened(x, q, Put(q, a, list), m, k)
  {
  }

  lemma DroppedLast(a: Address, level: nat, p: Lists, q: Lists, r: Lists, n: Noncer, m: Noncer, k: Noncer)
    requires a in q && Unshortened(a, p, q, n, m) && |q[a].items| == level && level >= 2 && ListsOk(q, true)
    requires r == Put(q, a, q[a].(items := Lowest(q[a].items, level - 1)))
    requires k == m.SetIfLower(a, Flat(q[a].items)[level - 1].nonce)
    ensures Shortened(a, level, p, r, n, k) && Total(r) == Total(q) - 1 && r.Keys == q.Keys
    ensures forall x :: x != a ==> Unshortened(x, q, r, m, k)
  {
    hide Flat, Total, Lowest, CapsBound, Put, Shortened, Unshortened;
    var list := q[a].(items := Lowest(q[a].items, level - 1));
    TotalPut(q, a, list);
    LowestLen(q[a].items, level - 1);
    PutTwice(q, a, list, list);
    ShortenedHere(a, level, p, q, r, n, m, k);
    forall x | x != a ensures Unshortened(x, q, r, m, k) {
      ShortenedElsewhere(q, a, list, m, k, Flat(q[a].items)[level - 1].nonce, x);
    }
    PutKeys(q, a, list);
  }

  lemma KeepShortened(a: Address, level: nat, p: Lists, q: Lists, r: Lists, n: Noncer, m: Noncer, k: Noncer)
    requires Shortened(a, level, p, q, n, m) && Unshortened(a, q, r, m, k)
    ensures Shortened(a, level, p, r, n, k)
  {
  }

  lemma KeepUnshortened(a: Address, p: Lists, q: Lists, r: Lists, n: Noncer, m: Noncer, k: Noncer)
    requires Unshortened(a, p, q, n, m) && Unshortened(a, q, r, m, k)
    ensures Unshortened(a, p, r, n, k)
  {
  }

  /** The first `i` of `group` have lost their last transaction, nobody else has. */
  ghost predicate RoundDone(group: seq<Address>, i: nat, level: nat, p: Lists, q: Lists, n: Noncer, m: Noncer)
    requires i <= |group|
  {
    && (forall k :: 0 <= k < i ==> Shortened(group[k], level, p, q, n, m))
    && (forall a :: a !in group[..i] ==> Unshortened(a, p, q, n, m))
  }

  lemma RoundStart(group: seq<Address>, level: nat, p: Lists, n: Noncer)
    ensures RoundDone(group, 0, level, p, p, n, n)
  {
    hide Shortened, Unshortened;
    forall a ensures Unshortened(a, p, p, n, n) { UnshortenedSelf(a, p, n); }
  }

  lemma RoundAt(group: seq<Address>, i: nat, level: nat, p: Lists, q: Lists, n: Noncer, m: Noncer)
    requires i < |group| && NoRepeats(group) && RoundDone(group, i, level, p, q, n, m)
    ensures Unshortened(group[i], p, q, n, m)
  {
    hide Shortened, Unshortened;
    assert group[i] !in group[..i];
  }

  lemma RoundNext(group: seq<Address>, i: nat, level: nat, p: Lists, q: Lists, r: Lists, n: Noncer, m: Noncer, k: Noncer)
    requires i < |group| && NoRepeats(group) && RoundDone(group, i, level, p, q, n, m)
    requires Shortened(group[i], level, p, r, n, k) && forall x :: x != group[i] ==> Unshortened(x, q, r, m, k)
    ensures RoundDone(group, i + 1, level, p, r, n, k)
  {
    hide Shortened, Unshortened;
    forall j | 0 <= j < i + 1 ensures Shortened(group[j], level, p, r, n, k) {
      if j < i { KeepShortened(group[j], level, p, q, r, n, m, k); }
    }
    forall x | x !in group[..i + 1] ensures Unshortened(x, p, r, n, k) {
      assert group[..i + 1] == group[..i] + [group[i]];
      KeepUnshortened(x, p, q, r, n, m, k);
    }
  }

  lemma RoundEnd(group: seq<Address>, level: nat, p: Lists, q: Lists, n: Noncer, m: Noncer)
    requires RoundDone(group, |group|, level, p, q, n, m)
    ensures forall i :: 0 <= i < |group| ==> Shortened(group[i], level, p, q, n, m)
    ensures forall a :: a !in group ==> Unshortened(a, p, q, n, m)
  {
    hide Shortened, Unshortened;
    assert group[..|group|] == group;
  }

  /** `group` is exactly the accounts of at least `level` transactions, as long as that is above `floor`. */
  ghost predicate Ahead(group: seq<Address>, p0: Lists, exempt: set<Address>, floor: nat, level: nat) {
    && (forall a :: a in group ==> a in p0 && a !in exempt && |p0[a].items| >= level)
    && (forall a :: a in p0 && a !in exempt && a !in group ==> |p0[a].items| <= floor)
  }

  lemma GroupLength(group: seq<Address>, i: int, p0: Lists, p: Lists, exempt: set<Address>, floor: nat, level: nat, n0: Noncer, n: Noncer)
    requires 0 <= i < |group| && Ahead(group, p0, exempt, floor, level) && CutState(p0, p, exempt, level, n0, n)
    requires ListsOk(p0, true)
    ensures group[i] in p && |p[group[i]].items| == level
  {
    hide Flat, CapsBound;
    assert group[i] in group;
    LowestLen(p0[group[i]].items, level);
  }

  lemma RoundIn(a: Address, level: nat, p0: Lists, q: Lists, r: Lists, exempt: set<Address>, n0: Noncer, m: Noncer, k: Noncer)
    requires a in p0 && a !in exempt && |p0[a].items| >= level && ValidList(p0[a])
    requires CutState(p0, q, exempt, level, n0, m) && Shortened(a, level, q, r, m, k)
    ensures a in r && r[a] == p0[a].(items := Lowest(p0[a].items, level - 1))
    ensures k.Get(a) == CutNonce(p0, exempt, level - 1, n0, a)
  {
    hide Flat, CapsBound, Lowest;
    var f := Flat(p0[a].items);
    LowestTwice(p0[a].items, level, level - 1);
    FlatSplit(p0[a].items, level);
    assert f[..level][level - 1] == f[level - 1];
    if level < |f| {
      FlatIsFlat(p0[a].items);
      assert f[level - 1].nonce < f[level].nonce;
    }
  }

  lemma RoundOut(a: Address, floor: nat, level: nat, p0: Lists, q: Lists, r: Lists, exempt: set<Address>, n0: Noncer, m: Noncer, k: Noncer)
    requires floor < level && (a in p0 && a !in exempt ==> |p0[a].items| <= floor)
    requires CutState(p0, q, exempt, level, n0, m) && Unshortened(a, q, r, m, k)
    ensures a in r <==> a in p0
    ensures a in r ==> r[a] == CutTo(p0, exempt, level - 1)[a]
    ensures k.Get(a) == CutNonce(p0, exempt, level - 1, n0, a)
  {
    hide Flat;
  }

  lemma RoundCut(group: seq<Address>, floor: nat, level: nat, p0: Lists, q: Lists, r: Lists, exempt: set<Address>,
                 n0: Noncer, m: Noncer, k: Noncer)
    requires floor < level && ListsOk(p0, true)
    requires Ahead(group, p0, exempt, floor, level) && CutState(p0, q, exempt, level, n0, m) && r.Keys == q.Keys
    requires forall i :: 0 <= i < |group| ==> Shortened(group[i], level, q, r, m, k)
    requires forall a :: a !in group ==> Unshortened(a, q, r, m, k)
    ensures CutState(p0, r, exempt, level - 1, n0, k) && Ahead(group, p0, exempt, floor, level - 1)
    ensures CutTo(p0, exempt, level - 1 + 1) == q
  {
    hide Flat, CapsBound, Shortened, Unshortened, Lowest;
    forall a | a in r ensures r[a] == CutTo(p0, exempt, level - 1)[a] {
      if a in group {
        var i :| 0 <= i < |group| && group[i] == a;
        RoundIn(a, level, p0, q, r, exempt, n0, m, k);
      } else {
        RoundOut(a, floor, level, p0, q, r, exempt, n0, m, k);
      }
    }
    forall a ensures k.Get(a) == CutNonce(p0, exempt, level - 1, n0, a) {
      if a in group {
        var i :| 0 <= i < |group| && group[i] == a;
        RoundIn(a, level, p0, q, r, exempt, n0, m, k);
      } else {
        RoundOut(a, floor, level, p0, q, r, exempt, n0, m, k);
      }
    }
  }

  /** Which accounts have come off the priority queue, and what is known of the others. */
  ghost predicate Truncating(p0: Lists, exempt: set<Address>, slots: nat, offenders: seq<Address>, spammers: map<Address, nat>, level: nat) {
    && NoRepeats(offenders)
    && (forall a :: a in offenders ==> a in p0 && a !in exempt && |p0[a].items| > slots)
    && spammers == (map a | a in p0 && a !in exempt && |p0[a].items| > slots && a !in offenders :: |p0[a].items|)
    && (forall a :: a in spammers ==> spammers[a] <= level)
  }

  ghost predicate Even(p0: Lists, offenders: seq<Address>, level: nat) {
    forall a :: a in offenders ==> a in p0 && |p0[a].items| >= level
  }

  lemma Uncut(p: Lists, exempt: set<Address>, level: nat, n: Noncer)
    requires forall a :: a in p ==> |p[a].items| <= level
    ensures CutState(p, p, exempt, level, n, n)
  {
    hide Flat;
    CutNothing(p, exempt, level);
  }

  lemma StartTruncating(p: Lists, exempt: set<Address>, slots: nat, limit: nat, n: Noncer, spammers: map<Address, nat>) returns (level: nat)
    requires ListsOk(p, true) && Total(p) > limit
    requires spammers == map a | a in p && a !in exempt && |p[a].items| > slots :: |p[a].items|
    ensures level >= slots && CutState(p, p, exempt, level, n, n) && Total(CutTo(p, exempt, level + 1)) > limit
    ensures Truncating(p, exempt, slots, [], spammers, level) && Even(p, [], level)
  {
    hide Total, CutTo, CutState;
    level := Total(p) + slots;
    forall a | a in p ensures |p[a].items| <= level { TotalBounds(p, a); }
    Uncut(p, exempt, level, n);
    CutNothing(p, exempt, level + 1);
  }

  predicate Greatest(m: map<Address, nat>, a: Address) {
    a in m && forall b :: b in m ==> m[b] <= m[a]
  }

  lemma {:induction false} HasGreatest(m: map<Address, nat>)
    requires m.Keys != {}
    ensures exists a :: Greatest(m, a)
    decreases |m|
  {
    var x :| x in m.Keys;
    var rest := m - {x};
    assert m.Keys == rest.Keys + {x};
    if rest.Keys == {} {
      assert Greatest(m, x);
    } else {
      HasGreatest(rest);
      var y :| Greatest(rest, y);
      forall b | b in m ensures b in rest || b == x { }
      assert Greatest(m, if m[x] < m[y] then y else x);
    }
  }

  /** Pop of the priority queue: some account of greatest priority. */
  method PopMax(m: map<Address, nat>) returns (a: Address)
    requires m.Keys != {}
    ensures a in m && forall b :: b in m ==> m[b] <= m[a]
  {
    HasGreatest(m);
    a :| Greatest(m, a);
  }

  lemma PoppedMax(p0: Lists, p: Lists, exempt: set<Address>, slots: nat, offenders: seq<Address>, spammers: map<Address, nat>,
                  level: nat, a: Address, n0: Noncer, n: Noncer)
    requires Truncating(p0, exempt, slots, offenders, spammers, level) && CutState(p0, p, exempt, level, n0, n)
    requires a in spammers && (forall b :: b in spammers ==> spammers[b] <= spammers[a]) && Even(p0, offenders, level)
    requires slots <= level
    ensures a in p && |p[a].items| == spammers[a] == |p0[a].items| && slots < spammers[a] <= level
    ensures Ahead(offenders, p0, exempt, spammers[a], level) && NoRepeats(offenders)
    ensures offenders == [] ==> forall b :: b in p0 && b !in exempt ==> |p0[b].items| <= spammers[a]
  {
    hide Flat;
    forall b | b in p0 && b !in exempt && b !in offenders ensures |p0[b].items| <= spammers[a] {
      assert |p0[b].items| > slots ==> b in spammers.Keys;
    }
  }

  lemma LowerFreely(p0: Lists, p: Lists, exempt: set<Address>, level: nat, lower: nat, limit: nat, n0: Noncer, n: Noncer)
    requires CutState(p0, p, exempt, level, n0, n) && lower <= level && Total(p) > limit
    requires forall a :: a in p0 && a !in exempt ==> |p0[a].items| <= lower
    ensures CutState(p0, p, exempt, lower, n0, n) && Total(CutTo(p0, exempt, lower + 1)) > limit
  {
    hide Flat;
    CutNothing(p0, exempt, level);
    CutNothing(p0, exempt, lower);
    CutNothing(p0, exempt, lower + 1);
  }

  lemma Remaining(p0: Lists, exempt: set<Address>, slots: nat, group: seq<Address>, spammers: map<Address, nat>, a: Address)
    requires spammers == (map b | b in p0 && b !in exempt && |p0[b].items| > slots && b !in group :: |p0[b].items|)
    ensures spammers - {a} == (map b | b in p0 && b !in exempt && |p0[b].items| > slots && b !in group + [a] :: |p0[b].items|)
  { }

  lemma NextTruncating(p0: Lists, exempt: set<Address>, slots: nat, group: seq<Address>, spammers: map<Address, nat>,
                       before: nat, level: nat, a: Address, threshold: nat)
    requires Truncating(p0, exempt, slots, group, spammers, before) && level <= before && Even(p0, group, before)
    requires a in spammers && threshold == spammers[a] <= level && (forall b :: b in spammers ==> spammers[b] <= threshold)
    ensures Truncating(p0, exempt, slots, group + [a], spammers - {a}, level) && |spammers - {a}| < |spammers|
    ensures level == threshold ==> Even(p0, group + [a], level)
  {
    assert |spammers - {a}| < |spammers| by {
      assert spammers.Keys == (spammers - {a}).Keys + {a};
    }
    Remaining(p0, exempt, slots, group, spammers, a);
  }

  lemma AllAhead(p0: Lists, exempt: set<Address>, slots: nat, offenders: seq<Address>, spammers: map<Address, nat>, level: nat)
    requires Truncating(p0, exempt, slots, offenders, spammers, level) && spammers.Keys == {} && Even(p0, offenders, level)
    ensures Ahead(offenders, p0, exempt, slots, level) && NoRepeats(offenders)
  {
    forall b | b in p0 && b !in exempt && b !in offenders ensures |p0[b].items| <= slots {
      assert |p0[b].items| > slots ==> b in spammers.Keys;
    }
  }

  lemma NoSpammers(p0: Lists, exempt: set<Address>, slots: nat, spammers: map<Address, nat>, level: nat)
    requires Truncating(p0, exempt, slots, [], spammers, level) && spammers.Keys == {}
    ensures forall b :: b in p0 && b !in exempt ==> |p0[b].items| <= slots
  {
    forall b | b in p0 && b !in exempt ensures |p0[b].items| <= slots {
      assert |p0[b].items| > slots ==> b in spammers.Keys;
    }
  }

  lemma EndTruncating(p0: Lists, p: Lists, exempt: set<Address>, cap: nat, n0: Noncer, n: Noncer)
    requires CutState(p0, p, exempt, cap, n0, n)
    ensures p == CutTo(p0, exempt, cap)
  {
  }

  lemma GapPart(list: AccountList, nonce: uint64)
    requires ValidList(list)
    ensures Part(Gapped(list, nonce), list.items) && Part(map[], list.items)
    ensures list.items - {} - Gapped(list, nonce).Keys == list.items - Gapped(list, nonce).Keys
    ensures ValidList(list.(items := list.items - Gapped(list, nonce).Keys))
    ensures Hashes(map[]) == {} && forall all: Pooled :: all - {} == all
  {
  }

  lemma CutParts(m: TxMap, drops: TxMap, strays: TxMap)
    requires WellKeyed(m) && Part(drops, m) && Part(strays, m) && drops.Keys !! strays.Keys
    ensures Part(drops + strays, m) && m - (drops + strays).Keys == m - drops.Keys - strays.Keys
    ensures Txs(drops + strays) == Txs(drops) + Txs(strays) && Txs(drops) !! Txs(strays)
    ensures WellKeyed(drops) && WellKeyed(strays)
  {
    var part := drops + strays;
    forall tx | tx in Txs(part) ensures tx in Txs(drops) + Txs(strays) {
      var n :| n in part && part[n] == tx;
    }
    forall tx | tx in Txs(drops) + Txs(strays) ensures tx in Txs(part) {
      if tx in Txs(strays) {
        var n :| n in strays && strays[n] == tx;
        assert part[n] == tx;
      } else {
        var n :| n in drops && drops[n] == tx;
        assert part[n] == tx;
      }
    }
  }

  /** What is stranded by a cut is free to join the queue. */
  lemma FromPending(c: Content, d: Content, a: Address, list: AccountList, drops: TxMap, strays: TxMap)
    requires Consistent(c, {}) && a in c.pending && Part(strays, c.pending[a].items)
    requires list.items == c.pending[a].items - drops.Keys - strays.Keys
    requires d.pending == c.pending[a := list] && d.queue == c.queue
    ensures Movable(d, Txs(strays), a, strays)
  {
    assert Acct(c, {}, a);
  }

  lemma RequeuedOk(a: Address, before: Lists, after: Lists, beats: map<Address, nat>, beats': map<Address, nat>,
                   part: TxMap, now: nat)
    requires Requeued(a, before, after, beats, beats', part, now)
    ensures NoneEmpty(before) ==> NoneEmpty(after)
    ensures after - {a} == before - {a} && Items(after, a) == Items(before, a) + part
    ensures beats' == if part.Keys == {} || a in beats then beats else beats[a := now]
  {
    if NoneEmpty(before) {
      forall b | b in after ensures after[b].items.Keys != {} {
        if b != a { assert b in after - {a}; assert b in before - {a}; }
        else { assert after[a].items == Items(before, a) + part; }
      }
    }
  }

  lemma RequeuedTwice(a: Address, q0: Lists, q1: Lists, q2: Lists, b0: map<Address, nat>, b1: map<Address, nat>,
                      b2: map<Address, nat>, part: TxMap, part': TxMap, now: nat)
    requires Requeued(a, q0, q1, b0, b1, part, now) && Requeued(a, q1, q2, b1, b2, part', now)
    ensures Requeued(a, q0, q2, b0, b2, part + part', now)
    ensures NoneEmpty(q0) ==> NoneEmpty(q2)
  {
    RequeuedOk(a, q0, q1, b0, b1, part, now);
    RequeuedOk(a, q1, q2, b1, b2, part', now);
    hide NoneEmpty;
    assert Items(q0, a) + part + part' == Items(q0, a) + (part + part');
    assert (part + part').Keys == part.Keys + part'.Keys;
  }

  /** Everything that is ready, account by account. */
  ghost function Readies(plan: Address -> Promotion, accounts: seq<Address>): seq<Tx> {
    if accounts == [] then []
    else Readies(plan, accounts[..|accounts| - 1]) + Flat(plan(accounts[|accounts| - 1]).ready)
  }

  lemma NextReadies(plan: Address -> Promotion, accounts: seq<Address>, i: nat)
    requires i < |accounts|
    ensures Readies(plan, accounts[..i + 1]) == Readies(plan, accounts[..i]) + Flat(plan(accounts[i]).ready)
    ensures i + 1 == |accounts| ==> accounts[..i + 1] == accounts
  {
    assert accounts[..i + 1][..i] == accounts[..i];
  }

  lemma NoReadies()
    ensures forall plan :: Readies(plan, []) == []
    ensures Flat(map[]) == []
  {
  }

  lemma ForwardPart(list: AccountList, t: uint64)
    requires ValidList(list)
    ensures Part(Below(list.items, t), list.items) && AtLeast(list.items, t) == list.items - Below(list.items, t).Keys
    ensures ValidList(list.(items := AtLeast(list.items, t)))
  {
  }

  lemma ScanPart(list: AccountList, costLimit: int, gasLimit: uint64)
    requires ValidList(list)
    ensures var scan := FullScan(list, costLimit, gasLimit);
            && ValidList(scan.list) && scan.list.strict == list.strict
            && Part(scan.drops, list.items) && Part(scan.invalids, list.items - scan.drops.Keys)
            && scan.list.items == list.items - scan.drops.Keys - scan.invalids.Keys
            && (!list.strict ==> scan.invalids == map[] && scan.list.items == list.items - scan.drops.Keys)
  {
    FullScanValid(list, costLimit, gasLimit);
    assert Keep(list.items, TooCostly(costLimit, gasLimit)) == list.items - Drop(list.items, TooCostly(costLimit, gasLimit)).Keys;
  }

  lemma ReadyPart(list: AccountList, start: uint64)
    requires ValidList(list)
    ensures var ready := ReadyTxs(list.items, start);
            Part(ready, list.items) && ValidList(list.(items := list.items - ready.Keys))
  {
  }

  lemma CapPart(list: AccountList, k: nat)
    requires ValidList(list)
    ensures Part(Highest(list.items, k), list.items) && Lowest(list.items, k) == list.items - Highest(list.items, k).Keys
    ensures ValidList(list.(items := Lowest(list.items, k)))
  {
    hide Flat;
  }

  lemma PromotedOk(a: Address, before: Lists, after: Lists, noncer: Noncer, noncer': Noncer,
                   beats: map<Address, nat>, beats': map<Address, nat>, part: TxMap, now: nat)
    requires Promoted(a, before, after, noncer, noncer', beats, beats', part, now)
    ensures NoneEmpty(before) ==> NoneEmpty(after)
    ensures beats' == Beaten(beats, a, part, now)
  {
    if NoneEmpty(before) {
      forall b | b in after ensures after[b].items.Keys != {} {
        if b != a { assert b in after - {a}; assert b in before - {a}; }
        else { assert after[a].items == Items(before, a) + part; }
      }
    }
  }

  /** What leaves the queue is free to join the pending list. */
  lemma FromQueue(c: Content, a: Address, list: AccountList, part: TxMap)
    requires Consistent(c, {}) && a in c.queue && Part(part, c.queue[a].items) && list.items == c.queue[a].items - part.Keys
    ensures Movable(c.(queue := c.queue[a := list]), Txs(part), a, part)
  {
    assert Acct(c, {}, a);
  }

  function PromotionOf(list: AccountList, nonce: uint64, balance: int, maxGas: uint64, next: uint64, cap: Option<nat>): Promotion {
    var scan := FullScan(list.(items := AtLeast(list.items, nonce)), balance, maxGas);
    var ready := ReadyTxs(scan.list.items, next);
    var rest := scan.list.(items := scan.list.items - ready.Keys);
    Promotion(if cap.Some? then rest.(items := Lowest(rest.items, cap.value)) else rest, ready,
              Below(list.items, nonce), scan.drops, if cap.Some? then Highest(rest.items, cap.value) else map[])
  }

  /** A scan drops what is too costly and splits the rest into kept and invalid. */
  lemma ScanAt(l: AccountList, costLimit: int, gasLimit: uint64, n: uint64)
    ensures var scan := FullScan(l, costLimit, gasLimit);
            && (n !in l.items ==> n !in scan.drops && n !in scan.list.items && n !in scan.invalids)
            && (n in l.items ==>
                  && (n in scan.drops <==> l.items[n].gas > gasLimit || l.items[n].Cost() > costLimit)
                  && (n in scan.drops <==> n !in scan.list.items && n !in scan.invalids)
                  && !(n in scan.list.items && n in scan.invalids))
            && (n in scan.list.items ==> scan.list.items[n] == l.items[n])
            && (n in scan.invalids ==> scan.invalids[n] == l.items[n])
            && (!l.strict ==> n !in scan.invalids)
  {
    var f := TooCostly(costLimit, gasLimit);
    assert n in l.items ==> (f(l.items[n]) <==> l.items[n].gas > gasLimit || l.items[n].Cost() > costLimit);
  }

  lemma ReadyAt(m: TxMap, start: uint64, n: uint64)
    ensures n in ReadyTxs(m, start) ==> n in m && ReadyTxs(m, start)[n] == m[n]
  {
  }

  lemma CutInTwo(m: TxMap, k: nat, n: uint64)
    ensures n in m <==> n in Lowest(m, k) || n in Highest(m, k)
    ensures !(n in Lowest(m, k) && n in Highest(m, k))
    ensures n in Lowest(m, k) ==> n in m && Lowest(m, k)[n] == m[n]
  {
  }

  /** Where a queued transaction goes: it is dropped exactly if its nonce is used up or it cannot be
      paid for; otherwise it is promoted, stays, or is above the cap, and never two of these. */
  lemma PromotionSplits(list: AccountList, nonce: uint64, balance: int, maxGas: uint64, next: uint64, cap: Option<nat>, n: uint64)
    requires ValidList(list) && !list.strict && n in list.items
    ensures var r := PromotionOf(list, nonce, balance, maxGas, next, cap);
            var tx := list.items[n];
            && (n in r.forwards <==> n < nonce)
            && (n in r.drops <==> n >= nonce && (tx.gas > maxGas || tx.Cost() > balance))
            && (n in r.forwards || n in r.drops <==> n !in r.ready && n !in r.list.items && n !in r.caps)
            && !(n in r.ready && n in r.list.items) && !(n in r.ready && n in r.caps) && !(n in r.list.items && n in r.caps)
            && (n in r.ready ==> r.ready[n] == tx) && (n in r.list.items ==> r.list.items[n] == tx)
  {
    hide Flat, CapsBound, FullScan, ReadyTxs, Lowest, Highest;
    var l := list.(items := AtLeast(list.items, nonce));
    ScanAt(l, balance, maxGas, n);
    var scan := FullScan(l, balance, maxGas);
    ReadyAt(scan.list.items, next, n);
    var rest := scan.list.items - ReadyTxs(scan.list.items, next).Keys;
    if cap.Some? {
      CutInTwo(rest, cap.value, n);
    }
  }

  lemma ScanLow(l: AccountList, costLimit: int, gasLimit: uint64, n: uint64)
    requires l.strict
    ensures var scan := FullScan(l, costLimit, gasLimit);
            n in scan.list.items ==> forall k :: k in scan.drops ==> n < k
  {
    var scan := FullScan(l, costLimit, gasLimit);
    forall k | k in scan.drops && n in scan.list.items ensures n < k {
      assert MinKey(scan.drops) <= k;
    }
  }

  /** Where a pending transaction goes when the head has moved: it is dropped exactly if its nonce is
      used up or it cannot be paid for; otherwise it stays or is queued again, and stays only if the
      account's next nonce is there and nothing below it was dropped. */
  lemma DemotionSplits(list: AccountList, nonce: uint64, balance: int, maxGas: uint64, n: uint64)
    requires ValidList(list) && list.strict && n in list.items
    ensures var r := DemotionOf(list, nonce, balance, maxGas);
            var tx := list.items[n];
            && (n in r.olds <==> n < nonce)
            && (n in r.drops <==> n >= nonce && (tx.gas > maxGas || tx.Cost() > balance))
            && (n in r.olds || n in r.drops <==> n !in r.list.items && n !in r.requeued)
            && !(n in r.list.items && n in r.requeued)
            && (n in r.list.items ==> r.list.items[n] == tx) && (n in r.requeued ==> r.requeued[n] == tx)
            && (n in r.list.items ==> nonce in r.list.items && forall k :: k in r.drops ==> n < k)
  {
    hide Flat, CapsBound, FullScan;
    var l := list.(items := AtLeast(list.items, nonce));
    ScanAt(l, balance, maxGas, n);
    ScanLow(l, balance, maxGas, n);
  }

  lemma FirstOf(m: TxMap)
    requires WellKeyed(m) && Flat(m) != []
    ensures Holds(m, Flat(m)[0]) && WellKeyed(m - {Flat(m)[0].nonce})
    ensures Flat(m)[1..] == Flat(m - {Flat(m)[0].nonce})
  {
    FlatHead(m);
  }

  lemma BeatenTwice(beats: map<Address, nat>, a: Address, rest: TxMap, part: TxMap, now: nat)
    ensures part.Keys != {} ==> Beaten(beats[a := now], a, rest, now) == Beaten(beats, a, part, now)
  {
    assert beats[a := now][a := now] == beats[a := now];
  }

  lemma SetTwice(noncer: Noncer, a: Address, x: uint64, y: uint64)
    ensures noncer.Set(a, x).Set(a, y) == noncer.Set(a, y)
  {
    assert noncer.nonces[a := x][a := y] == noncer.nonces[a := y];
  }

  lemma PromotedLast(a: Address, noncer: Noncer, noncer': Noncer, part: TxMap)
    requires WellKeyed(part) && Flat(part) != []
    requires var tx := Flat(part)[0];
             var rest, mid := part - {tx.nonce}, noncer.Set(a, NextNonce(tx.nonce));
             noncer' == if rest.Keys == {} then mid else mid.Set(a, NextNonce(Flat(rest)[|rest| - 1].nonce))
    ensures part.Keys != {} && noncer' == noncer.Set(a, NextNonce(Flat(part)[|part| - 1].nonce))
  {
    hide Flat, NextNonce;
    var tx := Flat(part)[0];
    var rest := part - {tx.nonce};
    FirstOf(part);
    assert part.Keys == rest.Keys + {tx.nonce};
    if rest.Keys != {} {
      assert Flat(rest)[|rest| - 1] == Flat(part)[|part| - 1];
      SetTwice(noncer, a, NextNonce(tx.nonce), NextNonce(Flat(part)[|part| - 1].nonce));
    }
  }

  lemma PromotedJoin(a: Address, before: Lists, mid: Lists, after: Lists, noncer: Noncer, noncer': Noncer,
                     beats: map<Address, nat>, beats': map<Address, nat>, part: TxMap, now: nat)
    requires WellKeyed(part) && Flat(part) != [] && mid - {a} == before - {a} && a in mid
    requires var tx := Flat(part)[0];
             && Items(mid, a) + (part - {tx.nonce}) == Items(before, a) + part
             && Promoted(a, mid, after, noncer.Set(a, NextNonce(tx.nonce)), noncer', beats[a := now], beats', part - {tx.nonce}, now)
    ensures Promoted(a, before, after, noncer, noncer', beats, beats', part, now)
  {
    hide Flat, NextNonce, Items, Noncer.Set, Beaten;
    PromotedLast(a, noncer, noncer', part);
    BeatenTwice(beats, a, part - {Flat(part)[0].nonce}, part, now);
  }

  lemma PromotedStep(a: Address, before: Lists, mid: Lists, noncer: Noncer, beats: map<Address, nat>,
                     part: TxMap, now: nat)
    requires WellKeyed(part) && Flat(part) != [] && mid - {a} == before - {a} && a in mid
    requires Items(mid, a) + (part - {Flat(part)[0].nonce}) == Items(before, a) + part
    ensures var tx := Flat(part)[0];
            forall after, n, b :: Promoted(a, mid, after, noncer.Set(a, NextNonce(tx.nonce)), n, beats[a := now], b, part - {tx.nonce}, now)
              ==> Promoted(a, before, after, noncer, n, beats, b, part, now)
  {
    hide Promoted;
    var tx := Flat(part)[0];
    forall after, n, b | Promoted(a, mid, after, noncer.Set(a, NextNonce(tx.nonce)), n, beats[a := now], b, part - {tx.nonce}, now)
      ensures Promoted(a, before, after, noncer, n, beats, b, part, now)
    {
      PromotedJoin(a, before, mid, after, noncer, n, beats, b, part, now);
    }
  }

  lemma PromotedNothing(a: Address, lists: Lists, noncer: Noncer, beats: map<Address, nat>, part: TxMap, now: nat)
    requires part.Keys == {}
    ensures Promoted(a, lists, lists, noncer, noncer, beats, beats, part, now)
  {
  }

  /** The contents after `tx` was removed from contents `c`. */
  ghost predicate Removed(tx: Tx, c: Content, d: Content, noncer: Noncer, noncer': Noncer,
                          beats: map<Address, nat>, beats': map<Address, nat>, now: nat) {
    var a := tx.sender;
    var p, q := Items(c.pending, a), Items(c.queue, a);
    && d.pending - {a} == c.pending - {a} && d.queue - {a} == c.queue - {a}
    && if Holds(p, tx) then
         && Items(d.pending, a) == Below(p, tx.nonce)
         && Items(d.queue, a) == q + Above(p, tx.nonce)
         && noncer' == noncer.SetIfLower(a, tx.nonce)
         && beats' == if Above(p, tx.nonce).Keys == {} || a in beats then beats else beats[a := now]
       else
         && Holds(q, tx) && d.pending == c.pending
         && Items(d.queue, a) == q - {tx.nonce}
         && noncer' == noncer
         && beats' == if q.Keys == {tx.nonce} then beats - {a} else beats
  }

  lemma QueuedLive(c: Content, tx: Tx)
    requires Consistent(c, {}) && Holds(Items(c.queue, tx.sender), tx) && Keyed(c.all)
    ensures tx.Hash() in c.all && c.all[tx.Hash()] == tx
  {
    assert Acct(c, {}, tx.sender);
  }

  lemma RemovedQueued(tx: Tx, c: Content, d: Content, noncer: Noncer, noncer': Noncer,
                      beats: map<Address, nat>, beats': map<Address, nat>, now: nat)
    requires Consistent(c, {}) && Holds(Items(c.queue, tx.sender), tx)
    requires Removed(tx, c, d, noncer, noncer', beats, beats', now)
    ensures d.pending == c.pending && noncer' == noncer && beats' - {tx.sender} == beats - {tx.sender}
    ensures d.queue - {tx.sender} == c.queue - {tx.sender}
    ensures Items(d.queue, tx.sender) == Items(c.queue, tx.sender) - {tx.nonce}
  {
    assert Acct(c, {}, tx.sender);
  }

  lemma HomedTx(a: Address, m: TxMap, tx: Tx)
    requires Homed(a, m) && Holds(m, tx)
    ensures tx.sender == a
  {
  }

  lemma NoneBelow(m: TxMap)
    requires WellKeyed(m)
    ensures Highest(m, 0) == m
  {
    if |m| > 0 {
      FlatSplit(m, 0);
      FlatIsFlat(m);
      forall n | n in m ensures Flat(m)[0].nonce <= n {
        var j := Position(Flat(m), m, n);
      }
      assert AtLeast(m, Flat(m)[0].nonce) == m;
    }
  }

  lemma WholeLowest(m: TxMap)
    ensures Lowest(m, |m|) == m
  {
  }

  lemma WholeDropped(m: TxMap)
    requires WellKeyed(m)
    ensures Lowest(m, 0) == map[]
  {
    FlatSplit(m, 0);
  }

  lemma StrictOf(lists: Lists, a: Address, strict: bool)
    requires ListsOk(lists, strict) && a in lists
    ensures lists[a].strict == strict && ValidList(lists[a])
  {
  }

  lemma WithoutOk(lists: Lists, a: Address, n: uint64)
    requires a in lists && ListsOk(lists, lists[a].strict)
    ensures ValidList(Without(lists[a], n)) && Without(lists[a], n).strict == lists[a].strict
    ensures ListsOk(lists[a := Without(lists[a], n)], lists[a].strict)
  {
  }

  lemma ForgetStep(todo: TxMap, n: uint64)
    requires WellKeyed(todo) && n in todo
    ensures |todo - {n}| < |todo| && todo[n] in Txs(todo) && Txs(todo - {n}) == Txs(todo) - {todo[n]}
    ensures Hashes(todo) == Hashes(todo - {n}) + {todo[n].Hash()}
  {
    assert todo.Keys == (todo - {n}).Keys + {n};
    assert todo[n] in Txs(todo);
    TxsWithout(todo, todo - {n}, todo[n]);
    forall h | h in Hashes(todo) ensures h in Hashes(todo - {n}) + {todo[n].Hash()} {
      var k :| k in todo && todo[k].Hash() == h;
      if k != n { assert (todo - {n})[k].Hash() == h; }
    }
    forall h | h in Hashes(todo - {n}) + {todo[n].Hash()} ensures h in Hashes(todo) {
      if h != todo[n].Hash() {
        var k :| k in todo - {n} && (todo - {n})[k].Hash() == h;
        assert todo[k].Hash() == h;
      }
    }
  }

  lemma NoHashes(m: TxMap)
    ensures m.Keys == {} ==> Hashes(m) == {} && forall all: Pooled :: all - {} == all
  {
  }

  lemma RequeuedStep(a: Address, before: Lists, mid: Lists, beats: map<Address, nat>, beats': map<Address, nat>,
                     part: TxMap, n: uint64, now: nat)
    requires n in part && mid - {a} == before - {a} && a in mid
    requires Items(mid, a) + (part - {n}) == Items(before, a) + part
    requires beats' == if a in beats then beats else beats[a := now]
    ensures forall after, b :: Requeued(a, mid, after, beats', b, part - {n}, now) ==> Requeued(a, before, after, beats, b, part, now)
  {
  }

  lemma RequeuedNothing(a: Address, lists: Lists, beats: map<Address, nat>, part: TxMap, now: nat)
    requires part.Keys == {}
    ensures Requeued(a, lists, lists, beats, beats, part, now)
  {
  }

  lemma KeyedAt(m: TxMap, n: uint64)
    requires WellKeyed(m) && n in m
    ensures Holds(m, m[n]) && m[n].nonce == n && WellKeyed(m - {n})
  {
  }

  lemma NoTxs(m: TxMap)
    requires m.Keys == {}
    ensures Txs(m) == {} && forall k: TxMap :: k + m == k
  {
  }

  lemma ShiftOne(q: TxMap, todo: TxMap, n: uint64)
    requires n in todo
    ensures q[n := todo[n]] + (todo - {n}) == q + todo
  {
  }

  lemma AddedOk(lists: Lists, tx: Tx, strict: bool)
    requires ListsOk(lists, strict)
    ensures var l := Added(ListOf(lists, tx.sender, strict), tx);
            && l.items == Items(lists, tx.sender)[tx.nonce := tx] && l.strict == strict && ValidList(l)
            && ListsOk(lists[tx.sender := l], strict)
  {
    hide CapsBound;
    ListOfValid(lists, tx.sender, strict);
  }

  lemma RelistKnown(all: Pooled, tx: Tx)
    requires Keyed(all)
    ensures Live(all, tx) ==> Relisted(all, None, tx) == all
  {
    assert Live(all, tx) ==> all[tx.Hash()] == tx;
  }

  lemma StillMovable(c: Content, a: Address, tx: Tx, list: AccountList, d: Content, invalids: TxMap)
    requires a in c.pending && d.queue == c.queue && d.pending == Stored(c.pending, a, list)
    requires Movable(c.(pending := c.pending[a := list], all := d.all), Txs(invalids), a, invalids)
    ensures Movable(d, Txs(invalids), a, invalids) && WellKeyed(invalids)
  {
    StoredSame(c.pending, a, list);
  }

  /** What is left, and what is in flight, when a pending transaction has been taken out. */
  lemma PendingTaken(c: Content, tx: Tx, d: Content, list: AccountList, invalids: TxMap)
    requires Consistent(c, {}) && ListsOk(c.pending, true) && NoneEmpty(c.pending) && Live(c.all, tx)
    requires tx.sender in c.pending && tx.nonce in c.pending[tx.sender].items
    requires list == Without(c.pending[tx.sender], tx.nonce) && invalids == Invalidated(c.pending[tx.sender], tx.nonce)
    requires d == Content(Stored(c.pending, tx.sender, list), c.queue, c.all - {tx.Hash()})
    ensures Consistent(d, Txs(invalids)) && Movable(d, Txs(invalids), tx.sender, invalids) && WellKeyed(invalids)
    ensures ListsOk(d.pending, true) && NoneEmpty(d.pending)
    ensures c.pending[tx.sender].strict && Holds(c.pending[tx.sender].items, tx) && invalids == Above(c.pending[tx.sender].items, tx.nonce)
  {
    hide Consistent, Acct, ListsOk, NoneEmpty, Stored, CapsBound, Movable, Txs;
    var a := tx.sender;
    StrictOf(c.pending, a, true);
    WithoutOk(c.pending, a, tx.nonce);
    RemovePending(c, tx);
    StoredOk(c.pending, a, list, true);
    StoredPending(c.(all := d.all), Txs(invalids), a, list);
    StillMovable(c, a, tx, list, d, invalids);
  }

  lemma RemovedAsPending(tx: Tx, c: Content, d: Content, list: AccountList, n: Noncer, n': Noncer,
                         b: map<Address, nat>, b': map<Address, nat>, now: nat)
    requires tx.sender in c.pending && c.pending[tx.sender].strict && Holds(c.pending[tx.sender].items, tx)
    requires list == Without(c.pending[tx.sender], tx.nonce) && d.pending == Stored(c.pending, tx.sender, list)
    requires var above := Above(c.pending[tx.sender].items, tx.nonce);
             && d.queue - {tx.sender} == c.queue - {tx.sender} && Items(d.queue, tx.sender) == Items(c.queue, tx.sender) + above
             && b' == if above.Keys == {} || tx.sender in b then b else b[tx.sender := now]
    requires n' == n.SetIfLower(tx.sender, tx.nonce)
    ensures Removed(tx, c, d, n, n', b, b', now)
  {
    hide Noncer.SetIfLower;
    StoredSame(c.pending, tx.sender, list);
    assert d.pending - {tx.sender} == c.pending - {tx.sender};
  }

  lemma MovableAt(c: Content, flight: set<Tx>, a: Address, part: TxMap, n: uint64)
    requires Movable(c, flight, a, part) && n in part
    ensures part[n].sender == a && part[n].signed && part[n].nonce == n && part[n] in flight
    ensures n !in Items(c.pending, a) && n !in Items(c.queue, a)
  {
    assert part[n] in Txs(part);
  }

  lemma LeftToMove(c: Content, flight: set<Tx>, a: Address, part: TxMap, tx: Tx)
    requires Movable(c, flight, a, part) && Holds(part, tx)
    ensures Homed(a, part - {tx.nonce}) && Txs(part - {tx.nonce}) <= flight - {tx}
  {
    forall t | t in Txs(part - {tx.nonce}) ensures t in flight - {tx} {
      var n :| n in part - {tx.nonce} && part[n] == t;
      assert part[n] in Txs(part);
    }
  }

  lemma MovedToPending(c: Content, flight: set<Tx>, a: Address, part: TxMap, tx: Tx)
    requires Movable(c, flight, a, part) && Holds(part, tx) && tx.sender == a
    ensures var d := c.(pending := c.pending[a := Added(ListOf(c.pending, a, true), tx)]);
            && Movable(d, flight - {tx}, a, part - {tx.nonce})
            && d.pending - {a} == c.pending - {a} && a in d.pending
            && Items(d.pending, a) + (part - {tx.nonce}) == Items(c.pending, a) + part
  {
    LeftToMove(c, flight, a, part, tx);
    ShiftOne(Items(c.pending, a), part, tx.nonce);
  }

  lemma MovedToQueue(c: Content, flight: set<Tx>, a: Address, part: TxMap, tx: Tx)
    requires Movable(c, flight, a, part) && Holds(part, tx) && tx.sender == a
    ensures var d := c.(queue := c.queue[a := Added(ListOf(c.queue, a, false), tx)]);
            && Movable(d, flight - {tx}, a, part - {tx.nonce})
            && d.queue - {a} == c.queue - {a} && a in d.queue
            && Items(d.queue, a) + (part - {tx.nonce}) == Items(c.queue, a) + part
  {
    LeftToMove(c, flight, a, part, tx);
    ShiftOne(Items(c.queue, a), part, tx.nonce);
  }

  lemma MoveOne(c: Content, flight: set<Tx>, a: Address, todo: TxMap, n: uint64)
    requires Consistent(c, flight) && Movable(c, flight, a, todo) && n in todo
    ensures |todo - {n}| < |todo| && Live(c.all, todo[n])
    ensures Txs(todo - {n}) == Txs(todo) - {todo[n]} && todo[n] in Txs(todo)
  {
    assert todo.Keys == (todo - {n}).Keys + {n};
    assert todo[n] in Txs(todo);
    assert Acct(c, flight, a);
    TxsWithout(todo, todo - {n}, todo[n]);
  }
}
