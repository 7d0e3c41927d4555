/** What runReorg does to the pool as a whole, step by step. */
module PoolReorgs {
  import opened Transactions
  import opened TxLists
  import opened TxPriced
  import opened PoolContent
  import opened PoolTotals
  import opened QueueCuts
  import opened TxNoncers
  import opened PoolSteps
  import opened PoolAdds
  import opened PoolPlans

  ghost predicate ReinjectedBy(r: Rules, txs: seq<Tx>, s: Holding, t: Holding, errs: seq<Option<PoolError>>, replaced: seq<bool>,
                               trace: seq<Holding>) {
    Batched(r, txs, false, errs, replaced, trace) && trace[0] == s && trace[|txs|] == t
  }

  /** From `s` to `t` the transactions were added one after the other, as remote ones. */
  ghost predicate Reinjected(r: Rules, txs: seq<Tx>, s: Holding, t: Holding) {
    exists errs, replaced, trace :: ReinjectedBy(r, txs, s, t, errs, replaced, trace)
  }

  lemma ReinjectedSo(r: Rules, txs: seq<Tx>, s: Holding, t: Holding, errs: seq<Option<PoolError>>, replaced: seq<bool>, trace: seq<Holding>)
    requires ReinjectedBy(r, txs, s, t, errs, replaced, trace)
    ensures Reinjected(r, txs, s, t)
  {
  }

  ghost predicate AllPromoted(accounts: set<Address>, state: StateView, maxGas: uint64, accountQueue: nat, s: Holding, t: Holding) {
    forall a :: if a in accounts then
                  PromotedExactly(a, state, maxGas, if a in s.locals then None else Some(accountQueue), s.content, t.content, s.noncer, t.noncer)
                else SameAccount(a, s.content, t.content, s.noncer, t.noncer)
  }

  ghost predicate AllDemoted(state: StateView, maxGas: uint64, s: Holding, t: Holding) {
    t.noncer == s.noncer && forall a :: DemotedExactly(a, state, maxGas, s.content, t.content)
  }

  ghost predicate PendingCut(config: Config, s: Holding, t: Holding, cap: nat) {
    && FairCut(s.content.pending, t.content.pending, s.locals, config.accountSlots, config.globalSlots, cap)
    && CutState(s.content.pending, t.content.pending, s.locals, cap, s.noncer, t.noncer)
  }

  ghost predicate PendingLimited(config: Config, s: Holding, t: Holding) {
    && t.content.queue == s.content.queue && t.locals == s.locals
    && if Total(s.content.pending) <= config.globalSlots then t.content.pending == s.content.pending && t.noncer == s.noncer
       else exists cap :: PendingCut(config, s, t, cap)
  }

  ghost predicate QueueLimited(config: Config, s: Holding, t: Holding) {
    && t.content.pending == s.content.pending && t.locals == s.locals && t.noncer == s.noncer
    && if Total(s.content.queue) <= config.globalQueue then t.content.queue == s.content.queue
       else exists beats :: QueueTrimmed(s.content.queue, t.content.queue, s.locals, beats, config.globalQueue)
  }

  /** `m` is empty or starts at the account's nonce, and each of its transactions by itself is within
      the balance and the gas limit. It may have gaps. */
  ghost predicate Anchored(m: TxMap, nonce: uint64, balance: int, maxGas: uint64) {
    && (forall n :: n in m ==> n >= nonce && Affordable(m[n], balance, maxGas))
    && (m.Keys != {} ==> nonce in m)
  }

  ghost predicate AllAnchored(pending: Lists, state: StateView, maxGas: uint64) {
    forall a :: a in pending ==> Anchored(pending[a].items, state.nonce(a), state.balance(a), maxGas)
  }

  /** After demotion what is pending starts at the account's nonce and is affordable one by one. */
  lemma DemotedAnchored(list: AccountList, nonce: uint64, balance: int, maxGas: uint64)
    requires ValidList(list) && list.strict
    ensures Anchored(DemotionOf(list, nonce, balance, maxGas).list.items, nonce, balance, maxGas)
  {
    hide DemotionOf, CapsBound;
    var m := DemotionOf(list, nonce, balance, maxGas).list.items;
    forall n | n in m ensures n >= nonce && Affordable(m[n], balance, maxGas) && nonce in m {
      DemotionLeaves(list, nonce, balance, maxGas, n);
      DemotionSplits(list, nonce, balance, maxGas, n);
    }
  }

  /** No nonce is missing between the account's and one up to which everything is affordable. */
  ghost predicate Unbroken(m: TxMap, nonce: uint64, balance: int, maxGas: uint64) {
    nonce in m ==> forall n, k: uint64 :: n in m && nonce <= k <= n && PaidUpTo(m, nonce, balance, maxGas, n) ==> k in m
  }

  /** Demotion looks for a gap at the front only, so what it leaves is gap-free exactly if there was no
      gap between the account's nonce and the first transaction that is too costly. */
  lemma DemotedGapFree(list: AccountList, nonce: uint64, balance: int, maxGas: uint64)
    requires list.strict
    ensures GapFree(DemotionOf(list, nonce, balance, maxGas).list.items) <==> Unbroken(list.items, nonce, balance, maxGas)
  {
    hide DemotionOf;
    var m := DemotionOf(list, nonce, balance, maxGas).list.items;
    forall n
      ensures n in m <==> nonce in list.items && n in list.items && nonce <= n && PaidUpTo(list.items, nonce, balance, maxGas, n)
    {
      DemotionLeaves(list, nonce, balance, maxGas, n);
    }
    if GapFree(m) && nonce in list.items {
      forall n, k: uint64 | n in list.items && nonce <= k <= n && PaidUpTo(list.items, nonce, balance, maxGas, n) ensures k in list.items {
        assert nonce in m && n in m;
      }
    }
  }

  /** A gap behind the first transaction stays: with nonces 3 and 5 and an account at 3 nothing changes. */
  lemma GapStays(list: AccountList, balance: int, maxGas: uint64)
    requires list.strict && list.items.Keys == {3, 5}
    requires forall n :: n in list.items ==> Affordable(list.items[n], balance, maxGas)
    ensures DemotionOf(list, 3, balance, maxGas).list.items.Keys == {3, 5}
    ensures !GapFree(DemotionOf(list, 3, balance, maxGas).list.items)
  {
    hide DemotionOf;
    var m := DemotionOf(list, 3, balance, maxGas).list.items;
    forall n ensures n in m <==> n in {3, 5} {
      DemotionLeaves(list, 3, balance, maxGas, n);
      assert n in list.items.Keys <==> n == 3 || n == 5;
    }
    var gap: uint64 := 4;
    assert 3 in m && 5 in m && gap !in m;
  }

  lemma ExactlyAnchored(a: Address, state: StateView, maxGas: uint64, c: Content, d: Content)
    requires DemotedExactly(a, state, maxGas, c, d)
    ensures Anchored(Items(d.pending, a), state.nonce(a), state.balance(a), maxGas)
  {
    hide Affordable, Usable;
    var p, p', nonce := Items(c.pending, a), Items(d.pending, a), state.nonce(a);
    forall k | k in p' ensures k >= nonce && Affordable(p'[k], state.balance(a), maxGas) && nonce in p' {
      PaidBelow(p, nonce, state.balance(a), maxGas, nonce, k);
    }
  }

  lemma AllDemotedAnchored(state: StateView, maxGas: uint64, s: Holding, t: Holding)
    requires AllDemoted(state, maxGas, s, t)
    ensures AllAnchored(t.content.pending, state, maxGas)
  {
    hide Anchored;
    forall a | a in t.content.pending ensures Anchored(t.content.pending[a].items, state.nonce(a), state.balance(a), maxGas) {
      assert DemotedExactly(a, state, maxGas, s.content, t.content);
      ExactlyAnchored(a, state, maxGas, s.content, t.content);
    }
  }

  /** Cutting off the highest nonces keeps the lowest. */
  lemma CutAnchored(m: TxMap, k: nat, nonce: uint64, balance: int, maxGas: uint64)
    requires WellKeyed(m) && k > 0 && Anchored(m, nonce, balance, maxGas)
    ensures Anchored(Lowest(m, k), nonce, balance, maxGas)
  {
    hide Flat;
    if k < |m| {
      FlatIsFlat(m);
      var f := Flat(m);
      var i := Position(f, m, nonce);
      assert Holds(m, f[0]) && f[0].nonce >= nonce;
      assert i == 0;
    }
  }

  lemma FairCap(config: Config, s: Holding, t: Holding, cap: nat)
    requires PendingCut(config, s, t, cap)
    ensures cap > 0 && t.content.pending == CutTo(s.content.pending, s.locals, cap)
  {
  }

  lemma LimitedAnchored(config: Config, state: StateView, maxGas: uint64, s: Holding, t: Holding)
    requires ListsOk(s.content.pending, true) && AllAnchored(s.content.pending, state, maxGas) && PendingLimited(config, s, t)
    ensures AllAnchored(t.content.pending, state, maxGas)
  {
    hide Total, FairCut, Anchored, Lowest;
    if t.content.pending != s.content.pending {
      var cap :| PendingCut(config, s, t, cap);
      FairCap(config, s, t, cap);
      forall a | a in t.content.pending ensures Anchored(t.content.pending[a].items, state.nonce(a), state.balance(a), maxGas) {
        CutAnchored(s.content.pending[a].items, cap, state.nonce(a), state.balance(a), maxGas);
      }
    }
  }

  lemma PendingLimitedSo(config: Config, s: Holding, t: Holding, cap: nat)
    requires t.content.queue == s.content.queue && t.locals == s.locals
    requires if Total(s.content.pending) <= config.globalSlots then t.content.pending == s.content.pending && t.noncer == s.noncer
             else PendingCut(config, s, t, cap)
    ensures PendingLimited(config, s, t)
  {
    hide Total, PendingCut;
  }

  lemma QueueLimitedSo(config: Config, s: Holding, t: Holding, beats: map<Address, nat>)
    requires t.content.pending == s.content.pending && t.locals == s.locals && t.noncer == s.noncer
    requires if Total(s.content.queue) <= config.globalQueue then t.content.queue == s.content.queue
             else QueueTrimmed(s.content.queue, t.content.queue, s.locals, beats, config.globalQueue)
    ensures QueueLimited(config, s, t)
  {
    hide Total, QueueTrimmed;
  }

  lemma SamePending(config: Config, s: Holding, t: Holding)
    requires QueueLimited(config, s, t)
    ensures t.content.pending == s.content.pending && t.noncer == s.noncer
  {
  }
}
