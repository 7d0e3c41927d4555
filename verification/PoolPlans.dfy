/** Which transactions promotion and demotion move, nonce by nonce and in terms of the lists before. */
module PoolPlans {
  import opened Transactions
  import opened TxSortedMaps
  import opened TxLists
  import opened PoolContent
  import opened TxNoncers
  import opened PoolSteps

  predicate Affordable(tx: Tx, balance: int, maxGas: uint64) { tx.gas <= maxGas && tx.value + tx.gasPrice * tx.gas <= balance }

  /** Nothing from `nonce` up to `n` is too costly. */
  ghost predicate PaidUpTo(m: TxMap, nonce: uint64, balance: int, maxGas: uint64, n: uint64) {
    forall k :: k in m && nonce <= k <= n ==> Affordable(m[k], balance, maxGas)
  }

  lemma CostlyIs(tx: Tx, costLimit: int, gasLimit: uint64)
    ensures TooCostly(costLimit, gasLimit)(tx) <==> !Affordable(tx, costLimit, gasLimit)
  {
  }

  lemma ScanKeeps(l: AccountList, costLimit: int, gasLimit: uint64, n: uint64)
    requires l.strict
    ensures n in FullScan(l, costLimit, gasLimit).list.items <==> n in l.items && PaidUpTo(l.items, 0, costLimit, gasLimit, n)
  {
    hide Affordable, TooCostly;
    var f := TooCostly(costLimit, gasLimit);
    var drops := Drop(l.items, f);
    forall k | k in l.items ensures k in drops <==> !Affordable(l.items[k], costLimit, gasLimit) { CostlyIs(l.items[k], costLimit, gasLimit); }
    assert n in l.items && PaidUpTo(l.items, 0, costLimit, gasLimit, n) ==> forall k :: k in drops ==> n < k;
  }

  lemma PaidFrom(m: TxMap, nonce: uint64, balance: int, maxGas: uint64, n: uint64)
    ensures PaidUpTo(AtLeast(m, nonce), 0, balance, maxGas, n) <==> PaidUpTo(m, nonce, balance, maxGas, n)
  {
    hide Affordable;
    var l := AtLeast(m, nonce);
    forall k | k in m && nonce <= k ensures k in l && l[k] == m[k] { }
  }

  lemma PaidBelow(m: TxMap, nonce: uint64, balance: int, maxGas: uint64, k: uint64, n: uint64)
    ensures k <= n && PaidUpTo(m, nonce, balance, maxGas, n) ==> PaidUpTo(m, nonce, balance, maxGas, k)
  {
  }

  lemma NotGapped(list: AccountList, nonce: uint64, n: uint64)
    ensures n in list.items - Gapped(list, nonce).Keys <==> n in list.items && nonce in list.items
  {
    assert n in list.items ==> list.items.Keys != {} && |list.items| > 0;
  }

  /** What demotion leaves pending, if the account's next transaction is there: everything from it on
      up to the first that is too costly. */
  lemma DemotionLeaves(list: AccountList, nonce: uint64, balance: int, maxGas: uint64, n: uint64)
    requires list.strict
    ensures n in DemotionOf(list, nonce, balance, maxGas).list.items <==>
              nonce in list.items && n in list.items && nonce <= n && PaidUpTo(list.items, nonce, balance, maxGas, n)
  {
    hide FullScan, PaidUpTo;
    var l := list.(items := AtLeast(list.items, nonce));
    ScanKeeps(l, balance, maxGas, n);
    ScanKeeps(l, balance, maxGas, nonce);
    PaidFrom(list.items, nonce, balance, maxGas, n);
    PaidFrom(list.items, nonce, balance, maxGas, nonce);
    PaidBelow(list.items, nonce, balance, maxGas, nonce, n);
    NotGapped(FullScan(l, balance, maxGas).list, nonce, n);
  }

  /** A nonce that is not used up, with a transaction that can be paid for. */
  predicate Usable(q: TxMap, nonce: uint64, balance: int, maxGas: uint64, n: uint64) {
    n in q && n >= nonce && Affordable(q[n], balance, maxGas)
  }

  ghost predicate LowestUsable(q: TxMap, nonce: uint64, balance: int, maxGas: uint64, first: uint64) {
    Usable(q, nonce, balance, maxGas, first) && forall k: uint64 :: Usable(q, nonce, balance, maxGas, k) ==> first <= k
  }

  /** `n` is in an unbroken run of usable nonces from the lowest one on, which is not above `next`. */
  ghost predicate IsReady(q: TxMap, nonce: uint64, balance: int, maxGas: uint64, next: uint64, n: uint64) {
    exists first: uint64 :: LowestUsable(q, nonce, balance, maxGas, first) && first <= next && first <= n
                    && forall k: uint64 :: first <= k <= n ==> Usable(q, nonce, balance, maxGas, k)
  }

  /** The usable nonces below `n` that are not ready. */
  ghost function Waiting(q: TxMap, nonce: uint64, balance: int, maxGas: uint64, next: uint64, n: uint64): set<uint64> {
    set k | k in q && k < n && Usable(q, nonce, balance, maxGas, k) && !IsReady(q, nonce, balance, maxGas, next, k)
  }

  /** `n` stays queued: it is usable, not ready, and among the lowest `cap` of these. */
  ghost predicate IsKept(q: TxMap, nonce: uint64, balance: int, maxGas: uint64, next: uint64, cap: Option<nat>, n: uint64) {
    && Usable(q, nonce, balance, maxGas, n) && !IsReady(q, nonce, balance, maxGas, next, n)
    && (cap.Some? ==> |Waiting(q, nonce, balance, maxGas, next, n)| < cap.value)
  }

  lemma CostIs(tx: Tx)
    ensures tx.Cost() == tx.value + tx.gasPrice * tx.gas
  {
  }

  lemma ScanUsable(list: AccountList, nonce: uint64, balance: int, maxGas: uint64, n: uint64)
    requires !list.strict
    ensures var m := FullScan(list.(items := AtLeast(list.items, nonce)), balance, maxGas).list.items;
            && (n in m <==> Usable(list.items, nonce, balance, maxGas, n)) && (n in m ==> n in list.items && m[n] == list.items[n])
  {
    hide FullScan, Tx.Cost;
    var l := list.(items := AtLeast(list.items, nonce));
    ScanAt(l, balance, maxGas, n);
    if n in l.items { CostIs(l.items[n]); }
  }

  /** Of a map with exactly the usable nonces, exactly the ready ones are taken. */
  lemma TakesReady(m: TxMap, q: TxMap, nonce: uint64, balance: int, maxGas: uint64, next: uint64, n: uint64)
    requires forall k: uint64 :: k in m <==> Usable(q, nonce, balance, maxGas, k)
    ensures n in ReadyTxs(m, next) <==> IsReady(q, nonce, balance, maxGas, next, n)
  {
    hide Usable;
    if n in ReadyTxs(m, next) {
      assert LowestUsable(q, nonce, balance, maxGas, MinKey(m));
    }
    if IsReady(q, nonce, balance, maxGas, next, n) {
      var first: uint64 :| LowestUsable(q, nonce, balance, maxGas, first) && first <= next && first <= n
                   && forall k: uint64 :: first <= k <= n ==> Usable(q, nonce, balance, maxGas, k);
      assert first in m && MinKey(m) in m;
    }
  }

  lemma IfUsable(q: TxMap, nonce: uint64, balance: int, maxGas: uint64, n: uint64)
    ensures Usable(q, nonce, balance, maxGas, n) ==> n in q
  {
  }

  /** Which queued transactions are promoted, and which stay. */
  lemma PromotionExactly(list: AccountList, nonce: uint64, balance: int, maxGas: uint64, next: uint64, cap: Option<nat>, n: uint64)
    requires !list.strict && WellKeyed(list.items)
    ensures var r := PromotionOf(list, nonce, balance, maxGas, next, cap);
            && (n in r.ready <==> IsReady(list.items, nonce, balance, maxGas, next, n))
            && (n in r.list.items <==> IsKept(list.items, nonce, balance, maxGas, next, cap, n))
            && (n in r.ready ==> n in list.items && r.ready[n] == list.items[n])
            && (n in r.list.items ==> n in list.items && r.list.items[n] == list.items[n])
  {
    hide FullScan, ReadyTxs, Lowest, Highest, Usable, IsReady;
    var m := FullScan(list.(items := AtLeast(list.items, nonce)), balance, maxGas).list.items;
    forall k: uint64
      ensures (k in m <==> Usable(list.items, nonce, balance, maxGas, k)) && (k in m ==> k in list.items && m[k] == list.items[k])
    {
      ScanUsable(list, nonce, balance, maxGas, k);
    }
    forall k: uint64 ensures k in ReadyTxs(m, next) <==> IsReady(list.items, nonce, balance, maxGas, next, k) {
      TakesReady(m, list.items, nonce, balance, maxGas, next, k);
    }
    ReadyAt(m, next, n);
    IfUsable(list.items, nonce, balance, maxGas, n);
    var rest := m - ReadyTxs(m, next).Keys;
    if cap.Some? {
      forall k | k in rest ensures k in list.items { IfUsable(list.items, nonce, balance, maxGas, k); }
      LowestCount(rest, cap.value, n);
      CutInTwo(rest, cap.value, n);
      assert Below(rest, n).Keys == Waiting(list.items, nonce, balance, maxGas, next, n);
    }
  }

  /** What promotion makes of the lists of an account: exactly the ready transactions join the pending
      list, and exactly the kept ones stay queued. */
  ghost predicate ListsPromoted(p: TxMap, q: TxMap, nonce: uint64, balance: int, maxGas: uint64, next: uint64, cap: Option<nat>,
                                p': TxMap, q': TxMap) {
    && (forall k: uint64 :: k in p' <==> k in p || IsReady(q, nonce, balance, maxGas, next, k))
    && (forall k: uint64 :: k in p' && IsReady(q, nonce, balance, maxGas, next, k) ==> k in q && p'[k] == q[k])
    && (forall k: uint64 :: k in p' && !IsReady(q, nonce, balance, maxGas, next, k) ==> p'[k] == p[k])
    && (forall k: uint64 :: k in q' <==> IsKept(q, nonce, balance, maxGas, next, cap, k))
    && (forall k: uint64 :: k in q' ==> k in q && q'[k] == q[k])
  }

  ghost predicate LastReady(q: TxMap, nonce: uint64, balance: int, maxGas: uint64, next: uint64, last: uint64) {
    IsReady(q, nonce, balance, maxGas, next, last) && forall k: uint64 :: IsReady(q, nonce, balance, maxGas, next, k) ==> k <= last
  }

  /** The virtual nonce moves on to the one after the last ready transaction, if there is any. */
  ghost predicate NoncePromoted(q: TxMap, nonce: uint64, balance: int, maxGas: uint64, next: uint64, next': uint64) {
    if forall k: uint64 :: !IsReady(q, nonce, balance, maxGas, next, k) then next' == next
    else exists last: uint64 :: LastReady(q, nonce, balance, maxGas, next, last) && next' == NextNonce(last)
  }

  /** Account `a` after promotion, in terms of its lists, its nonces and its funds before. */
  ghost predicate PromotedExactly(a: Address, state: StateView, maxGas: uint64, cap: Option<nat>, c: Content, d: Content, n: Noncer, n': Noncer) {
    && ListsPromoted(Items(c.pending, a), Items(c.queue, a), state.nonce(a), state.balance(a), maxGas, n.Get(a), cap,
                     Items(d.pending, a), Items(d.queue, a))
    && NoncePromoted(Items(c.queue, a), state.nonce(a), state.balance(a), maxGas, n.Get(a), n'.Get(a))
  }

  lemma PlannedLists(list: AccountList, p: TxMap, nonce: uint64, balance: int, maxGas: uint64, next: uint64, cap: Option<nat>)
    requires !list.strict && WellKeyed(list.items)
    ensures var r := PromotionOf(list, nonce, balance, maxGas, next, cap);
            ListsPromoted(p, list.items, nonce, balance, maxGas, next, cap, p + r.ready, r.list.items)
  {
    hide PromotionOf, IsReady, IsKept;
    var r := PromotionOf(list, nonce, balance, maxGas, next, cap);
    forall k: uint64
      ensures k in r.ready <==> IsReady(list.items, nonce, balance, maxGas, next, k)
      ensures k in r.list.items <==> IsKept(list.items, nonce, balance, maxGas, next, cap, k)
      ensures k in r.ready ==> k in list.items && r.ready[k] == list.items[k]
      ensures k in r.list.items ==> k in list.items && r.list.items[k] == list.items[k]
    {
      PromotionExactly(list, nonce, balance, maxGas, next, cap, k);
    }
  }

  lemma ReadyNonce(q: TxMap, nonce: uint64, balance: int, maxGas: uint64, next: uint64, ready: TxMap, next': uint64)
    requires WellKeyed(q) && forall k: uint64 :: k in ready <==> IsReady(q, nonce, balance, maxGas, next, k)
    requires forall k: uint64 :: k in ready ==> k in q && ready[k] == q[k]
    requires next' == if ready.Keys == {} then next else NextNonce(Flat(ready)[|ready| - 1].nonce)
    ensures NoncePromoted(q, nonce, balance, maxGas, next, next')
  {
    hide IsReady, Flat;
    if ready.Keys == {} {
      forall k: uint64 ensures !IsReady(q, nonce, balance, maxGas, next, k) { assert k !in ready.Keys; }
    } else {
      LastOfFlat(ready);
      var last := Flat(ready)[|ready| - 1].nonce;
      assert IsReady(q, nonce, balance, maxGas, next, last);
      assert LastReady(q, nonce, balance, maxGas, next, last);
    }
  }

  lemma PlannedNonce(list: AccountList, nonce: uint64, balance: int, maxGas: uint64, next: uint64, cap: Option<nat>, ready: TxMap, next': uint64)
    requires !list.strict && WellKeyed(list.items) && ready == PromotionOf(list, nonce, balance, maxGas, next, cap).ready
    requires next' == if ready.Keys == {} then next else NextNonce(Flat(ready)[|ready| - 1].nonce)
    ensures NoncePromoted(list.items, nonce, balance, maxGas, next, next')
  {
    hide PromotionOf, IsReady, IsKept, Flat, NoncePromoted;
    forall k: uint64
      ensures k in ready <==> IsReady(list.items, nonce, balance, maxGas, next, k)
      ensures k in ready ==> k in list.items && ready[k] == list.items[k]
    {
      PromotionExactly(list, nonce, balance, maxGas, next, cap, k);
    }
    ReadyNonce(list.items, nonce, balance, maxGas, next, ready, next');
  }

  /** What a plan does is what the lists before say. */
  lemma PlannedExactly(a: Address, state: StateView, maxGas: uint64, cap: Option<nat>, c: Content, d: Content, n: Noncer, n': Noncer)
    requires a in c.queue && !c.queue[a].strict && WellKeyed(c.queue[a].items)
    requires OnePromoted(a, PromotionOf(c.queue[a], state.nonce(a), state.balance(a), maxGas, n.Get(a), cap), c, d, n, n')
    ensures PromotedExactly(a, state, maxGas, cap, c, d, n, n')
  {
    hide PromotionOf, ListsPromoted, NoncePromoted, Flat;
    PlannedLists(c.queue[a], Items(c.pending, a), state.nonce(a), state.balance(a), maxGas, n.Get(a), cap);
    PlannedNonce(c.queue[a], state.nonce(a), state.balance(a), maxGas, n.Get(a), cap,
                 PromotionOf(c.queue[a], state.nonce(a), state.balance(a), maxGas, n.Get(a), cap).ready, n'.Get(a));
  }

  lemma NoneReady(nonce: uint64, balance: int, maxGas: uint64, next: uint64, k: uint64)
    ensures !IsReady(map[], nonce, balance, maxGas, next, k)
  {
  }

  /** Nothing queued, nothing promoted. */
  lemma IdleExactly(a: Address, state: StateView, maxGas: uint64, cap: Option<nat>, c: Content, d: Content, n: Noncer, n': Noncer)
    requires a !in c.queue && OnePromoted(a, Promotion(EmptyList(false), map[], map[], map[], map[]), c, d, n, n')
    ensures PromotedExactly(a, state, maxGas, cap, c, d, n, n')
  {
    hide IsReady;
    forall k: uint64 ensures !IsReady(map[], state.nonce(a), state.balance(a), maxGas, n.Get(a), k) {
      NoneReady(state.nonce(a), state.balance(a), maxGas, n.Get(a), k);
    }
  }

  /** Account `a` after demotion: what is not used up and can be paid for stays pending up to the first
      that cannot be paid for, if the account's nonce is there, and is queued otherwise. */
  ghost predicate DemotedExactly(a: Address, state: StateView, maxGas: uint64, c: Content, d: Content) {
    var p, q, nonce, balance := Items(c.pending, a), Items(c.queue, a), state.nonce(a), state.balance(a);
    var p', q' := Items(d.pending, a), Items(d.queue, a);
    && (forall k: uint64 :: k in p' <==> nonce in p && k in p && nonce <= k && PaidUpTo(p, nonce, balance, maxGas, k))
    && (forall k: uint64 :: k in p' ==> k in p && p'[k] == p[k])
    && (forall k: uint64 :: k in q' <==> k in q || (Usable(p, nonce, balance, maxGas, k) && k !in p'))
    && (forall k: uint64 :: k in q' && k !in q ==> k in p && q'[k] == p[k])
  }

  lemma DemotionWithin(list: AccountList, nonce: uint64, balance: int, maxGas: uint64, n: uint64)
    ensures n in DemotionOf(list, nonce, balance, maxGas).requeued ==> n in list.items
  {
    hide FullScan;
    ScanAt(list.(items := AtLeast(list.items, nonce)), balance, maxGas, n);
  }

  lemma DemotionExactly(list: AccountList, nonce: uint64, balance: int, maxGas: uint64, k: uint64)
    requires ValidList(list) && list.strict
    ensures var r := DemotionOf(list, nonce, balance, maxGas);
            && (k in r.list.items <==> nonce in list.items && k in list.items && nonce <= k && PaidUpTo(list.items, nonce, balance, maxGas, k))
            && (k in r.list.items ==> k in list.items && r.list.items[k] == list.items[k])
            && (k in r.requeued <==> Usable(list.items, nonce, balance, maxGas, k) && k !in r.list.items)
            && (k in r.requeued ==> k in list.items && r.requeued[k] == list.items[k])
  {
    hide DemotionOf, PaidUpTo, CapsBound, Tx.Cost;
    DemotionLeaves(list, nonce, balance, maxGas, k);
    DemotionWithin(list, nonce, balance, maxGas, k);
    if k in list.items {
      DemotionSplits(list, nonce, balance, maxGas, k);
      CostIs(list.items[k]);
    }
  }

  lemma NoneUsable(nonce: uint64, balance: int, maxGas: uint64)
    ensures forall k: uint64 :: !Usable(map[], nonce, balance, maxGas, k)
  {
  }

  lemma DemotedSo(a: Address, state: StateView, maxGas: uint64, c: Content, d: Content)
    requires ListsOk(c.pending, true) && OneDemoted(a, state, maxGas, c, d)
    ensures DemotedExactly(a, state, maxGas, c, d)
  {
    hide DemotionOf, PaidUpTo, ValidList, Usable;
    if a in c.pending {
      forall k: uint64
        ensures var list, nonce, balance := c.pending[a], state.nonce(a), state.balance(a);
                var r := DemotionOf(list, nonce, balance, maxGas);
                && (k in r.list.items <==> nonce in list.items && k in list.items && nonce <= k && PaidUpTo(list.items, nonce, balance, maxGas, k))
                && (k in r.list.items ==> k in list.items && r.list.items[k] == list.items[k])
                && (k in r.requeued <==> Usable(list.items, nonce, balance, maxGas, k) && k !in r.list.items)
                && (k in r.requeued ==> k in list.items && r.requeued[k] == list.items[k])
      {
        DemotionExactly(c.pending[a], state.nonce(a), state.balance(a), maxGas, k);
      }
    } else {
      NoneUsable(state.nonce(a), state.balance(a), maxGas);
    }
  }
}
