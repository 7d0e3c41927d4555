/** What is left of the lists when a set of transactions leaves the pool one by one, in whatever
    order: everything pending above one of them is queued. */
module PoolSifts {
  import opened Transactions
  import opened TxLists
  import opened TxPriced
  import opened PoolContent
  import opened TxNoncers
  import opened PoolSteps

  ghost predicate Clear(p: TxMap, gone: set<TxHash>, n: uint64) { forall k :: k in p && k <= n ==> p[k].Hash() !in gone }

  /** Pending transactions with nothing gone at or below them. */
  ghost function Undisturbed(p: TxMap, gone: set<TxHash>): TxMap { map n | n in p && Clear(p, gone, n) :: p[n] }

  ghost function Spared(q: TxMap, gone: set<TxHash>): TxMap { map n | n in q && q[n].Hash() !in gone :: q[n] }

  ghost function Lost(p: TxMap, gone: set<TxHash>): TxMap { map n | n in p && p[n].Hash() in gone :: p[n] }

  /** Pending transactions that stay in the pool but not in the pending list. */
  ghost function Stranded(p: TxMap, gone: set<TxHash>): TxMap { map n | n in p && !Clear(p, gone, n) && p[n].Hash() !in gone :: p[n] }

  ghost function NonceLeft(p: TxMap, gone: set<TxHash>, nonce: uint64): uint64 {
    if Lost(p, gone).Keys == {} then nonce else Lower(nonce, MinKey(Lost(p, gone)))
  }

  /** Account `a` without what is gone. */
  ghost predicate Sifted(a: Address, gone: set<TxHash>, c: Content, d: Content, n: Noncer, n': Noncer) {
    var p, q := Items(c.pending, a), Items(c.queue, a);
    && Items(d.pending, a) == Undisturbed(p, gone)
    && Items(d.queue, a) == Spared(q, gone) + Stranded(p, gone)
    && n'.Get(a) == NonceLeft(p, gone, n.Get(a))
  }

  lemma NoneGone(a: Address, c: Content, n: Noncer)
    ensures Sifted(a, {}, c, c, n, n)
  {
    var p := Items(c.pending, a);
    assert Undisturbed(p, {}) == p && Stranded(p, {}) == map[] && Lost(p, {}) == map[];
  }

  /** `tx` is pending with nothing gone at or below it. */
  ghost predicate Next(p: TxMap, gone: set<TxHash>, tx: Tx) {
    WellKeyed(p) && Holds(p, tx) && Clear(p, gone, tx.nonce)
  }

  lemma ClearPending(p: TxMap, gone: set<TxHash>, tx: Tx, n: uint64)
    requires Next(p, gone, tx) && n in p
    ensures Clear(p, gone + {tx.Hash()}, n) <==> Clear(p, gone, n) && n < tx.nonce
    ensures n <= tx.nonce ==> Clear(p, gone, n)
    ensures Clear(p, gone, n) ==> p[n].Hash() !in gone
    ensures p[n].Hash() == tx.Hash() <==> n == tx.nonce
  {
    var more := gone + {tx.Hash()};
    assert tx.nonce in p && p[tx.nonce].Hash() in more;
  }

  /** A pending transaction goes. */
  lemma SiftPending(p: TxMap, gone: set<TxHash>, tx: Tx)
    requires Next(p, gone, tx)
    ensures var more := gone + {tx.Hash()};
            && Undisturbed(p, more) == Below(Undisturbed(p, gone), tx.nonce)
            && Stranded(p, more) == Stranded(p, gone) + Above(Undisturbed(p, gone), tx.nonce)
  {
    hide Clear;
    forall n | n in p
      ensures Clear(p, gone + {tx.Hash()}, n) <==> Clear(p, gone, n) && n < tx.nonce
      ensures Clear(p, gone, n) ==> p[n].Hash() !in gone
      ensures p[n].Hash() == tx.Hash() <==> n == tx.nonce
    {
      ClearPending(p, gone, tx, n);
    }
    assert Clear(p, gone, tx.nonce);
  }

  lemma LosePending(p: TxMap, gone: set<TxHash>, tx: Tx)
    requires Next(p, gone, tx)
    ensures var more := gone + {tx.Hash()};
            && Lost(p, more).Keys != {} && MinKey(Lost(p, more)) == tx.nonce
            && (Lost(p, gone).Keys != {} ==> tx.nonce < MinKey(Lost(p, gone)))
  {
    hide Clear;
    var more := gone + {tx.Hash()};
    assert tx.nonce in Lost(p, more);
    forall n | n in p && p[n].Hash() in gone ensures tx.nonce < n {
      ClearPending(p, gone, tx, n);
    }
    forall n | n in Lost(p, more) ensures tx.nonce <= n {
      ClearPending(p, gone, tx, n);
    }
  }

  /** `tx` has left the pending list because something below it is gone, or never was in it. */
  ghost predicate Past(p: TxMap, gone: set<TxHash>, tx: Tx) {
    WellKeyed(p) && (Holds(p, tx) ==> !Clear(p, gone, tx.nonce) && tx.Hash() !in gone)
  }

  lemma ClearQueued(p: TxMap, gone: set<TxHash>, tx: Tx, n: uint64)
    requires Past(p, gone, tx) && n in p
    ensures Clear(p, gone + {tx.Hash()}, n) <==> Clear(p, gone, n)
  {
  }

  /** A queued transaction goes, which may have been pending before. */
  lemma SiftQueued(p: TxMap, gone: set<TxHash>, tx: Tx)
    requires Past(p, gone, tx)
    ensures var more := gone + {tx.Hash()};
            && Undisturbed(p, more) == Undisturbed(p, gone)
            && Stranded(p, more) == if Holds(p, tx) then Stranded(p, gone) - {tx.nonce} else Stranded(p, gone)
  {
    hide Clear;
    forall n | n in p ensures Clear(p, gone + {tx.Hash()}, n) <==> Clear(p, gone, n) { ClearQueued(p, gone, tx, n); }
    assert forall n :: n in p ==> (p[n].Hash() == tx.Hash() <==> Holds(p, tx) && n == tx.nonce);
  }

  lemma SameMin(m: TxMap, m': TxMap, t: uint64)
    requires m.Keys != {} && MinKey(m) <= t && m'.Keys == m.Keys + {t}
    ensures MinKey(m') == MinKey(m)
  {
  }

  lemma LoseQueued(p: TxMap, gone: set<TxHash>, tx: Tx, nonce: uint64)
    requires Past(p, gone, tx)
    ensures NonceLeft(p, gone + {tx.Hash()}, nonce) == NonceLeft(p, gone, nonce)
  {
    var more := gone + {tx.Hash()};
    if Holds(p, tx) {
      var k :| k in p && k <= tx.nonce && p[k].Hash() in gone;
      assert k in Lost(p, gone);
      assert forall n :: n in p ==> (p[n].Hash() == tx.Hash() <==> n == tx.nonce);
      assert Lost(p, more).Keys == Lost(p, gone).Keys + {tx.nonce};
      SameMin(Lost(p, gone), Lost(p, more), tx.nonce);
    } else {
      assert Lost(p, more) == Lost(p, gone);
    }
  }

  /** Nothing in `m` has the hash `h`. */
  ghost predicate Unknown(m: TxMap, h: TxHash) { forall n :: n in m ==> m[n].Hash() != h }

  lemma ClearElsewhere(p: TxMap, gone: set<TxHash>, h: TxHash, n: uint64)
    requires Unknown(p, h)
    ensures Clear(p, gone + {h}, n) <==> Clear(p, gone, n)
  {
  }

  lemma GoneElsewhere(p: TxMap, q: TxMap, gone: set<TxHash>, h: TxHash, nonce: uint64)
    ensures Unknown(p, h) ==> Undisturbed(p, gone + {h}) == Undisturbed(p, gone) && Stranded(p, gone + {h}) == Stranded(p, gone)
    ensures Unknown(p, h) ==> NonceLeft(p, gone + {h}, nonce) == NonceLeft(p, gone, nonce)
    ensures Unknown(q, h) ==> Spared(q, gone + {h}) == Spared(q, gone)
  {
    hide Clear;
    if Unknown(p, h) {
      forall n | n in p ensures Clear(p, gone + {h}, n) <==> Clear(p, gone, n) { ClearElsewhere(p, gone, h, n); }
      assert Lost(p, gone + {h}) == Lost(p, gone);
    }
  }

  lemma SpareOne(q: TxMap, gone: set<TxHash>, tx: Tx)
    requires WellKeyed(q) && Holds(q, tx)
    ensures Spared(q, gone + {tx.Hash()}) == Spared(q, gone) - {tx.nonce}
  {
    assert forall n :: n in q ==> (q[n].Hash() == tx.Hash() <==> n == tx.nonce);
  }

  lemma LowerElsewhere(n: Noncer, a: Address, v: uint64, x: Address)
    ensures n.SetIfLower(a, v).Get(a) == Lower(n.Get(a), v)
    ensures x != a ==> n.SetIfLower(a, v).Get(x) == n.Get(x)
  {
  }

  lemma NextPending(p: TxMap, q: TxMap, gone: set<TxHash>, tx: Tx)
    requires WellKeyed(p) && WellKeyed(q) && (forall n :: n in p ==> n !in q) && Holds(Undisturbed(p, gone), tx)
    ensures Next(p, gone, tx) && Unknown(q, tx.Hash())
  {
    hide Clear;
    assert tx.nonce in p;
  }

  lemma JoinThree(a: TxMap, b: TxMap, c: TxMap)
    ensures (a + b) + c == a + (b + c)
  {
  }

  lemma SiftStepPending(a: Address, gone: set<TxHash>, tx: Tx, c: Content, d: Content, e: Content, n0: Noncer, n1: Noncer, n2: Noncer)
    requires Acct(c, {}, a) && Sifted(a, gone, c, d, n0, n1) && tx.sender == a && Holds(Items(d.pending, a), tx)
    requires Items(e.pending, a) == Below(Items(d.pending, a), tx.nonce)
    requires Items(e.queue, a) == Items(d.queue, a) + Above(Items(d.pending, a), tx.nonce)
    requires n2 == n1.SetIfLower(a, tx.nonce)
    ensures Sifted(a, gone + {tx.Hash()}, c, e, n0, n2)
  {
    hide Noncer.SetIfLower, Noncer.Get, Clear, Undisturbed, Stranded, Spared, Next, Lost, Below, Above;
    var p, q := Items(c.pending, a), Items(c.queue, a);
    NextPending(p, q, gone, tx);
    SiftPending(p, gone, tx);
    LosePending(p, gone, tx);
    LowerElsewhere(n1, a, tx.nonce, a);
    GoneElsewhere(p, q, gone, tx.Hash(), 0);
    JoinThree(Spared(q, gone), Stranded(p, gone), Above(Undisturbed(p, gone), tx.nonce));
  }

  lemma PastQueued(p: TxMap, q: TxMap, gone: set<TxHash>, tx: Tx)
    requires WellKeyed(p) && WellKeyed(q) && (forall n :: n in p ==> n !in q) && Holds(Spared(q, gone) + Stranded(p, gone), tx)
    ensures Past(p, gone, tx)
    ensures if Holds(p, tx) then Unknown(q, tx.Hash()) && tx.nonce !in Spared(q, gone)
            else Holds(q, tx) && tx.nonce !in Stranded(p, gone)
  {
    hide Clear;
    assert tx.nonce in p ==> tx.nonce !in q;
  }

  lemma TakeFromSum(a: TxMap, b: TxMap, n: uint64)
    ensures n !in a ==> (a + b) - {n} == a + (b - {n})
    ensures n !in b ==> (a + b) - {n} == (a - {n}) + b
  {
  }

  lemma SiftStepQueued(a: Address, gone: set<TxHash>, tx: Tx, c: Content, d: Content, e: Content, n0: Noncer, n1: Noncer)
    requires Acct(c, {}, a) && Sifted(a, gone, c, d, n0, n1) && tx.sender == a && Holds(Items(d.queue, a), tx)
    requires e.pending == d.pending && Items(e.queue, a) == Items(d.queue, a) - {tx.nonce}
    ensures Sifted(a, gone + {tx.Hash()}, c, e, n0, n1)
  {
    hide Clear, NonceLeft, Undisturbed, Stranded, Spared, Past;
    var p, q := Items(c.pending, a), Items(c.queue, a);
    PastQueued(p, q, gone, tx);
    SiftQueued(p, gone, tx);
    LoseQueued(p, gone, tx, n0.Get(a));
    if Holds(p, tx) {
      GoneElsewhere(p, q, gone, tx.Hash(), 0);
    } else {
      SpareOne(q, gone, tx);
    }
    TakeFromSum(Spared(q, gone), Stranded(p, gone), tx.nonce);
  }

  /** One more transaction leaves the pool. */
  lemma SiftStep(x: Address, gone: set<TxHash>, tx: Tx, c: Content, d: Content, e: Content, n0: Noncer, n1: Noncer, n2: Noncer,
                 b: map<Address, nat>, b': map<Address, nat>, now: nat)
    requires Acct(c, {}, x) && Sifted(x, gone, c, d, n0, n1) && Removed(tx, d, e, n1, n2, b, b', now)
    ensures Sifted(x, gone + {tx.Hash()}, c, e, n0, n2)
  {
    hide Undisturbed, Spared, Stranded, NonceLeft, Noncer.SetIfLower;
    var p, q := Items(c.pending, x), Items(c.queue, x);
    if x != tx.sender {
      assert Unknown(p, tx.Hash()) && Unknown(q, tx.Hash());
      GoneElsewhere(p, q, gone, tx.Hash(), n0.Get(x));
      MinusSame(d.pending, e.pending, tx.sender, x);
      MinusSame(d.queue, e.queue, tx.sender, x);
      LowerElsewhere(n1, tx.sender, tx.nonce, x);
    } else if Holds(Items(d.pending, x), tx) {
      SiftStepPending(x, gone, tx, c, d, e, n0, n1, n2);
    } else {
      SiftStepQueued(x, gone, tx, c, d, e, n0, n1);
    }
  }

  /** Removing what is not in the pool changes nothing. */
  lemma SiftNothing(x: Address, gone: set<TxHash>, h: TxHash, c: Content, d: Content, n0: Noncer, n1: Noncer)
    requires Acct(c, {}, x) && Sifted(x, gone, c, d, n0, n1) && (h in gone || h !in c.all)
    ensures Sifted(x, gone + {h}, c, d, n0, n1)
  {
    hide Undisturbed, Spared, Stranded, NonceLeft;
    var p, q := Items(c.pending, x), Items(c.queue, x);
    if h in gone {
      assert gone + {h} == gone;
    } else {
      forall n | n in p ensures p[n].Hash() != h { assert Holds(p, p[n]); assert Live(c.all, p[n]); }
      forall n | n in q ensures q[n].Hash() != h { assert Holds(q, q[n]); assert Live(c.all, q[n]); }
      GoneElsewhere(p, q, gone, h, n0.Get(x));
    }
  }

  lemma SiftSame(a: Address, gone: set<TxHash>, c: Content, d: Content, e: Content, n: Noncer, n': Noncer)
    requires Sifted(a, gone, c, d, n, n') && e.pending == d.pending && e.queue == d.queue
    ensures Sifted(a, gone, c, e, n, n')
  {
  }

  /** removeTx of `tx`, which may or may not be in the pool. */
  lemma SiftedMore(gone: set<TxHash>, tx: Tx, c: Content, d: Content, e: Content, n0: Noncer, n1: Noncer, n2: Noncer,
                   b: map<Address, nat>, b': map<Address, nat>, now: nat)
    requires Consistent(c, {}) && Keyed(d.all) && d.all == c.all - gone && forall a :: Sifted(a, gone, c, d, n0, n1)
    requires tx.Hash() !in d.all ==> e.pending == d.pending && e.queue == d.queue && n2 == n1
    requires tx.Hash() in d.all ==> Removed(d.all[tx.Hash()], d, e, n1, n2, b, b', now)
    ensures forall a :: Sifted(a, gone + {tx.Hash()}, c, e, n0, n2)
  {
    hide Sifted, Acct, Removed;
    forall a ensures Sifted(a, gone + {tx.Hash()}, c, e, n0, n2) {
      assert Acct(c, {}, a);
      assert Sifted(a, gone, c, d, n0, n1);
      if tx.Hash() in d.all {
        assert d.all[tx.Hash()] == tx;
        SiftStep(a, gone, tx, c, d, e, n0, n1, n2, b, b', now);
      } else {
        SiftNothing(a, gone, tx.Hash(), c, d, n0, n1);
        SiftSame(a, gone + {tx.Hash()}, c, d, e, n0, n1);
      }
    }
  }
}
