/** What the pool holds, as a value: the pending and queued lists of every account and the
    lookup of all transactions. A transaction that a step has taken out of a list but not yet
    put into another, or dropped, is in flight. */
module PoolContent {
  import opened Transactions
  import opened TxLists
  import opened TxPriced

  type Lists = map<Address, AccountList>

  datatype Content = Content(pending: Lists, queue: Lists, all: Pooled)

  function Items(lists: Lists, a: Address): TxMap {
    if a in lists then lists[a].items else map[]
  }

  function ListOf(lists: Lists, a: Address, strict: bool): AccountList {
    if a in lists then lists[a] else EmptyList(strict)
  }

  function Put(lists: Lists, a: Address, l: AccountList): Lists { lists[a := l] }

  lemma PutTwice(lists: Lists, a: Address, l: AccountList, k: AccountList)
    ensures Put(Put(lists, a, l), a, k) == Put(lists, a, k)
    ensures a in Put(lists, a, l) && Put(lists, a, l)[a] == l
    ensures a in Put(lists, a, k) && Put(lists, a, k)[a] == k
  {
    assert lists[a := l][a := k] == lists[a := k];
  }

  ghost predicate Homed(a: Address, m: TxMap) {
    forall n :: n in m ==> m[n].sender == a && m[n].signed && m[n].nonce == n
  }

  /** Account `a` is in order: no nonce is both pending and queued, and the lookup knows exactly
      its pending, queued and in-flight transactions. */
  ghost predicate Acct(c: Content, flight: set<Tx>, a: Address) {
    var p, q := Items(c.pending, a), Items(c.queue, a);
    && Homed(a, p) && Homed(a, q)
    && (forall n :: n in p ==> n !in q)
    && (forall tx: Tx :: tx.sender == a ==> (Live(c.all, tx) <==> Holds(p, tx) || Holds(q, tx) || tx in flight))
    && (forall tx :: tx in flight && tx.sender == a ==> tx.signed && !Holds(p, tx) && !Holds(q, tx))
  }

  ghost predicate Consistent(c: Content, flight: set<Tx>) {
    forall a :: Acct(c, flight, a)
  }

  ghost predicate ListsOk(lists: Lists, strict: bool) {
    forall a :: a in lists ==> ValidList(lists[a]) && lists[a].strict == strict
  }

  lemma ListOfValid(lists: Lists, a: Address, strict: bool)
    requires ListsOk(lists, strict)
    ensures ValidList(ListOf(lists, a, strict)) && ListOf(lists, a, strict).strict == strict
    ensures ListOf(lists, a, strict).items == Items(lists, a)
  {
  }

  ghost predicate NoneEmpty(lists: Lists) {
    forall a :: a in lists ==> lists[a].items.Keys != {}
  }

  /** Nothing about other accounts differs. */
  ghost predicate OnlyAccount(c: Content, flight: set<Tx>, d: Content, flight': set<Tx>, a: Address) {
    && (forall b :: b != a ==> Items(d.pending, b) == Items(c.pending, b))
    && (forall b :: b != a ==> Items(d.queue, b) == Items(c.queue, b))
    && (forall tx: Tx :: tx.sender != a ==> Live(d.all, tx) == Live(c.all, tx))
    && (forall tx: Tx :: tx.sender != a ==> (tx in flight' <==> tx in flight))
  }

  lemma Elsewhere(c: Content, flight: set<Tx>, d: Content, flight': set<Tx>, a: Address, b: Address)
    requires Acct(c, flight, b) && OnlyAccount(c, flight, d, flight', a) && b != a
    ensures Acct(d, flight', b)
  {
    forall tx: Tx | tx.sender == b
      ensures Live(d.all, tx) <==> Holds(Items(d.pending, b), tx) || Holds(Items(d.queue, b), tx) || tx in flight'
    {
      assert Live(d.all, tx) == Live(c.all, tx);
    }
  }

  lemma OneAccount(c: Content, flight: set<Tx>, d: Content, flight': set<Tx>, a: Address)
    requires Consistent(c, flight) && OnlyAccount(c, flight, d, flight', a) && Acct(d, flight', a)
    ensures Consistent(d, flight')
  {
    forall b ensures Acct(d, flight', b) {
      if b != a {
        assert Acct(c, flight, b);
        Elsewhere(c, flight, d, flight', a, b);
      }
    }
  }

  /** `part` is a sub-map of `m`. */
  ghost predicate Part(part: TxMap, m: TxMap) {
    forall n :: n in part ==> n in m && part[n] == m[n]
  }

  lemma Taken(m: TxMap, part: TxMap)
    requires WellKeyed(m) && Part(part, m)
    ensures forall tx :: tx in Txs(part) <==> Holds(part, tx)
    ensures forall tx :: Holds(m, tx) <==> Holds(part, tx) || Holds(m - part.Keys, tx)
    ensures forall tx :: !(Holds(part, tx) && Holds(m - part.Keys, tx))
  {
    forall tx | Holds(part, tx) ensures tx in Txs(part) {
      assert part[tx.nonce] == tx;
    }
  }

  /** Taking transactions out of a pending list puts them in flight. */
  lemma TakePending(c: Content, flight: set<Tx>, a: Address, l: AccountList, part: TxMap)
    requires Consistent(c, flight) && a in c.pending && Part(part, c.pending[a].items)
    requires l.items == c.pending[a].items - part.Keys
    ensures Consistent(c.(pending := c.pending[a := l]), flight + Txs(part))
  {
    var d := c.(pending := c.pending[a := l]);
    assert Acct(c, flight, a);
    Taken(c.pending[a].items, part);
    assert Homed(a, part);
    assert Acct(d, flight + Txs(part), a);
    OneAccount(c, flight, d, flight + Txs(part), a);
  }

  lemma TakeQueued(c: Content, flight: set<Tx>, a: Address, l: AccountList, part: TxMap)
    requires Consistent(c, flight) && a in c.queue && Part(part, c.queue[a].items)
    requires l.items == c.queue[a].items - part.Keys
    ensures Consistent(c.(queue := c.queue[a := l]), flight + Txs(part))
  {
    var d := c.(queue := c.queue[a := l]);
    assert Acct(c, flight, a);
    Taken(c.queue[a].items, part);
    assert Homed(a, part);
    assert Acct(d, flight + Txs(part), a);
    OneAccount(c, flight, d, flight + Txs(part), a);
  }

  /** Forgetting a transaction in flight. */
  lemma DropInFlight(c: Content, flight: set<Tx>, tx: Tx)
    requires Consistent(c, flight) && tx in flight
    ensures Live(c.all, tx)
    ensures Consistent(c.(all := c.all - {tx.Hash()}), flight - {tx})
  {
    var d := c.(all := c.all - {tx.Hash()});
    assert Acct(c, flight, tx.sender);
    assert Acct(d, flight - {tx}, tx.sender);
    OneAccount(c, flight, d, flight - {tx}, tx.sender);
  }

  /** The lookup after `tx` took the place of `prev`. */
  function Relisted(all: Pooled, prev: Option<Tx>, tx: Tx): Pooled {
    (if prev.Some? then all - {prev.value.Hash()} else all)[tx.Hash() := tx]
  }

  lemma RelistedElsewhere(all: Pooled, prev: Option<Tx>, tx: Tx)
    requires prev.Some? ==> prev.value.sender == tx.sender
    ensures forall t: Tx :: t.sender != tx.sender ==> Live(Relisted(all, prev, tx), t) == Live(all, t)
  {
  }

  lemma JoinedQueue(c: Content, flight: set<Tx>, tx: Tx, d: Content, prev: Option<Tx>)
    requires Acct(c, flight, tx.sender) && tx.signed && tx.nonce !in Items(c.pending, tx.sender)
    requires Live(c.all, tx) ==> tx in flight && tx.nonce !in Items(c.queue, tx.sender)
    requires prev == if tx.nonce in Items(c.queue, tx.sender) then Some(Items(c.queue, tx.sender)[tx.nonce]) else None
    requires d.pending == c.pending && Items(d.queue, tx.sender) == Items(c.queue, tx.sender)[tx.nonce := tx]
    requires d.all == Relisted(c.all, prev, tx)
    ensures Acct(d, flight - {tx}, tx.sender)
  {
    assert prev.Some? ==> Holds(Items(c.queue, tx.sender), prev.value);
  }

  /** A transaction joins the queue, replacing the queued one with its nonce if there is one. */
  lemma JoinQueue(c: Content, flight: set<Tx>, tx: Tx, l: AccountList)
    requires Consistent(c, flight) && tx.signed
    requires tx.nonce !in Items(c.pending, tx.sender)
    requires Live(c.all, tx) ==> tx in flight && tx.nonce !in Items(c.queue, tx.sender)
    requires l.items == Items(c.queue, tx.sender)[tx.nonce := tx]
    ensures var prev := At(ListOf(c.queue, tx.sender, false), tx.nonce);
            prev.Some? ==> Live(c.all, prev.value) && prev.value != tx
    ensures var prev := At(ListOf(c.queue, tx.sender, false), tx.nonce);
            Consistent(c.(queue := c.queue[tx.sender := l], all := Relisted(c.all, prev, tx)), flight - {tx})
  {
    var a := tx.sender;
    var prev := At(ListOf(c.queue, a, false), tx.nonce);
    var d := c.(queue := c.queue[a := l], all := Relisted(c.all, prev, tx));
    assert Acct(c, flight, a);
    assert prev.Some? ==> Holds(Items(c.queue, a), prev.value);
    hide Consistent, Acct, Relisted;
    JoinedQueue(c, flight, tx, d, prev);
    RelistedElsewhere(c.all, prev, tx);
    OneAccount(c, flight, d, flight - {tx}, a);
  }

  lemma JoinedPending(c: Content, flight: set<Tx>, tx: Tx, d: Content, prev: Option<Tx>)
    requires Acct(c, flight, tx.sender) && tx.signed && tx.nonce !in Items(c.queue, tx.sender)
    requires Live(c.all, tx) ==> tx in flight
    requires prev == if tx.nonce in Items(c.pending, tx.sender) then Some(Items(c.pending, tx.sender)[tx.nonce]) else None
    requires d.queue == c.queue && Items(d.pending, tx.sender) == Items(c.pending, tx.sender)[tx.nonce := tx]
    requires d.all == Relisted(c.all, prev, tx)
    ensures Acct(d, flight - {tx}, tx.sender)
  {
    assert prev.Some? ==> Holds(Items(c.pending, tx.sender), prev.value);
  }

  /** A transaction joins the pending list, likewise. */
  lemma JoinPending(c: Content, flight: set<Tx>, tx: Tx, l: AccountList)
    requires Consistent(c, flight) && tx.signed
    requires tx.nonce !in Items(c.queue, tx.sender)
    requires Live(c.all, tx) ==> tx in flight
    requires l.items == Items(c.pending, tx.sender)[tx.nonce := tx]
    ensures var prev := At(ListOf(c.pending, tx.sender, true), tx.nonce);
            prev.Some? ==> Live(c.all, prev.value) && prev.value != tx
    ensures var prev := At(ListOf(c.pending, tx.sender, true), tx.nonce);
            Consistent(c.(pending := c.pending[tx.sender := l], all := Relisted(c.all, prev, tx)), flight - {tx})
  {
    var a := tx.sender;
    var prev := At(ListOf(c.pending, a, true), tx.nonce);
    var d := c.(pending := c.pending[a := l], all := Relisted(c.all, prev, tx));
    assert Acct(c, flight, a);
    assert prev.Some? ==> Holds(Items(c.pending, a), prev.value);
    hide Consistent, Acct, Relisted;
    JoinedPending(c, flight, tx, d, prev);
    RelistedElsewhere(c.all, prev, tx);
    OneAccount(c, flight, d, flight - {tx}, a);
  }

  /** An empty list and no list are the same. */
  lemma ForgetEmpty(c: Content, flight: set<Tx>, a: Address)
    requires Consistent(c, flight)
    ensures Items(c.pending, a).Keys == {} ==> Consistent(c.(pending := c.pending - {a}), flight)
    ensures Items(c.queue, a).Keys == {} ==> Consistent(c.(queue := c.queue - {a}), flight)
  {
    assert Acct(c, flight, a);
    if Items(c.pending, a).Keys == {} {
      var d := c.(pending := c.pending - {a});
      assert Items(c.pending, a) == Items(d.pending, a) == map[];
      assert Acct(d, flight, a);
      OneAccount(c, flight, d, flight, a);
    }
    if Items(c.queue, a).Keys == {} {
      var d := c.(queue := c.queue - {a});
      assert Items(c.queue, a) == Items(d.queue, a) == map[];
      assert Acct(d, flight, a);
      OneAccount(c, flight, d, flight, a);
    }
  }

  function Hashes(part: TxMap): set<TxHash> { set n | n in part :: part[n].Hash() }

  /** Transactions of `a` that can move into its lists: in flight, with nonces free in both. */
  ghost predicate Movable(c: Content, flight: set<Tx>, a: Address, part: TxMap) {
    && Homed(a, part) && Txs(part) <= flight
    && (forall n :: n in part ==> n !in Items(c.pending, a) && n !in Items(c.queue, a))
  }

  lemma TxsWithout(part: TxMap, above: TxMap, tx: Tx)
    requires WellKeyed(part) && Holds(part, tx) && above == part - {tx.nonce}
    ensures Txs(part) - {tx} == Txs(above)
  {
    forall t | t in Txs(part) - {tx} ensures t in Txs(above) {
      var n :| n in part && part[n] == t;
      assert above[n] == t;
    }
    forall t | t in Txs(above) ensures t in Txs(part) - {tx} {
      var n :| n in above && above[n] == t;
      assert part[n] == t;
    }
  }

  /** Removing a pending transaction strands everything above it. */
  lemma RemovePending(c: Content, tx: Tx)
    requires Consistent(c, {}) && tx.sender in c.pending && c.pending[tx.sender].strict
    requires Live(c.all, tx) && tx.nonce in c.pending[tx.sender].items
    ensures var a := tx.sender;
            var above := Above(c.pending[a].items, tx.nonce);
            var d := Content(c.pending[a := Without(c.pending[a], tx.nonce)], c.queue, c.all - {tx.Hash()});
            Holds(c.pending[a].items, tx) && Consistent(d, Txs(above)) && Movable(d, Txs(above), a, above)
  {
    var a := tx.sender;
    var m := c.pending[a].items;
    var above := Above(m, tx.nonce);
    var l := Without(c.pending[a], tx.nonce);
    assert Acct(c, {}, a);
    var part := AtLeast(m, tx.nonce);
    assert l.items == m - part.Keys;
    TakePending(c, {}, a, l, part);
    var mid := c.(pending := c.pending[a := l]);
    assert {} + Txs(part) == Txs(part);
    assert part[tx.nonce] == tx;
    DropInFlight(mid, Txs(part), tx);
    TxsWithout(part, above, tx);
  }

  lemma RemoveQueued(c: Content, tx: Tx)
    requires Consistent(c, {}) && Live(c.all, tx) && tx.nonce !in Items(c.pending, tx.sender)
    ensures tx.sender in c.queue && Holds(c.queue[tx.sender].items, tx)
    ensures var a := tx.sender;
            var l := c.queue[a].(items := c.queue[a].items - {tx.nonce});
            Consistent(Content(c.pending, c.queue[a := l], c.all - {tx.Hash()}), {})
  {
    var a := tx.sender;
    assert Acct(c, {}, a);
    var part := map[tx.nonce := tx];
    var l := c.queue[a].(items := c.queue[a].items - {tx.nonce});
    assert part.Keys == {tx.nonce};
    TakeQueued(c, {}, a, l, part);
    assert part[tx.nonce] == tx;
    assert {} + Txs(part) == {tx};
    DropInFlight(c.(queue := c.queue[a := l]), {tx}, tx);
    assert {tx} - {tx} == {};
  }

  /** A list is kept only while it has transactions. */
  function Stored(lists: Lists, a: Address, l: AccountList): Lists {
    if l.items.Keys == {} then lists - {a} else lists[a := l]
  }

  lemma StoredOk(lists: Lists, a: Address, l: AccountList, strict: bool)
    requires ListsOk(lists, strict) && ValidList(l) && l.strict == strict
    ensures ListsOk(Stored(lists, a, l), strict)
    ensures NoneEmpty(lists) ==> NoneEmpty(Stored(lists, a, l))
    ensures Items(Stored(lists, a, l), a) == l.items && Stored(lists, a, l) - {a} == lists - {a}
    ensures Stored(lists, a, l).Keys == if l.items.Keys == {} then lists.Keys - {a} else lists.Keys + {a}
  {
    if l.items.Keys == {} { assert l.items == map[]; }
  }

  lemma StoredPending(c: Content, flight: set<Tx>, a: Address, l: AccountList)
    requires Consistent(c.(pending := c.pending[a := l]), flight)
    ensures Consistent(c.(pending := Stored(c.pending, a, l)), flight)
  {
    ForgetEmpty(c.(pending := c.pending[a := l]), flight, a);
    assert c.pending[a := l] - {a} == c.pending - {a};
  }

  lemma StoredQueue(c: Content, flight: set<Tx>, a: Address, l: AccountList)
    requires Consistent(c.(queue := c.queue[a := l]), flight)
    ensures Consistent(c.(queue := Stored(c.queue, a, l)), flight)
  {
    ForgetEmpty(c.(queue := c.queue[a := l]), flight, a);
    assert c.queue[a := l] - {a} == c.queue - {a};
  }
}
