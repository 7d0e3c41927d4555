/** core/tx_pool.go: the transaction pool. Lists and virtual nonces are held as values; the
    lookup and the price heap are the objects of TxPriced. */
module TxPools {
  import opened Transactions
  import Heaps
  import Gas
  import opened TxSortedMaps
  import opened TxLists
  import opened TxPriced
  import opened PoolContent
  import opened PoolTotals
  import opened TxNoncers
  import opened PoolSteps
  import opened PoolSifts
  import opened PoolRooms
  import opened PoolAdds
  import opened PoolPlans
  import opened PoolReorgs
  import opened QueueCuts
  import opened Blocks

  class TxPool {
    const config: Config
    const lookup: TxLookup
    const priced: TxPricedList
    var gasPrice: nat
    var currentState: StateView
    var currentMaxGas: uint64
    var istanbul: bool
    var noncer: Noncer
    var locals: set<Address>
    var pending: Lists
    var queue: Lists
    var beats: map<Address, nat>

    ghost function Held(): Content reads `pending, `queue, lookup { Content(pending, queue, lookup.all) }

    ghost function State(): Holding reads `pending, `queue, `noncer, `locals, lookup { Holding(Held(), noncer, locals) }

    /** The structures agree, apart from the transactions in flight. */
    ghost predicate Sound(flight: set<Tx>) reads `pending, `queue, `beats, lookup, priced {
      && priced.lookup == lookup && lookup.Valid() && priced.Valid()
      && Consistent(Held(), flight)
      && ListsOk(pending, true) && ListsOk(queue, false)
      && queue.Keys <= beats.Keys
    }

    /** Nothing remote is below the price threshold. */
    ghost predicate Floored() reads `gasPrice, `locals, lookup { AtLeastPriced(lookup.all, locals, gasPrice) }

    ghost predicate Settled() reads `pending, `queue, `beats, lookup, priced {
      Sound({}) && NoneEmpty(pending) && NoneEmpty(queue)
    }

    /** What holds between any two steps of the pool. */
    ghost predicate Valid() reads `pending, `queue, `beats, `gasPrice, `locals, lookup, priced {
      Settled() && Covered(lookup.all, priced.items) && Floored()
    }

    constructor (config: Config, priceLimit: nat, locals: set<Address>, head: StateView, maxGas: uint64, istanbul: bool)
      ensures Valid() && pending == queue == map[] && lookup.all == map[] && priced.items == []
      ensures fresh(lookup) && fresh(priced)
      ensures this.config == config && gasPrice == priceLimit && this.locals == locals
    {
      var l := new TxLookup();
      this.config, lookup := config, l;
      priced := new TxPricedList(l);
      gasPrice, this.locals := priceLimit, locals;
      currentState, currentMaxGas, noncer := head, maxGas, Noncer(head.nonce, map[]);
      pending, queue, beats, this.istanbul := map[], map[], map[], istanbul;
    }

    /** Lookup and price heap follow a list that accepted `tx` in place of `prev`. */
    method Relist(prev: Option<Tx>, tx: Tx)
      requires priced.lookup == lookup && lookup.Valid() && priced.Valid()
      requires prev.Some? ==> Live(lookup.all, prev.value) && prev.value != tx
      modifies lookup, priced
      ensures lookup.Valid() && priced.Valid()
      ensures lookup.all == Relisted(old(lookup.all), prev, tx)
      ensures Covered(old(lookup.all), old(priced.items)) ==> Covered(lookup.all, priced.items)
      ensures prev.None? && old(Live(lookup.all, tx)) ==> priced.items == old(priced.items)
    {
      hide Heaps.IsHeap, SlotSum;
      if prev.Some? {
        lookup.Remove(prev.value.Hash());
        label mid:
        priced.Removed(1);
        CoverAfterRemoved(lookup.all, old@mid(priced.items), priced.items);
      }
      ghost var items := priced.items;
      if !Live(lookup.all, tx) {
        lookup.Add(tx);
        priced.Put(tx);
        CoverAfterPut(items, priced.items, tx);
      } else {
        assert lookup.all[tx.Hash()] == tx;
        assert lookup.all[tx.Hash() := tx] == lookup.all;
      }
    }

    lemma KeyedHeld()
      requires lookup.Valid()
      ensures Keyed(lookup.all)
    {
    }

    /** enqueueTx: into the queue, possibly replacing. */
    method EnqueueTx(tx: Tx, now: nat, ghost flight: set<Tx>) returns (replaced: bool, err: Option<PoolError>)
      requires Sound(flight) && tx.signed
      requires tx.nonce !in Items(pending, tx.sender)
      requires Live(lookup.all, tx) ==> tx in flight && tx.nonce !in Items(queue, tx.sender)
      modifies `queue, `beats, lookup, priced
      ensures Sound(if err.None? then flight - {tx} else flight)
      ensures var list := ListOf(old(queue), tx.sender, false);
              if Accepts(list, tx, config.priceBump) then
                && err == None && replaced == At(list, tx.nonce).Some?
                && queue == old(queue)[tx.sender := Added(list, tx)]
                && lookup.all == Relisted(old(lookup.all), At(list, tx.nonce), tx)
                && beats == (if tx.sender in old(beats) then old(beats) else old(beats)[tx.sender := now])
              else
                && err == Some(ReplaceUnderpriced) && !replaced && queue == old(queue) && beats == old(beats)
                && lookup.all == old(lookup.all)
      ensures Covered(old(lookup.all), old(priced.items)) ==> Covered(lookup.all, priced.items)
      ensures old(Live(lookup.all, tx)) ==> lookup.all == old(lookup.all) && priced.items == old(priced.items)
    {
      hide Heaps.IsHeap, SlotSum, Covered, Outbids, Consistent, ListsOk, Added, Relisted, Keyed, ValidList;
      ghost var c := Held();
      var from := tx.sender;
      var list := ListOf(queue, from, false);
      if !Accepts(list, tx, config.priceBump) {
        return false, Some(ReplaceUnderpriced);
      }
      var prev := At(list, tx.nonce);
      AddedOk(queue, tx, false);
      JoinQueue(c, flight, tx, Added(list, tx));
      RelistKnown(c.all, tx) by { KeyedHeld(); }
      queue := queue[from := Added(list, tx)];
      Relist(prev, tx);
      if from !in beats {
        beats := beats[from := now];
      }
      return prev.Some?, None;
    }

    lemma Unpack(flight: set<Tx>)
      requires Sound(flight)
      ensures ListsOk(pending, true) && ListsOk(queue, false) && Consistent(Held(), flight) && Keyed(lookup.all)
    {
    }

    /** Puts one of several transactions in flight back into the queue. */
    method RequeueOne(a: Address, ghost part: TxMap, tx: Tx, now: nat, ghost flight: set<Tx>)
      requires Sound(flight) && Movable(Held(), flight, a, part) && Holds(part, tx)
      modifies `queue, `beats, lookup, priced
      ensures Sound(flight - {tx}) && Movable(Held(), flight - {tx}, a, part - {tx.nonce})
      ensures |part - {tx.nonce}| < |part| && Txs(part - {tx.nonce}) == Txs(part) - {tx} && tx in Txs(part)
      ensures queue - {a} == old(queue) - {a} && a in queue
      ensures Items(queue, a) + (part - {tx.nonce}) == Items(old(queue), a) + part
      ensures lookup.all == old(lookup.all) && priced.items == old(priced.items)
      ensures beats == if a in old(beats) then old(beats) else old(beats)[a := now]
    {
      hide Sound, Movable, Added, Relisted, Txs, Consistent;
      ghost var c := Held();
      Unpack(flight);
      MoveOne(c, flight, a, part, tx.nonce);
      MovableAt(c, flight, a, part, tx.nonce);
      var replaced, err := EnqueueTx(tx, now, flight);
      MovedToQueue(c, flight, a, part, tx);
    }

    /** Puts transactions in flight back into the queue, in an arbitrary order. */
    method Requeue(a: Address, part: TxMap, now: nat, ghost flight: set<Tx>)
      requires Sound(flight) && Movable(Held(), flight, a, part) && WellKeyed(part)
      modifies `queue, `beats, lookup, priced
      ensures Sound(flight - Txs(part))
      ensures Requeued(a, old(queue), queue, old(beats), beats, part, now)
      ensures lookup.all == old(lookup.all) && priced.items == old(priced.items)
    {
      hide Sound, Movable, Requeued, Txs, WellKeyed, Holds, Items;
      var todo := part;
      ghost var left := flight;
      while todo.Keys != {}
        invariant Sound(left) && left - Txs(todo) == flight - Txs(part)
        invariant WellKeyed(todo) && Movable(Held(), left, a, todo)
        invariant forall q, b :: Requeued(a, queue, q, beats, b, todo, now) ==> Requeued(a, old(queue), q, old(beats), b, part, now)
        invariant lookup.all == old(lookup.all) && priced.items == old(priced.items)
        decreases |todo|
      {
        var n :| n in todo.Keys;
        KeyedAt(todo, n);
        ghost var q, b := queue, beats;
        RequeueOne(a, todo, todo[n], now, left);
        RequeuedStep(a, q, queue, b, beats, todo, n, now);
        left := left - {todo[n]};
        todo := todo - {n};
      }
      NoTxs(todo);
      RequeuedNothing(a, queue, beats, todo, now);
      assert left == flight - Txs(part);
    }

    method ForgetOne(tx: Tx, ghost flight: set<Tx>)
      requires Sound(flight) && tx in flight
      modifies lookup
      ensures Sound(flight - {tx}) && lookup.all == old(lookup.all) - {tx.Hash()}
    {
      hide Heaps.IsHeap, SlotSum, Consistent, ListsOk;
      DropInFlight(Held(), flight, tx);
      lookup.Remove(tx.Hash());
    }

    /** Drops transactions in flight from the lookup. */
    method Forget(part: TxMap, ghost flight: set<Tx>)
      requires Sound(flight) && WellKeyed(part) && Txs(part) <= flight
      modifies lookup
      ensures Sound(flight - Txs(part)) && lookup.all == old(lookup.all) - Hashes(part)
      ensures forall h :: h in lookup.all ==> h in old(lookup.all) && lookup.all[h] == old(lookup.all)[h]
    {
      hide Sound, Txs, WellKeyed, Holds, Hashes;
      var todo := part;
      ghost var left := flight;
      NoHashes(part);
      while todo.Keys != {}
        invariant Sound(left) && WellKeyed(todo) && Txs(todo) <= left
        invariant left - Txs(todo) == flight - Txs(part)
        invariant lookup.all - Hashes(todo) == old(lookup.all) - Hashes(part)
        decreases |todo|
      {
        var n :| n in todo.Keys;
        KeyedAt(todo, n);
        ForgetStep(todo, n);
        ForgetOne(todo[n], left);
        left := left - {todo[n]};
        todo := todo - {n};
      }
      NoTxs(todo);
      NoHashes(todo);
      assert left == flight - Txs(part);
    }

    method RemovePendingTx(tx: Tx, ghost c: Content, now: nat)
      requires priced.lookup == lookup && lookup.Valid() && priced.Valid() && queue.Keys <= beats.Keys
      requires Consistent(c, {}) && ListsOk(pending, true) && ListsOk(queue, false) && NoneEmpty(pending) && NoneEmpty(queue)
      requires c == Content(pending, queue, c.all) && Live(c.all, tx) && lookup.all == c.all - {tx.Hash()}
      requires tx.sender in pending && tx.nonce in pending[tx.sender].items
      modifies `pending, `queue, `beats, `noncer, lookup, priced
      ensures Settled() && Removed(tx, c, Held(), old(noncer), noncer, old(beats), beats, now)
      ensures lookup.all == old(lookup.all) && priced.items == old(priced.items)
    {
      hide Heaps.IsHeap, SlotSum, Consistent, ListsOk, NoneEmpty, Stored, Requeued, Removed, Movable, Txs, Without, Invalidated, Keyed;
      var a := tx.sender;
      var list := Without(pending[a], tx.nonce);
      var invalids := Invalidated(pending[a], tx.nonce);
      pending := Stored(pending, a, list);
      PendingTaken(c, tx, Held(), list, invalids);
      Requeue(a, invalids, now, Txs(invalids));
      assert Txs(invalids) - Txs(invalids) == {};
      RequeuedOk(a, old(queue), queue, old(beats), beats, invalids, now);
      noncer := noncer.SetIfLower(a, tx.nonce);
      RemovedAsPending(tx, c, Held(), list, old(noncer), noncer, old(beats), beats, now);
    }

    method RemoveQueuedTx(tx: Tx, ghost c: Content)
      requires priced.lookup == lookup && lookup.Valid() && priced.Valid() && queue.Keys <= beats.Keys
      requires Consistent(c, {}) && ListsOk(pending, true) && ListsOk(queue, false) && NoneEmpty(pending) && NoneEmpty(queue)
      requires c == Content(pending, queue, c.all) && Live(c.all, tx) && lookup.all == c.all - {tx.Hash()}
      requires tx.nonce !in Items(pending, tx.sender)
      modifies `queue, `beats
      ensures Settled() && Removed(tx, c, Held(), noncer, noncer, old(beats), beats, 0)
    {
      hide Heaps.IsHeap, SlotSum, Consistent, Acct, ListsOk, NoneEmpty, Stored, CapsBound;
      RemoveQueued(c, tx);
      var a := tx.sender;
      StrictOf(queue, a, false);
      var list := Without(queue[a], tx.nonce);
      WithoutOk(queue, a, tx.nonce);
      StoredOk(queue, a, list, false);
      StoredQueue(c.(all := lookup.all), {}, a, list);
      ghost var q := queue[a].items;
      assert (q - {tx.nonce}).Keys == q.Keys - {tx.nonce};
      queue := Stored(queue, a, list);
      if list.items.Keys == {} {
        beats := beats - {a};
      }
    }

    /** removeTx. A pending transaction takes everything above it back to the queue. */
    method RemoveTx(hash: TxHash, outofbound: bool, now: nat)
      requires Settled()
      modifies `pending, `queue, `beats, `noncer, lookup, priced
      ensures Settled() && lookup.all == old(lookup.all) - {hash}
      ensures hash !in old(lookup.all) ==> pending == old(pending) && queue == old(queue) && noncer == old(noncer)
                                           && beats == old(beats)
      ensures hash in old(lookup.all) ==>
                Removed(old(lookup.all)[hash], old(Held()), Held(), old(noncer), noncer, old(beats), beats, now)
      ensures !outofbound ==> priced.items == old(priced.items)
      ensures Covered(old(lookup.all), old(priced.items)) ==> Covered(lookup.all, priced.items)
    {
      hide Heaps.IsHeap, SlotSum, Consistent, ListsOk, Acct, Movable;
      ghost var c := Held();
      var found := lookup.Get(hash);
      if found.None? {
        assert lookup.all - {hash} == lookup.all;
        return;
      }
      var tx := found.value;
      var a := tx.sender;
      lookup.Remove(hash);
      if outofbound {
        label before:
        priced.Removed(1);
        CoverAfterRemoved(lookup.all, old@before(priced.items), priced.items);
      }
      if a in pending && tx.nonce in pending[a].items {
        RemovePendingTx(tx, c, now);
      } else {
        RemoveQueuedTx(tx, c);
      }
    }

    /** promoteTx: into the pending list, possibly replacing, or dropped for a better one. */
    method PromoteTx(tx: Tx, now: nat, ghost flight: set<Tx>) returns (ok: bool)
      requires Sound(flight) && tx.signed && tx.nonce !in Items(queue, tx.sender)
      requires Live(lookup.all, tx) ==> tx in flight
      requires !Live(lookup.all, tx) ==> Accepts(ListOf(pending, tx.sender, true), tx, config.priceBump)
      modifies `pending, `noncer, `beats, lookup, priced
      ensures Sound(flight - {tx})
      ensures var list := ListOf(old(pending), tx.sender, true);
              ok == Accepts(list, tx, config.priceBump) &&
              if ok then
                && pending == old(pending)[tx.sender := Added(list, tx)]
                && lookup.all == Relisted(old(lookup.all), At(list, tx.nonce), tx)
                && noncer == old(noncer).Set(tx.sender, NextNonce(tx.nonce))
                && beats == old(beats)[tx.sender := now]
              else
                && pending == old(pending) && noncer == old(noncer) && beats == old(beats)
                && lookup.all == old(lookup.all) - {tx.Hash()}
      ensures Covered(old(lookup.all), old(priced.items)) ==> Covered(lookup.all, priced.items)
      ensures old(Live(lookup.all, tx)) && tx.nonce !in Items(old(pending), tx.sender) ==>
                lookup.all == old(lookup.all) && priced.items == old(priced.items)
    {
      hide Heaps.IsHeap, SlotSum, Outbids, Consistent, ListsOk, Added, Relisted, Keyed, ValidList, Noncer.Set;
      ghost var c := Held();
      var a := tx.sender;
      var list := ListOf(pending, a, true);
      if !Accepts(list, tx, config.priceBump) {
        DropInFlight(c, flight, tx);
        lookup.Remove(tx.Hash());
        label before:
        priced.Removed(1);
        CoverAfterRemoved(lookup.all, old@before(priced.items), priced.items);
        return false;
      }
      AddedOk(pending, tx, true);
      JoinPending(c, flight, tx, Added(list, tx));
      RelistKnown(c.all, tx) by { KeyedHeld(); }
      var prev := At(list, tx.nonce);
      pending := pending[a := Added(list, tx)];
      Relist(prev, tx);
      noncer := noncer.Set(a, NextNonce(tx.nonce));
      beats := beats[a := now];
      return true;
    }

    method PromoteOne(a: Address, ghost part: TxMap, tx: Tx, now: nat, ghost flight: set<Tx>) returns (ok: bool)
      requires Sound(flight) && Movable(Held(), flight, a, part) && Holds(part, tx)
      modifies `pending, `noncer, `beats, lookup, priced
      ensures ok && Sound(flight - {tx}) && Movable(Held(), flight - {tx}, a, part - {tx.nonce})
      ensures |part - {tx.nonce}| < |part| && Txs(part - {tx.nonce}) == Txs(part) - {tx} && tx in Txs(part)
      ensures pending - {a} == old(pending) - {a} && a in pending
      ensures Items(pending, a) + (part - {tx.nonce}) == Items(old(pending), a) + part
      ensures lookup.all == old(lookup.all) && priced.items == old(priced.items)
      ensures noncer == old(noncer).Set(a, NextNonce(tx.nonce)) && beats == old(beats)[a := now]
    {
      hide Sound, Movable, Added, Relisted, Txs, Consistent;
      ghost var c := Held();
      Unpack(flight);
      MoveOne(c, flight, a, part, tx.nonce);
      MovableAt(c, flight, a, part, tx.nonce);
      ok := PromoteTx(tx, now, flight);
      MovedToPending(c, flight, a, part, tx);
    }

    /** Promotes ready transactions, lowest nonce first. */
    method PromoteAll(a: Address, readies: seq<Tx>, ghost part: TxMap, now: nat, ghost flight: set<Tx>)
      returns (promoted: seq<Tx>)
      requires Sound(flight) && Movable(Held(), flight, a, part) && WellKeyed(part) && readies == Flat(part)
      modifies `pending, `noncer, `beats, lookup, priced
      ensures Sound(flight - Txs(part)) && promoted == readies
      ensures Promoted(a, old(pending), pending, old(noncer), noncer, old(beats), beats, part, now)
      ensures lookup.all == old(lookup.all) && priced.items == old(priced.items)
    {
      hide Sound, Movable, Promoted, Txs, WellKeyed, Holds, Items, Flat, NextNonce;
      promoted := [];
      ghost var todo := part;
      ghost var left := flight;
      for i := 0 to |readies|
        invariant Sound(left) && left - Txs(todo) == flight - Txs(part)
        invariant WellKeyed(todo) && Movable(Held(), left, a, todo) && Flat(todo) == readies[i..]
        invariant forall p, n, b :: Promoted(a, pending, p, noncer, n, beats, b, todo, now)
                    ==> Promoted(a, old(pending), p, old(noncer), n, old(beats), b, part, now)
        invariant lookup.all == old(lookup.all) && priced.items == old(priced.items)
        invariant promoted == readies[..i]
      {
        var tx := readies[i];
        FirstOf(todo);
        ghost var p, n, b := pending, noncer, beats;
        var ok := PromoteOne(a, todo, tx, now, left);
        PromotedStep(a, p, pending, n, b, todo, now);
        if ok {
          promoted := promoted + [tx];
        }
        left := left - {tx};
        todo := todo - {tx.nonce};
      }
      NoTxs(todo);
      PromotedNothing(a, pending, noncer, beats, todo, now);
      assert left == flight - Txs(part);
    }

    /** Cuts `part` off a queued list and forgets it. */
    method DropQueued(a: Address, list: AccountList, part: TxMap)
      requires Sound({}) && a in queue && Part(part, queue[a].items) && list.items == queue[a].items - part.Keys
      requires ValidList(list) && !list.strict
      modifies `queue, lookup
      ensures Sound({}) && queue == Put(old(queue), a, list) && lookup.all == old(lookup.all) - Hashes(part)
      ensures Covered(old(lookup.all), priced.items) ==> Covered(lookup.all, priced.items)
    {
      hide Heaps.IsHeap, SlotSum, CapsBound, Consistent, Acct, Hashes, Txs;
      TakeQueued(Held(), {}, a, list, part);
      StrictOf(queue, a, false);
      queue := queue[a := list];
      assert {} + Txs(part) == Txs(part);
      Forget(part, Txs(part));
      assert Txs(part) - Txs(part) == {};
    }

    /** Moves `part` from a queued list to the pending one. */
    method PromoteReady(a: Address, list: AccountList, readies: seq<Tx>, ghost part: TxMap, now: nat)
      returns (promoted: seq<Tx>)
      requires Sound({}) && a in queue && Part(part, queue[a].items) && list.items == queue[a].items - part.Keys
      requires ValidList(list) && !list.strict && readies == Flat(part)
      modifies `pending, `queue, `noncer, `beats, lookup, priced
      ensures Sound({}) && promoted == readies && queue == Put(old(queue), a, list)
      ensures Promoted(a, old(pending), pending, old(noncer), noncer, old(beats), beats, part, now)
      ensures beats == Beaten(old(beats), a, part, now) && (NoneEmpty(old(pending)) ==> NoneEmpty(pending))
      ensures lookup.all == old(lookup.all) && priced.items == old(priced.items)
    {
      hide Heaps.IsHeap, SlotSum, CapsBound, Consistent, Flat, Promoted, Txs;
      ghost var c := Held();
      StrictOf(queue, a, false);
      TakeQueued(c, {}, a, list, part);
      queue := queue[a := list];
      assert {} + Txs(part) == Txs(part);
      FromQueue(c, a, list, part);
      promoted := PromoteAll(a, readies, part, now, Txs(part));
      PromotedOk(a, old(pending), pending, old(noncer), noncer, old(beats), beats, part, now);
      assert Txs(part) - Txs(part) == {};
    }

    /** Local accounts may queue as much as they like. */
    function CapOf(a: Address): Option<nat> reads `locals { if a in locals then None else Some(config.accountQueue) }

    function Plan(a: Address): Promotion
      reads this
      requires a in queue
    {
      PromotionOf(queue[a], currentState.nonce(a), currentState.balance(a), currentMaxGas, noncer.Get(a), CapOf(a))
    }

    /** Drops what is too old or too costly from a queued list, and says what is ready then. */
    method CleanQueue(a: Address) returns (scanned: AccountList, ready: TxMap, left: AccountList, dropped: nat)
      requires Sound({}) && a in queue
      modifies `queue, lookup
      ensures Sound({}) && queue == Put(old(queue), a, scanned)
      ensures ValidList(left) && !left.strict && Part(ready, scanned.items) && left.items == scanned.items - ready.Keys
      ensures var r := old(Plan(a));
              && ready == r.ready
              && r.list == (if a in locals then left else left.(items := Lowest(left.items, config.accountQueue)))
              && r.caps == (if a in locals then map[] else Highest(left.items, config.accountQueue))
              && lookup.all == old(lookup.all) - Hashes(r.forwards) - Hashes(r.drops)
      ensures Covered(old(lookup.all), priced.items) ==> Covered(lookup.all, priced.items)
    {
      hide Sound, CapsBound, Flat, Txs, Hashes, FullScan, Covered, Put, ReadyTxs, Lowest, Highest;
      Unpack({});
      var list := queue[a];
      StrictOf(queue, a, false);
      ForwardPart(list, currentState.nonce(a));
      var forwards := Below(list.items, currentState.nonce(a));
      list := list.(items := AtLeast(list.items, currentState.nonce(a)));
      DropQueued(a, list, forwards);
      var scan := FullScan(list, currentState.balance(a), currentMaxGas);
      scanned := scan.list;
      PutTwice(old(queue), a, list, scanned);
      ScanPart(list, currentState.balance(a), currentMaxGas);
      DropQueued(a, scanned, scan.drops);
      dropped := |forwards| + |scan.drops|;
      ready := ReadyTxs(scanned.items, noncer.Get(a));
      ReadyPart(scanned, noncer.Get(a));
      left := scanned.(items := scanned.items - ready.Keys);
    }

    /** Caps a queued list, unless the account is local. */
    method CapQueue(a: Address) returns (list: AccountList, dropped: nat)
      requires Sound({}) && a in queue
      modifies `queue, lookup
      ensures Sound({}) && queue == Put(old(queue), a, list)
      ensures list == if a in locals then old(queue)[a] else old(queue)[a].(items := Lowest(old(queue)[a].items, config.accountQueue))
      ensures lookup.all == old(lookup.all) - Hashes(if a in locals then map[] else Highest(old(queue)[a].items, config.accountQueue))
      ensures Covered(old(lookup.all), priced.items) ==> Covered(lookup.all, priced.items)
    {
      hide Sound, CapsBound, Lowest, Highest, Covered, Txs, Hashes;
      Unpack({});
      list, dropped := queue[a], 0;
      assert queue == queue[a := list];
      NoHashes(map[]);
      if a !in locals {
        StrictOf(queue, a, false);
        CapPart(list, config.accountQueue);
        var caps := Highest(list.items, config.accountQueue);
        list := list.(items := Lowest(list.items, config.accountQueue));
        DropQueued(a, list, caps);
        dropped := |caps|;
      }
    }

    /** A queued list that became empty goes, and with it the heartbeat. */
    method StoreQueue(a: Address, ghost before: Lists, list: AccountList)
      requires Sound({}) && NoneEmpty(before) && queue == Put(before, a, list)
      modifies `queue, `beats
      ensures Sound({}) && queue == Stored(before, a, list) && NoneEmpty(queue)
      ensures beats == old(beats) - (if list.items.Keys == {} then {a} else {})
    {
      hide Heaps.IsHeap, SlotSum, Consistent;
      assert beats - {} == beats;
      if list.items.Keys == {} {
        ForgetEmpty(Held(), {}, a);
        queue, beats := queue - {a}, beats - {a};
        assert before[a := list] - {a} == before - {a};
      }
    }

    /** priced.Removed, after the lookup has shrunk. */
    method CountRemoved(count: nat, ghost flight: set<Tx>)
      requires Sound(flight)
      modifies priced
      ensures Sound(flight)
      ensures Covered(lookup.all, old(priced.items)) ==> Covered(lookup.all, priced.items)
    {
      hide Heaps.IsHeap, SlotSum, Consistent, ListsOk;
      priced.Removed(count);
      CoverAfterRemoved(lookup.all, old(priced.items), priced.items);
    }

    lemma AccountExactly(a: Address, r: Promotion, c: Content, d: Content, n: Noncer, n': Noncer, b: map<Address, nat>, b': map<Address, nat>, now: nat)
      requires a in c.queue && !c.queue[a].strict && WellKeyed(c.queue[a].items)
      requires r == PromotionOf(c.queue[a], currentState.nonce(a), currentState.balance(a), currentMaxGas, n.Get(a), CapOf(a))
      requires AccountPromoted(a, r, c, d, n, n', b, b', now)
      ensures PromotedExactly(a, currentState, currentMaxGas, CapOf(a), c, d, n, n')
    {
      hide PromotionOf, OnePromoted, PromotedExactly, AccountPromoted;
      StepPromoted(a, r, c, d, n, n', b, b', now);
      PlannedExactly(a, currentState, currentMaxGas, CapOf(a), c, d, n, n');
    }

    /** The body of promoteExecutables for one account with a queued list. */
    method PromoteAccount(a: Address, now: nat) returns (promoted: seq<Tx>)
      requires Settled() && a in queue && Covered(lookup.all, priced.items)
      modifies `pending, `queue, `beats, `noncer, lookup, priced
      ensures Settled() && Covered(lookup.all, priced.items)
      ensures promoted == Flat(old(Plan(a)).ready)
      ensures AccountPromoted(a, old(Plan(a)), old(Held()), Held(), old(noncer), noncer, old(beats), beats, now)
      ensures PromotedExactly(a, currentState, currentMaxGas, CapOf(a), old(Held()), Held(), old(noncer), noncer)
    {
      hide Sound, CapsBound, Flat, Promoted, Txs, Hashes, Lowest, Highest, Covered, Beaten, Stored, Put, PromotionOf, ValidList,
           PromotedExactly, ListsOk, Consistent;
      Unpack({});
      StrictOf(queue, a, false);
      var list, ready, left, dropped := CleanQueue(a);
      PutTwice(old(queue), a, list, left);
      promoted := PromoteReady(a, left, Flat(ready), ready, now);
      var rest, capped := CapQueue(a);
      PutTwice(old(queue), a, left, rest);
      CountRemoved(dropped + capped, {});
      StoreQueue(a, old(queue), rest);
      AccountExactly(a, old(Plan(a)), old(Held()), Held(), old(noncer), noncer, old(beats), beats, now);
    }

    ghost function PlanAt(a: Address): Promotion reads this {
      if a in queue then Plan(a) else Promotion(EmptyList(false), map[], map[], map[], map[])
    }

    /** promoteExecutables. Accounts do not influence each other: for each one the ready transactions, as
        its queue, its funds and its virtual nonce have it, become pending, and the lowest of the others
        stay queued; accounts that were not asked for stay as they are. */
    method PromoteExecutables(accounts: seq<Address>, now: nat) returns (promoted: seq<Tx>)
      requires Settled() && Covered(lookup.all, priced.items)
      requires forall i, j :: 0 <= i < j < |accounts| ==> accounts[i] != accounts[j]
      modifies `pending, `queue, `beats, `noncer, lookup, priced
      ensures Settled() && Covered(lookup.all, priced.items)
      ensures forall a :: a in accounts ==>
                PromotedExactly(a, currentState, currentMaxGas, if a in locals then None else Some(config.accountQueue),
                                old(Held()), Held(), old(noncer), noncer)
      ensures forall a :: a !in accounts ==> SameAccount(a, old(Held()), Held(), old(noncer), noncer)
      ensures forall h :: h in lookup.all ==> h in old(lookup.all)
      ensures promoted == Readies((a: Address) => old(PlanAt(a)), accounts)
    {
      hide Sound, Covered, AccountPromoted, OnePromoted, NoneEmpty, Progress, PromotionOf, Readies, Flat, PromotedExactly, ListsOk, Consistent;
      Unpack({});
      promoted := [];
      ghost var c, n := Held(), noncer;
      NoReadies();
      ghost var plan: Address -> Promotion := (x: Address) => old(PlanAt(x));
      StartProgress(plan, accounts, c, n);
      for i := 0 to |accounts|
        invariant Settled() && Covered(lookup.all, priced.items)
        invariant Progress(plan, accounts, i, c, Held(), n, noncer)
        invariant forall h :: h in lookup.all ==> h in old(lookup.all)
        invariant promoted == Readies(plan, accounts[..i])
      {
        var a := accounts[i];
        NextReadies(plan, accounts, i);
        ghost var d, m := Held(), noncer;
        Untouched(plan, accounts, i, c, d, n, m);
        if a in queue {
          ghost var b := beats;
          var more := PromoteAccount(a, now);
          promoted := promoted + more;
          StepPromoted(a, plan(a), d, Held(), m, noncer, b, beats, now);
        } else {
          IdlePromoted(a, d, m);
        }
        NextProgress(plan, accounts, i, c, d, Held(), n, m, noncer);
      }
      EndProgress(plan, accounts, c, Held(), n, noncer);
      forall a | a in accounts ensures PromotedExactly(a, currentState, currentMaxGas, CapOf(a), c, Held(), n, noncer) {
        assert OnePromoted(a, plan(a), c, Held(), n, noncer);
        if a in c.queue {
          StrictOf(c.queue, a, false);
          PlannedExactly(a, currentState, currentMaxGas, CapOf(a), c, Held(), n, noncer);
        } else {
          IdleExactly(a, currentState, currentMaxGas, CapOf(a), c, Held(), n, noncer);
        }
      }
      assert accounts[..|accounts|] == accounts;
    }

    /** Cuts `drops` and `strays` off a pending list; forgets the former, leaves the latter in flight. */
    method CutPending(a: Address, list: AccountList, drops: TxMap, ghost strays: TxMap)
      requires Sound({}) && a in pending && Part(drops, pending[a].items) && Part(strays, pending[a].items)
      requires drops.Keys !! strays.Keys && list.items == pending[a].items - drops.Keys - strays.Keys
      requires ValidList(list) && list.strict
      modifies `pending, lookup
      ensures Sound(Txs(strays)) && Movable(Held(), Txs(strays), a, strays) && WellKeyed(strays)
      ensures pending == Put(old(pending), a, list) && lookup.all == old(lookup.all) - Hashes(drops)
      ensures Covered(old(lookup.all), priced.items) ==> Covered(lookup.all, priced.items)
    {
      hide Heaps.IsHeap, SlotSum, CapsBound, Consistent, Acct, Hashes, Txs, Movable;
      ghost var c := Held();
      ghost var part := drops + strays;
      ghost var flight := Txs(part);
      StrictOf(pending, a, true);
      CutParts(pending[a].items, drops, strays);
      TakePending(c, {}, a, list, part);
      assert {} + Txs(part) == flight;
      pending := pending[a := list];
      Forget(drops, flight);
      FromPending(c, Held(), a, list, drops, strays);
      assert flight - Txs(drops) == Txs(strays);
    }

    /** Drops what is too old or too costly from a pending list; what that strands is in flight. */
    method CleanPending(a: Address) returns (list: AccountList, invalids: TxMap, dropped: nat)
      requires Sound({}) && a in pending
      modifies `pending, lookup
      ensures Sound(Txs(invalids)) && Movable(Held(), Txs(invalids), a, invalids) && WellKeyed(invalids)
      ensures pending == Put(old(pending), a, list) && ValidList(list) && list.strict
      ensures var r := DemotionOf(old(pending)[a], currentState.nonce(a), currentState.balance(a), currentMaxGas);
              && r.list == list.(items := list.items - Gapped(list, currentState.nonce(a)).Keys)
              && r.requeued == invalids + Gapped(list, currentState.nonce(a))
              && lookup.all == old(lookup.all) - Hashes(r.olds) - Hashes(r.drops)
      ensures Covered(old(lookup.all), priced.items) ==> Covered(lookup.all, priced.items)
    {
      hide Sound, CapsBound, Txs, Hashes, FullScan, Covered, Put, Gapped, Movable;
      Unpack({});
      StrictOf(pending, a, true);
      list := pending[a];
      ForwardPart(list, currentState.nonce(a));
      var olds := Below(list.items, currentState.nonce(a));
      list := list.(items := AtLeast(list.items, currentState.nonce(a)));
      NoTxs(map[]);
      assert list.items - {} == list.items;
      CutPending(a, list, olds, map[]);
      var scan := FullScan(list, currentState.balance(a), currentMaxGas);
      ScanPart(list, currentState.balance(a), currentMaxGas);
      PutTwice(old(pending), a, list, scan.list);
      invalids, dropped := scan.invalids, |olds| + |scan.drops|;
      CutPending(a, scan.list, scan.drops, invalids);
      list := scan.list;
    }

    method StorePending(a: Address, ghost before: Lists, list: AccountList)
      requires Sound({}) && NoneEmpty(before) && pending == Put(before, a, list)
      modifies `pending
      ensures Sound({}) && pending == Stored(before, a, list) && NoneEmpty(pending)
    {
      hide Heaps.IsHeap, SlotSum, Consistent;
      if list.items.Keys == {} {
        ForgetEmpty(Held(), {}, a);
        pending := pending - {a};
        assert before[a := list] - {a} == before - {a};
      }
    }

    /** The body of demoteUnexecutables for one account. */
    method DemoteAccount(a: Address, now: nat)
      requires Settled() && a in pending && Covered(lookup.all, priced.items)
      modifies `pending, `queue, `beats, lookup, priced
      ensures Settled() && Covered(lookup.all, priced.items)
      ensures AccountDemoted(a, DemotionOf(old(pending)[a], currentState.nonce(a), currentState.balance(a), currentMaxGas),
                             old(Held()), Held(), old(beats), beats, now)
    {
      hide Sound, CapsBound, Txs, Hashes, Covered, Put, Gapped, Movable, Requeued, DemotionOf, Stored, NoneEmpty, ValidList;
      var nonce := currentState.nonce(a);
      var list, invalids, dropped := CleanPending(a);
      CountRemoved(dropped, Txs(invalids));
      Requeue(a, invalids, now, Txs(invalids));
      assert Txs(invalids) - Txs(invalids) == {};
      PutTwice(old(pending), a, list, list);
      // A gap in front postpones everything. Cap(0) leaves the list empty.
      var gapped := Gapped(list, nonce);
      var rest := list.(items := list.items - gapped.Keys);
      ghost var q, b := queue, beats;
      GapPart(list, nonce);
      CutPending(a, rest, map[], gapped);
      Requeue(a, gapped, now, Txs(gapped));
      assert Txs(gapped) - Txs(gapped) == {};
      PutTwice(old(pending), a, list, rest);
      RequeuedTwice(a, old(queue), q, queue, old(beats), b, beats, invalids, gapped, now);
      StorePending(a, old(pending), rest);
    }

    /** demoteUnexecutables, in an arbitrary order of accounts: again each account gets what its
        own list and the state say. */
    method DemoteUnexecutables(now: nat)
      requires Settled() && Covered(lookup.all, priced.items)
      modifies `pending, `queue, `beats, lookup, priced
      ensures Settled() && Covered(lookup.all, priced.items)
      ensures forall a :: DemotedExactly(a, currentState, currentMaxGas, old(Held()), Held())
      ensures forall h :: h in lookup.all ==> h in old(lookup.all)
    {
      hide Sound, Covered, NoneEmpty, Demoting, DemotionOf, AccountDemoted, DemotedExactly, OneDemoted, ListsOk, Consistent;
      ghost var c := Held();
      Unpack({});
      var todo := pending.Keys;
      StartDemoting(currentState, currentMaxGas, c);
      while todo != {}
        invariant Settled() && Covered(lookup.all, priced.items)
        invariant Demoting(todo, currentState, currentMaxGas, c, Held())
        invariant forall h :: h in lookup.all ==> h in old(lookup.all)
      {
        var a :| a in todo;
        ghost var d, b := Held(), beats;
        StillPending(todo, currentState, currentMaxGas, c, d, a);
        DemoteAccount(a, now);
        NextDemoting(todo, currentState, currentMaxGas, c, d, Held(), b, beats, now, a);
        todo := todo - {a};
      }
      EndDemoting(currentState, currentMaxGas, c, Held());
      forall a ensures DemotedExactly(a, currentState, currentMaxGas, c, Held()) { DemotedSo(a, currentState, currentMaxGas, c, Held()); }
    }

    /** Drops the last pending transaction of an account and lowers its virtual nonce. */
    method DropLast(a: Address)
      requires Settled() && Covered(lookup.all, priced.items) && a in pending && |pending[a].items| >= 2
      modifies `pending, `noncer, lookup, priced
      ensures Settled() && Covered(lookup.all, priced.items)
      ensures var m := old(pending)[a].items;
              && pending == Put(old(pending), a, old(pending)[a].(items := Lowest(m, |m| - 1)))
              && noncer == old(noncer).SetIfLower(a, Flat(m)[|m| - 1].nonce)
    {
      hide Sound, CapsBound, Flat, Txs, Hashes, Covered, Lowest, Highest, Movable;
      Unpack({});
      StrictOf(pending, a, true);
      var m := pending[a].items;
      var list := pending[a].(items := Lowest(m, |m| - 1));
      var caps := Highest(m, |m| - 1);
      CapPart(pending[a], |m| - 1);
      LastOne(m);
      NoTxs(map[]);
      assert list.items - {} == list.items;
      CutPending(a, list, caps, map[]);
      noncer := noncer.SetIfLower(a, Flat(caps)[0].nonce);
      CountRemoved(|caps|, {});
    }

    /** One round over the current offenders: each loses its last transaction. */
    method Round(group: seq<Address>, ghost level: nat, total: int) returns (left: int)
      requires Settled() && Covered(lookup.all, priced.items) && NoRepeats(group) && level >= 2
      requires forall i :: 0 <= i < |group| ==> group[i] in pending && |pending[group[i]].items| == level
      modifies `pending, `noncer, lookup, priced
      ensures Settled() && Covered(lookup.all, priced.items)
      ensures left == total - |group| && Total(pending) == Total(old(pending)) - |group|
      ensures pending.Keys == old(pending).Keys
      ensures forall i :: 0 <= i < |group| ==> Shortened(group[i], level, old(pending), pending, old(noncer), noncer)
      ensures forall a :: a !in group ==> Unshortened(a, old(pending), pending, old(noncer), noncer)
    {
      hide Sound, Covered, NoneEmpty, Shortened, Unshortened, RoundDone, Flat, Lowest, Put, Noncer.SetIfLower, Total;
      left := total;
      ghost var p, n := pending, noncer;
      RoundStart(group, level, p, n);
      for i := 0 to |group|
        invariant Settled() && Covered(lookup.all, priced.items)
        invariant left == total - i && Total(pending) == Total(p) - i
        invariant pending.Keys == p.Keys
        invariant RoundDone(group, i, level, p, pending, n, noncer)
      {
        var a := group[i];
        ghost var q, m := pending, noncer;
        RoundAt(group, i, level, p, q, n, m);
        Same(a, p, q, n, m);
        Unpack({});
        DropLast(a);
        DroppedLast(a, level, p, q, pending, n, m, noncer);
        left := left - 1;
        RoundNext(group, i, level, p, q, pending, n, m, noncer);
      }
      RoundEnd(group, level, p, pending, n, noncer);
    }

    /** Rounds over `group` until the total is within the limit or the group is down to `floor`. */
    method Equalize(group: seq<Address>, floor: nat, ghost level0: nat, total0: int, ghost p0: Lists, ghost n0: Noncer)
      returns (total: int, ghost level: nat)
      requires Settled() && Covered(lookup.all, priced.items) && group != [] && NoRepeats(group)
      requires 1 <= floor <= level0 && total0 == Total(pending)
      requires CutState(p0, pending, locals, level0, n0, noncer) && ListsOk(p0, true)
      requires Ahead(group, p0, locals, floor, level0)
      requires Total(CutTo(p0, locals, level0 + 1)) > config.globalSlots
      modifies `pending, `noncer, lookup, priced
      ensures Settled() && Covered(lookup.all, priced.items)
      ensures total == Total(pending) && floor <= level <= level0
      ensures CutState(p0, pending, locals, level, n0, noncer) && Ahead(group, p0, locals, floor, level)
      ensures total <= config.globalSlots || level == floor
      ensures Total(CutTo(p0, locals, level + 1)) > config.globalSlots
    {
      hide Sound, Covered, NoneEmpty, CutState, Shortened, Unshortened, Total, CutTo, Ahead, ListsOk;
      total, level := total0, level0;
      GroupLength(group, |group| - 1, p0, pending, locals, floor, level, n0, noncer);
      while total > config.globalSlots && |pending[group[|group| - 1]].items| > floor
        invariant Settled() && Covered(lookup.all, priced.items)
        invariant total == Total(pending) && floor <= level <= level0
        invariant group[|group| - 1] in pending && |pending[group[|group| - 1]].items| == level
        invariant CutState(p0, pending, locals, level, n0, noncer) && Ahead(group, p0, locals, floor, level)
        invariant Total(CutTo(p0, locals, level + 1)) > config.globalSlots
        decreases level
      {
        forall i | 0 <= i < |group| ensures group[i] in pending && |pending[group[i]].items| == level {
          GroupLength(group, i, p0, pending, locals, floor, level, n0, noncer);
        }
        ghost var q, m := pending, noncer;
        total := Round(group, level, total);
        RoundCut(group, floor, level, p0, q, pending, locals, n0, m, noncer);
        level := level - 1;
        GroupLength(group, |group| - 1, p0, pending, locals, floor, level, n0, noncer);
      }
    }

    /** Takes the longest remaining list off the priority queue and cuts the earlier offenders down to it. */
    method NextOffender(offenders0: seq<Address>, spammers0: map<Address, nat>, ghost level0: nat, total0: int,
                        ghost p0: Lists, ghost n0: Noncer)
      returns (offenders: seq<Address>, spammers: map<Address, nat>, total: int, ghost level: nat)
      requires Settled() && Covered(lookup.all, priced.items) && spammers0.Keys != {} && ListsOk(p0, true)
      requires total0 == Total(pending) > config.globalSlots && level0 >= config.accountSlots
      requires CutState(p0, pending, locals, level0, n0, noncer)
      requires Total(CutTo(p0, locals, level0 + 1)) > config.globalSlots
      requires Truncating(p0, locals, config.accountSlots, offenders0, spammers0, level0) && Even(p0, offenders0, level0)
      modifies `pending, `noncer, lookup, priced
      ensures Settled() && Covered(lookup.all, priced.items) && |spammers| < |spammers0| && offenders != []
      ensures total == Total(pending) && level >= config.accountSlots
      ensures CutState(p0, pending, locals, level, n0, noncer)
      ensures Total(CutTo(p0, locals, level + 1)) > config.globalSlots
      ensures Truncating(p0, locals, config.accountSlots, offenders, spammers, level)
      ensures total > config.globalSlots ==> Even(p0, offenders, level)
    {
      hide Sound, Covered, NoneEmpty, CutState, Total, CutTo, Ahead, ListsOk, Truncating, Even, Settled;
      var offender := PopMax(spammers0);
      PoppedMax(p0, pending, locals, config.accountSlots, offenders0, spammers0, level0, offender, n0, noncer);
      offenders := offenders0 + [offender];
      spammers := spammers0 - {offender};
      var threshold := |pending[offender].items|;
      if |offenders| > 1 {
        assert offenders[..|offenders| - 1] == offenders0;
        total, level := Equalize(offenders[..|offenders| - 1], threshold, level0, total0, p0, n0);
      } else {
        assert offenders0 == [];
        LowerFreely(p0, pending, locals, level0, threshold, config.globalSlots, n0, noncer);
        total, level := total0, threshold;
      }
      NextTruncating(p0, locals, config.accountSlots, offenders0, spammers0, level0, level, offender, threshold);
    }

    lemma SettledUnpack()
      requires Settled()
      ensures ListsOk(pending, true) && ListsOk(queue, false) && Consistent(Held(), {}) && Keyed(lookup.all)
    {
    }

    /** truncatePending. Spammers come off a priority queue, longest list first, ties in any order. */
    method TruncatePending() returns (ghost cap: nat)
      requires Settled() && Covered(lookup.all, priced.items)
      modifies `pending, `noncer, lookup, priced
      ensures Settled() && Covered(lookup.all, priced.items)
      ensures Total(old(pending)) <= config.globalSlots ==> pending == old(pending) && noncer == old(noncer)
                                                             && lookup.all == old(lookup.all)
      ensures Total(old(pending)) > config.globalSlots ==>
                && FairCut(old(pending), pending, locals, config.accountSlots, config.globalSlots, cap)
                && CutState(old(pending), pending, locals, cap, old(noncer), noncer)
    {
      hide Settled, Covered, CutState, Total, CutTo, Ahead, ListsOk, Truncating, Even, Consistent, Keyed;
      cap := 0;
      var total: int := Count(pending);
      if total <= config.globalSlots {
        return;
      }
      SettledUnpack();
      ghost var p, n := pending, noncer;
      var spammers: map<Address, nat> := map a | a in pending && a !in locals && |pending[a].items| > config.accountSlots :: |pending[a].items|;
      var offenders: seq<Address> := [];
      ghost var level := StartTruncating(p, locals, config.accountSlots, config.globalSlots, n, spammers);
      while total > config.globalSlots && spammers.Keys != {}
        invariant Settled() && Covered(lookup.all, priced.items)
        invariant total == Total(pending) && level >= config.accountSlots
        invariant CutState(p, pending, locals, level, n, noncer)
        invariant Total(CutTo(p, locals, level + 1)) > config.globalSlots
        invariant Truncating(p, locals, config.accountSlots, offenders, spammers, level)
        invariant total > config.globalSlots ==> Even(p, offenders, level)
        decreases |spammers|
      {
        offenders, spammers, total, level := NextOffender(offenders, spammers, level, total, p, n);
      }
      if total > config.globalSlots {
        if |offenders| > 0 {
          AllAhead(p, locals, config.accountSlots, offenders, spammers, level);
          total, level := Equalize(offenders, config.accountSlots, level, total, p, n);
        } else {
          NoSpammers(p, locals, config.accountSlots, spammers, level);
          LowerFreely(p, pending, locals, level, config.accountSlots, config.globalSlots, n, noncer);
          level := config.accountSlots;
        }
      }
      cap := level;
      EndTruncating(p, pending, locals, cap, n, noncer);
    }

    /** removeTx of a transaction that is known to be queued. */
    method RemoveQueuedHash(tx: Tx, now: nat)
      requires Settled() && Covered(lookup.all, priced.items) && Holds(Items(queue, tx.sender), tx)
      modifies `pending, `queue, `beats, `noncer, lookup, priced
      ensures Settled() && Covered(lookup.all, priced.items) && pending == old(pending) && noncer == old(noncer)
      ensures queue - {tx.sender} == old(queue) - {tx.sender}
      ensures Items(queue, tx.sender) == Items(old(queue), tx.sender) - {tx.nonce}
      ensures lookup.all == old(lookup.all) - {tx.Hash()} && beats - {tx.sender} == old(beats) - {tx.sender}
    {
      hide Sound, Covered, NoneEmpty, Removed;
      Unpack({});
      ghost var c, n, b := Held(), noncer, beats;
      QueuedLive(c, tx);
      RemoveTx(tx.Hash(), true, now);
      RemovedQueued(tx, c, Held(), n, noncer, b, beats, now);
    }

    lemma HomedQueue(a: Address, m: TxMap)
      requires Settled() && a in queue && m == queue[a].items
      ensures Homed(a, m) && WellKeyed(m) && m.Keys != {}
    {
      assert Acct(Held(), {}, a);
    }

    lemma NothingQueued(a: Address, m: TxMap)
      requires Settled() && Items(queue, a) == Highest(m, |m|)
      ensures a !in queue && queue == queue - {a}
    {
    }

    /** Drops the whole queued list of `a`, lowest nonce first. */
    method DropQueue(a: Address, now: nat)
      requires Settled() && Covered(lookup.all, priced.items) && a in queue
      modifies `pending, `queue, `beats, `noncer, lookup, priced
      ensures Settled() && Covered(lookup.all, priced.items) && pending == old(pending) && noncer == old(noncer)
      ensures queue == old(queue) - {a} && beats - {a} == old(beats) - {a}
      ensures forall h :: h in lookup.all ==> h in old(lookup.all) && lookup.all[h] == old(lookup.all)[h]
    {
      hide Sound, Covered, NoneEmpty, Flat, Highest, Homed;
      var m := queue[a].items;
      HomedQueue(a, m);
      var txs := Flat(m);
      ghost var q := queue;
      NoneBelow(m);
      for i := 0 to |txs|
        invariant Settled() && Covered(lookup.all, priced.items) && pending == old(pending) && noncer == old(noncer)
        invariant queue - {a} == q - {a} && Items(queue, a) == Highest(m, i) && beats - {a} == old(beats) - {a}
        invariant forall h :: h in lookup.all ==> h in old(lookup.all) && lookup.all[h] == old(lookup.all)[h]
      {
        HighestStep(m, i);
        HomedTx(a, m, txs[i]) by { FlatIsFlat(m); }
        RemoveQueuedHash(txs[i], now);
      }
      NothingQueued(a, m);
    }

    /** Drops the `drop` highest nonces of the queued list of `a`. */
    method TrimQueue(a: Address, drop: nat, now: nat) returns (left: nat)
      requires Settled() && Covered(lookup.all, priced.items) && a in queue && drop < |queue[a].items|
      modifies `pending, `queue, `beats, `noncer, lookup, priced
      ensures Settled() && Covered(lookup.all, priced.items) && pending == old(pending) && noncer == old(noncer)
      ensures queue - {a} == old(queue) - {a} && left == 0
      ensures Items(queue, a) == Lowest(old(queue)[a].items, |old(queue)[a].items| - drop)
      ensures forall h :: h in lookup.all ==> h in old(lookup.all) && lookup.all[h] == old(lookup.all)[h]
    {
      hide Sound, Covered, NoneEmpty, Flat, Lowest, Homed;
      var m := queue[a].items;
      HomedQueue(a, m);
      var txs := Flat(m);
      ghost var q := queue;
      assert Lowest(m, |m|) == m by { WholeLowest(m); }
      left := drop;
      var i := |txs|;
      while i > 0 && left > 0
        invariant 0 <= i <= |txs| && i == |m| - drop + left
        invariant Settled() && Covered(lookup.all, priced.items) && pending == old(pending) && noncer == old(noncer)
        invariant queue - {a} == q - {a} && Items(queue, a) == Lowest(m, i)
        invariant forall h :: h in lookup.all ==> h in old(lookup.all) && lookup.all[h] == old(lookup.all)[h]
      {
        i := i - 1;
        LowestStep(m, i + 1);
        HomedTx(a, m, txs[i]) by { FlatIsFlat(m); }
        RemoveQueuedHash(txs[i], now);
        left := left - 1;
      }
    }

    method TruncateOne(drop0: nat, rest0: map<Address, nat>, ghost q: Lists, ghost ages: map<Address, nat>, ghost all: int, now: nat)
      returns (drop: nat, rest: map<Address, nat>)
      requires Settled() && Covered(lookup.all, priced.items) && NoneEmpty(q) && rest0.Keys != {} && drop0 > 0
      requires Trimming(q, queue, locals, ages, rest0, all, drop0)
      modifies `pending, `queue, `beats, `noncer, lookup, priced
      ensures Settled() && Covered(lookup.all, priced.items) && pending == old(pending) && noncer == old(noncer)
      ensures Trimming(q, queue, locals, ages, rest, all, drop) && |rest| < |rest0|
      ensures forall h :: h in lookup.all ==> h in old(lookup.all) && lookup.all[h] == old(lookup.all)[h]
    {
      hide Sound, Covered, NoneEmpty, Trimming, Lowest;
      var a := PopMax(rest0);
      rest := rest0 - {a};
      TrimmingAt(q, queue, locals, ages, rest0, all, drop0, a);
      HomedQueue(a, queue[a].items);
      var size := |queue[a].items|;
      if size <= drop0 {
        WholeDropped(queue[a].items);
        DropQueue(a, now);
        assert SameBut(old(queue), queue, a);
        drop := drop0 - size;
      } else {
        drop := TrimQueue(a, drop0, now);
      }
      NextTrimming(q, old(queue), queue, locals, ages, rest0, all, drop0, a);
    }

    lemma BeatsKnown()
      requires Settled()
      ensures queue.Keys <= beats.Keys
    {
    }

    /** truncateQueue. Sorting by heartbeat and taking accounts off the end is choosing an account
        with the latest heartbeat each time. */
    method TruncateQueue(now: nat)
      requires Settled() && Covered(lookup.all, priced.items)
      modifies `pending, `queue, `beats, `noncer, lookup, priced
      ensures Settled() && Covered(lookup.all, priced.items) && pending == old(pending) && noncer == old(noncer)
      ensures Total(old(queue)) <= config.globalQueue ==> queue == old(queue)
      ensures Total(old(queue)) > config.globalQueue ==>
                QueueTrimmed(old(queue), queue, locals, old(beats), config.globalQueue)
      ensures forall h :: h in lookup.all ==> h in old(lookup.all) && lookup.all[h] == old(lookup.all)[h]
    {
      hide Sound, Covered, NoneEmpty, Total, Trimming, QueueTrimmed, Lowest;
      var queued := Count(queue);
      if queued <= config.globalQueue {
        return;
      }
      ghost var q := queue;
      BeatsKnown();
      var ages: map<Address, nat> := map a | a in queue && a !in locals :: beats[a];
      var rest := ages;
      var drop := queued - config.globalQueue;
      StartTrimming(q, locals, ages, drop);
      while drop > 0 && rest.Keys != {}
        invariant Settled() && Covered(lookup.all, priced.items) && pending == old(pending) && noncer == old(noncer)
        invariant drop >= 0 && Trimming(q, queue, locals, ages, rest, queued - config.globalQueue, drop)
        invariant forall h :: h in lookup.all ==> h in old(lookup.all) && lookup.all[h] == old(lookup.all)[h]
        decreases |rest|
      {
        drop, rest := TruncateOne(drop, rest, q, ages, queued - config.globalQueue, now);
      }
      EndTrimming(q, queue, locals, ages, rest, old(beats), config.globalQueue, drop);
    }

    /** The eviction tick of the pool's loop: remote queues without a recent heartbeat go entirely. */
    method Evict(now: nat)
      requires Settled() && Covered(lookup.all, priced.items)
      modifies `pending, `queue, `beats, `noncer, lookup, priced
      ensures Settled() && Covered(lookup.all, priced.items) && pending == old(pending) && noncer == old(noncer)
      ensures old(queue).Keys <= old(beats).Keys
      ensures queue == map a | a in old(queue) && (a in locals || now - old(beats)[a] <= config.lifetime) :: old(queue)[a]
      ensures forall h :: h in lookup.all ==> h in old(lookup.all) && lookup.all[h] == old(lookup.all)[h]
    {
      hide Sound, Covered, NoneEmpty, Evicting;
      BeatsKnown();
      ghost var q, b := queue, beats;
      var todo := queue.Keys;
      EvictStart(q, b, locals, config.lifetime, now);
      while todo != {}
        invariant Settled() && Covered(lookup.all, priced.items) && pending == old(pending) && noncer == old(noncer)
        invariant Evicting(q, b, locals, config.lifetime, now, todo, queue, beats)
        invariant forall h :: h in lookup.all ==> h in old(lookup.all) && lookup.all[h] == old(lookup.all)[h]
        decreases |todo|
      {
        var a :| a in todo;
        EvictOne(q, b, locals, config.lifetime, now, todo, queue, beats, a);
        if a !in locals && now - beats[a] > config.lifetime {
          ghost var q1, b1 := queue, beats;
          DropQueue(a, now);
          EvictDropped(q, b, locals, config.lifetime, now, todo, q1, b1, beats, a);
        }
        todo := todo - {a};
      }
      EvictEnd(q, b, locals, config.lifetime, now, queue, beats);
    }

    /** removeTx of everything in `drop`, which has already left the price heap. */
    method RemoveDropped(drop: seq<Tx>, now: nat)
      requires Settled()
      modifies `pending, `queue, `beats, `noncer, lookup, priced
      ensures Settled() && priced.items == old(priced.items)
      ensures lookup.all == old(lookup.all) - HashesOf(drop)
      ensures forall a :: Sifted(a, HashesOf(drop), old(Held()), Held(), old(noncer), noncer)
      ensures drop == [] ==> pending == old(pending) && queue == old(queue) && noncer == old(noncer) && beats == old(beats)
    {
      hide Sound, NoneEmpty, Sifted, HashesOf, Removed, Consistent;
      Unpack({});
      ghost var c, n := Held(), noncer;
      assert HashesOf([]) == {} by { NoHashesOf(); }
      forall a ensures Sifted(a, {}, c, c, n, n) { NoneGone(a, c, n); }
      for i := 0 to |drop|
        invariant Settled() && priced.items == old(priced.items)
        invariant lookup.all == c.all - HashesOf(drop[..i])
        invariant forall a :: Sifted(a, HashesOf(drop[..i]), c, Held(), n, noncer)
        invariant i == 0 ==> pending == old(pending) && queue == old(queue) && noncer == old(noncer) && beats == old(beats)
      {
        ghost var gone, d, m, b := HashesOf(drop[..i]), Held(), noncer, beats;
        MoreHashes(drop, i, c.all);
        Unpack({});
        RemoveTx(drop[i].Hash(), false, now);
        SiftedMore(gone, drop[i], c, d, Held(), n, m, noncer, b, beats, now);
      }
      assert drop[..|drop|] == drop;
    }

    lemma AccountInOrder(a: Address)
      requires Valid()
      ensures Acct(Held(), {}, a) && Keyed(lookup.all) && Consistent(Held(), {})
    {
    }

    /** SetGasPrice. Exactly the remote transactions below the new threshold leave the pool. */
    method SetGasPrice(price: nat, now: nat)
      requires Valid()
      modifies `gasPrice, `pending, `queue, `beats, `noncer, lookup, priced
      ensures Valid() && gasPrice == price
      ensures lookup.all == WorthKeeping(old(lookup.all), locals, price)
      ensures forall h :: h in lookup.all <==> h in old(lookup.all) && (old(lookup.all)[h].sender in locals || old(lookup.all)[h].gasPrice >= price)
      ensures forall a :: Sifted(a, old(lookup.all).Keys - lookup.all.Keys, old(Held()), Held(), old(noncer), noncer)
    {
      hide Covered, NoneEmpty, PriceCapped, Consistent, ListsOk, Sifted;
      AccountInOrder(0);
      gasPrice := price;
      ghost var all, items := lookup.all, priced.items;
      var drop, dead := priced.Cap(price, locals);
      assert Sound({});
      DroppedCheap(all, locals, price, items, priced.items, drop, dead);
      ghost var c, n := Held(), noncer;
      RemoveDropped(drop, now);
      assert forall a :: Sifted(a, HashesOf(drop), c, Held(), n, noncer);
      assert c == old(Held()) && n == old(noncer);
      assert all.Keys - lookup.all.Keys == HashesOf(drop);
      KeepsLocal(old(Held()), lookup.all, locals, price);
    }

    ghost function CurrentRules(): Rules reads `gasPrice, `currentState, `currentMaxGas, `istanbul {
      Rules(config, gasPrice, currentState, currentMaxGas, istanbul)
    }

    /** validateTx: no error, or the one of the first check that fails. */
    method Validate(tx: Tx, local: bool) returns (err: Option<PoolError>)
      ensures err.None? <==> Acceptable(CurrentRules(), locals, tx, local)
      ensures err.None? <==>
                && tx.size <= 4 * 32768 && tx.value >= 0 && tx.gas <= currentMaxGas && tx.signed
                && (local || tx.sender in locals || tx.gasPrice >= gasPrice)
                && tx.nonce >= currentState.nonce(tx.sender)
                && tx.value + tx.gasPrice * tx.gas <= currentState.balance(tx.sender)
                && Gas.IntrinsicCost(tx.data, tx.creation, true, istanbul) <= tx.gas
      ensures err.Some? ==> Fault(CurrentRules(), locals, tx, local, err.value)
    {
      hide Gas.IntrinsicCost, Tx.Cost;
      ghost var r := CurrentRules();
      AcceptableExactly(r, locals, tx, local);
      if tx.size > TX_MAX_SIZE {
        FaultAt(r, locals, tx, local, 0);
        return Some(OversizedData);
      }
      if tx.value < 0 {
        FaultAt(r, locals, tx, local, 1);
        return Some(NegativeValue);
      }
      if currentMaxGas < tx.gas {
        FaultAt(r, locals, tx, local, 2);
        return Some(GasLimit);
      }
      if !tx.signed {
        FaultAt(r, locals, tx, local, 3);
        return Some(InvalidSender);
      }
      if !(local || tx.sender in locals) && tx.gasPrice < gasPrice {
        FaultAt(r, locals, tx, local, 4);
        return Some(Underpriced);
      }
      if currentState.nonce(tx.sender) > tx.nonce {
        FaultAt(r, locals, tx, local, 5);
        return Some(NonceTooLow);
      }
      if currentState.balance(tx.sender) < tx.Cost() {
        FaultAt(r, locals, tx, local, 6);
        return Some(InsufficientFunds);
      }
      var intrGas := Gas.IntrinsicGas(tx.data, tx.creation, true, istanbul);
      if intrGas.None? {
        FaultAt(r, locals, tx, local, 7);
        return Some(GasUintOverflow);
      }
      if tx.gas < intrGas.value {
        FaultAt(r, locals, tx, local, 8);
        return Some(IntrinsicGas);
      }
      return None;
    }

    /** Takes the remote transactions that rank worst off the price heap. */
    method DropWorst(slots: nat) returns (drop: seq<Tx>)
      requires Settled() && Covered(lookup.all, priced.items)
      modifies priced
      ensures Settled() && Covered(lookup.all - HashesOf(drop), priced.items)
      ensures Evicted(lookup.all, locals, slots, old(priced.items), drop)
      ensures CheapestGone(lookup.all, locals, drop)
    {
      hide Heaps.IsHeap, Covered, NoneEmpty, Discarded, Consistent, ListsOk, SlotSum, Evicted, HashesOf, SlotsWanted, CheapestGone;
      ghost var items := priced.items;
      ghost var dead;
      drop, dead := priced.Discard(slots, locals);
      DroppedWorst(lookup.all, locals, slots, items, priced.items, drop, dead);
      KeyedHeld();
      EvictsCheapest(lookup.all, locals, slots, items, drop);
    }

    lemma SlotsRight()
      requires Settled()
      ensures lookup.slots == SlotSum(lookup.all)
    {
    }

    /** Makes room in a full pool by dropping the remote transactions that rank worst. */
    method MakeRoom(tx: Tx, now: nat) returns (ghost drop: seq<Tx>)
      requires Valid() && Full(CurrentRules(), lookup.all)
      modifies `pending, `queue, `beats, `noncer, lookup, priced
      ensures Valid() && lookup.all == old(lookup.all) - HashesOf(drop)
      ensures var slots := SlotSum(old(lookup.all)) - Capacity(config) + NumSlots(tx);
              slots >= 0 && Evicted(old(lookup.all), locals, slots, old(priced.items), drop)
      ensures CheapestGone(old(lookup.all), locals, drop)
      ensures forall a :: Sifted(a, HashesOf(drop), old(Held()), Held(), old(noncer), noncer)
      ensures drop == [] ==> pending == old(pending) && queue == old(queue) && noncer == old(noncer) && beats == old(beats)
    {
      hide Settled, Covered, AtLeastPriced, SlotSum, Evicted, Sifted, NumSlots, HashesOf, Keyed, CheapestGone;
      ghost var c, n, all := Held(), noncer, lookup.all;
      SlotsCount(all);
      SlotsRight();
      var out := DropWorst(lookup.slots - Capacity(config) + NumSlots(tx));
      drop := out;
      assert Held() == c;
      RemoveDropped(out, now);
      StillPriced(all, lookup.all, locals, gasPrice);
    }

    lemma HeapCovers()
      requires Valid()
      ensures Covered(lookup.all, priced.items)
    {
    }

    /** Replaces the pending transaction with the nonce of `tx`, if `tx` outbids it. */
    method ReplacePending(tx: Tx, now: nat) returns (ok: bool)
      requires Valid() && tx.signed && tx.nonce in Items(pending, tx.sender) && !Live(lookup.all, tx)
      modifies `pending, `beats, lookup, priced
      ensures Valid()
      ensures var prev := Items(old(pending), tx.sender)[tx.nonce];
              && prev.sender == tx.sender && prev.nonce == tx.nonce
              && ok == Outbids(tx, prev, config.priceBump)
              && if ok then
                   && pending == old(pending)[tx.sender := Added(old(pending)[tx.sender], tx)]
                   && lookup.all == Relisted(old(lookup.all), Some(prev), tx)
                   && beats == old(beats)[tx.sender := now]
                 else pending == old(pending) && lookup.all == old(lookup.all) && beats == old(beats)
    {
      hide Heaps.IsHeap, SlotSum, Consistent, AtLeastPriced, Covered, ListsOk, Added, ValidList;
      ghost var c := Held();
      PendingTx(c, tx);
      var a := tx.sender;
      var list := pending[a];
      ok := Accepts(list, tx, config.priceBump);
      if !ok {
        return;
      }
      var prev := At(list, tx.nonce);
      AddedOk(pending, tx, true);
      JoinPending(c, {}, tx, Added(list, tx));
      pending := pending[a := Added(list, tx)];
      Relist(prev, tx);
      beats := beats[a := now];
      assert {} - {tx} == {};
      Repriced(c.all, lookup.all, locals, gasPrice, prev, tx);
    }

    /** Whether a remote `tx` is no dearer than anything in the pool. */
    method IsUnderpriced(tx: Tx) returns (yes: bool)
      requires Valid()
      modifies priced
      ensures Valid() && yes == NoDearer(lookup.all, locals, tx)
      ensures multiset(priced.items) <= multiset(old(priced.items))
    {
      hide Heaps.IsHeap, SlotSum, ListsOk, Consistent, NoneEmpty, AtLeastPriced;
      ghost var dead;
      yes, dead := priced.Underpriced(tx, locals);
    }

    /** Queues a new transaction; a local one makes its sender local. */
    method AddQueued(tx: Tx, local: bool, now: nat) returns (replaced: bool, err: Option<PoolError>)
      requires Valid() && tx.signed && tx.nonce !in Items(pending, tx.sender) && !Live(lookup.all, tx)
      requires local || tx.sender in locals || tx.gasPrice >= gasPrice
      modifies `queue, `beats, `locals, lookup, priced
      ensures Valid()
      ensures var prev := At(ListOf(old(queue), tx.sender, false), tx.nonce);
              && (err.None? <==> (prev.Some? ==> Outbids(tx, prev.value, config.priceBump)))
              && (prev.Some? ==> prev.value.sender == tx.sender && prev.value.nonce == tx.nonce)
              && if err.None? then
                   && replaced == prev.Some? && queue == old(queue)[tx.sender := Added(ListOf(old(queue), tx.sender, false), tx)]
                   && lookup.all == Relisted(old(lookup.all), prev, tx)
                   && locals == old(locals) + (if local then {tx.sender} else {})
                 else
                   && err == Some(ReplaceUnderpriced) && !replaced && queue == old(queue) && beats == old(beats)
                   && lookup.all == old(lookup.all) && locals == old(locals)
    {
      hide Sound, Covered, AtLeastPriced, CapsBound, Outbids, NoneEmpty, Consistent, ListsOk;
      Unpack({});
      QueuedTx(Held(), tx);
      MoreNonEmpty(queue, tx, Added(ListOf(queue, tx.sender, false), tx));
      replaced, err := EnqueueTx(tx, now, {});
      if err.None? {
        if local {
          locals := locals + {tx.sender};
        }
        assert {} - {tx} == {};
        Enlisted(old(lookup.all), lookup.all, old(locals), locals, gasPrice, At(ListOf(old(queue), tx.sender, false), tx.nonce), tx);
      }
    }

    /** Puts a transaction that passed all checks into the list it belongs to, unless its nonce is
        held by one that it does not outbid. */
    method Insert(tx: Tx, local: bool, now: nat) returns (replaced: bool, err: Option<PoolError>)
      requires Valid() && tx.signed && !Live(lookup.all, tx)
      requires local || tx.sender in locals || tx.gasPrice >= gasPrice
      modifies `pending, `queue, `beats, `locals, lookup, priced
      ensures Valid()
      ensures TakenIn(tx, local, err, old(Held()), Held(), old(locals), locals)
      ensures err == if Outbidden(old(Held()), tx, config.priceBump) then None else Some(ReplaceUnderpriced)
      ensures replaced == (err.None? && Holder(old(Held()), tx).Some?)
    {
      hide Sound, Covered, NoneEmpty, AtLeastPriced, CapsBound, Outbids, Relisted, Consistent, ListsOk, Added;
      if tx.sender in pending && tx.nonce in pending[tx.sender].items {
        replaced := ReplacePending(tx, now);
        err := if replaced then None else Some(ReplaceUnderpriced);
      } else {
        replaced, err := AddQueued(tx, local, now);
      }
    }

    /** A full pool makes room for a transaction it has admitted. */
    method MakeRoomFor(tx: Tx, local: bool, now: nat) returns (ghost drop: seq<Tx>)
      requires Valid() && Full(CurrentRules(), lookup.all) && Admitted(CurrentRules(), State(), tx, local)
      modifies `pending, `queue, `beats, `noncer, lookup, priced
      ensures Valid() && RoomFor(CurrentRules(), old(State()), tx, local, old(priced.items), drop, Held(), noncer)
    {
      hide Valid, Covered, Evicted, Sifted, HashesOf, SlotSum, NumSlots, Admitted, Full, RoomFor;
      ghost var s, heap := State(), priced.items;
      HeapCovers();
      drop := MakeRoom(tx, now);
      NoHashesOf();
      assert s.content.all - {} == s.content.all;
      RoomMadeFor(CurrentRules(), s, tx, local, SlotSum(s.content.all) - Capacity(config) + NumSlots(tx), heap, drop, Held(), noncer);
    }

    /** A full pool drops something for a new transaction that passes all checks, unless that is
        underpriced. */
    method Admit(tx: Tx, local: bool, now: nat) returns (ok: bool, ghost heap: seq<Tx>, ghost drop: seq<Tx>)
      requires Valid() && !Live(lookup.all, tx) && Acceptable(CurrentRules(), locals, tx, local)
      modifies `pending, `queue, `beats, `noncer, lookup, priced
      ensures Valid() && ok == Admitted(CurrentRules(), old(State()), tx, local)
      ensures ok ==> RoomFor(CurrentRules(), old(State()), tx, local, heap, drop, Held(), noncer)
      ensures !ok ==> State() == old(State())
      ensures multiset(heap) <= multiset(old(priced.items))
    {
      hide Valid, Acceptable, NoDearer, RoomFor;
      ghost var s := State();
      heap, drop := [], [];
      if |lookup.all| < Capacity(config) {
        NoRoomNeeded(CurrentRules(), s, tx, local);
        return true, [], [];
      }
      if !local {
        var under := IsUnderpriced(tx);
        if under {
          return false, [], [];
        }
      }
      assert State() == s;
      heap := priced.items;
      drop := MakeRoomFor(tx, local, now);
      ok := true;
    }

    /** The body of add. */
    method TryAdd(tx: Tx, local: bool, now: nat)
      returns (replaced: bool, err: Option<PoolError>, ghost heap: seq<Tx>, ghost drop: seq<Tx>, ghost room: Content)
      requires Valid()
      modifies `pending, `queue, `beats, `noncer, `locals, lookup, priced
      ensures Valid()
      ensures HandledBy(CurrentRules(), tx, local, err, replaced, old(State()), State(), heap, drop, room)
      ensures multiset(heap) <= multiset(old(priced.items))
    {
      hide Settled, Covered, AtLeastPriced, RoomFor, TakenIn, Acceptable, Fault, Outbidden, NoDearer, Full;
      replaced, heap, drop, room := false, [], [], Held();
      ghost var r, s := CurrentRules(), State();
      if Live(lookup.all, tx) {
        err := Some(AlreadyKnown);
        Refused(r, tx, local, AlreadyKnown, s);
        return;
      }
      err := Validate(tx, local);
      if err.Some? {
        Refused(r, tx, local, err.value, s);
        return;
      }
      AcceptedTx(r, locals, tx, local);
      var ok;
      ok, heap, drop := Admit(tx, local, now);
      if !ok {
        err := Some(Underpriced);
        heap, drop := [], [];
        Refused(r, tx, local, Underpriced, s);
        return;
      }
      room := Held();
      assert !Live(lookup.all, tx) by { StillNew(r, s, tx, local, heap, drop, room, noncer); }
      replaced, err := Insert(tx, local, now);
    }

    /** add. A full pool drops something for a transaction that passes all checks, even if that is
        then refused because of the one with its nonce. */
    method Add(tx: Tx, local: bool, now: nat)
      returns (replaced: bool, err: Option<PoolError>, ghost heap: seq<Tx>, ghost drop: seq<Tx>, ghost room: Content)
      requires Valid()
      modifies `pending, `queue, `beats, `noncer, `locals, lookup, priced
      ensures Valid()
      ensures HandledBy(CurrentRules(), tx, local, err, replaced, old(State()), State(), heap, drop, room)
      ensures multiset(heap) <= multiset(old(priced.items))
      ensures var prev := Holder(old(Held()), tx);
              err.None? <==>
                && tx.Hash() !in old(lookup.all)
                && tx.size <= 4 * 32768 && tx.value >= 0 && tx.gas <= currentMaxGas && tx.signed
                && (local || tx.sender in old(locals) || tx.gasPrice >= gasPrice)
                && tx.nonce >= currentState.nonce(tx.sender)
                && tx.value + tx.gasPrice * tx.gas <= currentState.balance(tx.sender)
                && Gas.IntrinsicCost(tx.data, tx.creation, true, istanbul) <= tx.gas
                && (|| local || tx.sender in old(locals) || |old(lookup.all)| < config.globalSlots + config.globalQueue
                    || exists h :: h in old(lookup.all) && old(lookup.all)[h].gasPrice < tx.gasPrice)
                && (prev.Some? && prev.value !in drop ==>
                      prev.value.gasPrice < tx.gasPrice && (100 + config.priceBump) * prev.value.gasPrice < 100 * (tx.gasPrice + 1))
      ensures forall d :: d in drop ==> Live(old(lookup.all), d) && d.sender !in old(locals)
      ensures forall d, k :: d in drop && Live(old(lookup.all), k) && !Local(old(locals), k) && k !in drop ==>
                d.gasPrice < k.gasPrice || (d.gasPrice == k.gasPrice && d.nonce >= k.nonce)
      ensures drop != [] ==>
                && |old(lookup.all)| >= config.globalSlots + config.globalQueue
                && TotalSlots(drop[..|drop| - 1]) < SlotSum(old(lookup.all)) - (config.globalSlots + config.globalQueue) + NumSlots(tx)
    {
      hide Valid, RoomFor, Decided, TakenIn, Outbids, Gas.IntrinsicCost, SlotSum, NumSlots, TotalSlots, Consistent, Keyed, Acct, Holder;
      ghost var s, r := State(), CurrentRules();
      AccountInOrder(tx.sender);
      replaced, err, heap, drop, room := TryAdd(tx, local, now);
      TakenExactly(r, tx, local, err, replaced, s, State(), heap, drop, room);
      DroppedExactly(r, s, tx, local, heap, drop, room, noncer);
    }

    /** addTxsLocked. Accounts that got something new into their queue are dirty. */
    method AddTxsLocked(txs: seq<Tx>, local: bool, now: nat)
      returns (errs: seq<Option<PoolError>>, dirty: set<Address>, ghost replaced: seq<bool>, ghost trace: seq<Holding>)
      requires Valid()
      modifies `pending, `queue, `beats, `noncer, `locals, lookup, priced
      ensures Valid()
      ensures Batched(CurrentRules(), txs, local, errs, replaced, trace)
      ensures trace[0] == old(State()) && trace[|txs|] == State()
      ensures dirty == Newcomers(txs, errs, replaced)
      ensures !local ==> locals == old(locals)
      ensures old(locals) <= locals
    {
      hide Sound, Covered, NoneEmpty, AtLeastPriced, RoomFor, Decided, TakenIn, Handled, Newcomers;
      errs, dirty, replaced, trace := [], {}, [], [State()];
      NoNewcomers();
      for i := 0 to |txs|
        invariant Valid() && |errs| == |replaced| == i
        invariant Batched(CurrentRules(), txs[..i], local, errs, replaced, trace)
        invariant trace[0] == old(State()) && trace[i] == State()
        invariant dirty == Newcomers(txs[..i], errs, replaced)
        invariant !local ==> locals == old(locals)
        invariant old(locals) <= locals
      {
        ghost var s := State();
        var r, err, heap, drop, room := Add(txs[i], local, now);
        TakenLocals(txs[i], local, err, room, Held(), s.locals, locals);
        HandledSo(CurrentRules(), txs[i], local, err, r, s, State(), heap, drop, room);
        BatchMore(CurrentRules(), txs, i, local, errs, replaced, trace, err, r, State());
        NewcomersMore(txs, i, errs, replaced, err, r);
        errs, replaced, trace := errs + [err], replaced + [r], trace + [State()];
        if err.None? && !r {
          dirty := dirty + {txs[i].sender};
        }
      }
      assert txs[..|txs|] == txs;
    }

    /** reset. The pool moves on to the new head unless its state is missing, or the old branch or the
        new one cannot be followed down to where they meet; then nothing changes. Transactions of the
        abandoned branch that the new one does not have are added again, under the old fork rules. */
    method Reset(r: ResetRequest, now: nat) returns (moved: bool, reinject: seq<Tx>)
      requires Valid() && r.newHead in r.stored
      modifies this, lookup, priced
      ensures Valid() && gasPrice == old(gasPrice) && locals == old(locals)
      ensures moved <==> Reachable(r)
      ensures moved <==>
                && r.state.Some?
                && (r.oldHead.Some? && r.newHead.parent != r.oldHead.value.Hash()
                    && r.oldHead.value.number <= r.newHead.number + 64 && r.newHead.number <= r.oldHead.value.number + 64 ==>
                      r.oldHead.value in r.stored && exists i, j :: Meet(r.stored, r.oldHead.value, r.newHead, i, j))
      ensures moved ==>
                if r.oldHead.Some? && r.newHead.parent != r.oldHead.value.Hash()
                   && r.oldHead.value.number <= r.newHead.number + 64 && r.newHead.number <= r.oldHead.value.number + 64
                then exists i, j :: LostTxs(r.stored, r.oldHead.value, r.newHead, reinject, i, j)
                else reinject == []
      ensures moved ==> currentState == r.state.value && currentMaxGas == r.gasLimit && istanbul == r.next
      ensures moved ==> ToReinject(r, reinject)
                        && Reinjected(Rules(config, gasPrice, r.state.value, r.gasLimit, old(istanbul)), reinject,
                                      Holding(old(Held()), Noncer(r.state.value.nonce, map[]), locals), State())
      ensures !moved ==> reinject == [] && unchanged(this) && lookup.all == old(lookup.all)
    {
      hide Valid, ForkPoint, Meet, Reinjected, Batched, Abandoned, Newcomers, LostTxs;
      ReachableExactly(r);
      moved, reinject := false, [];
      if Shallow(r.oldHead, r.newHead) {
        var ok, txs, i, j := Reinjection(r.stored, r.oldHead.value, r.newHead);
        if !ok {
          return;
        }
        reinject := txs;
        AbandonedSo(r.stored, r.oldHead.value, r.newHead, reinject, i, j);
      }
      if r.state.None? {
        reinject := [];
        return;
      }
      currentState, noncer, currentMaxGas := r.state.value, Noncer(r.state.value.nonce, map[]), r.gasLimit;
      ghost var s := State();
      var errs, dirty, replaced, trace := AddTxsLocked(reinject, false, now);
      ReinjectedSo(CurrentRules(), reinject, s, State(), errs, replaced, trace);
      istanbul := r.next;
      moved := true;
      ReinjectExactly(r, reinject);
    }

    /** Two heads on one parent: what the old one has and the new one has not goes through add again. */
    method SiblingReset(r: ResetRequest, t: Tx, now: nat) returns (moved: bool, reinject: seq<Tx>)
      requires Valid() && r.oldHead.Some? && r.state.Some? && r.oldHead.value != r.newHead
      requires r.newHead in r.stored && r.oldHead.value in r.stored
      requires r.newHead.parent == r.oldHead.value.parent && r.newHead.parent.Id? && r.newHead.parent.block in r.stored
      requires r.newHead.number == r.oldHead.value.number == r.newHead.parent.block.number + 1
      requires t in r.oldHead.value.txs && t !in r.newHead.txs
      modifies this, lookup, priced
      ensures Valid() && moved && t in reinject
    {
      hide Valid;
      SiblingsMeet(r.stored, r.oldHead.value, r.newHead);
      moved, reinject := Reset(r, now);
      ghost var i, j :| LostTxs(r.stored, r.oldHead.value, r.newHead, reinject, i, j);
      SiblingFork(r.stored, r.oldHead.value, r.newHead, i, j);
    }

    /** Both limits hold, as far as they may be enforced. */
    ghost predicate Limited() reads `pending, `queue, `locals {
      && (Total(pending) <= config.globalSlots
          || forall a :: a in pending && a !in locals ==> |pending[a].items| <= config.accountSlots)
      && (Total(queue) <= config.globalQueue || forall a :: a in queue ==> a in locals)
    }

    /** Both truncations, with `mid` in between. */
    method Truncate(now: nat) returns (ghost mid: Holding)
      requires Valid()
      modifies `pending, `queue, `beats, `noncer, lookup, priced
      ensures Valid() && Limited()
      ensures PendingLimited(config, old(State()), mid) && QueueLimited(config, mid, State())
    {
      hide Sound, Covered, NoneEmpty, AtLeastPriced, FairCut, CutState, QueueTrimmed, Total, CutTo, Consistent, ListsOk, Keyed,
           PendingLimited, QueueLimited;
      Unpack({});
      ghost var c, n := Held(), noncer;
      var cap := TruncatePending();
      mid := State();
      PendingLimitedSo(config, Holding(c, n, locals), mid, cap);
      Unpack({});
      assert pending == c.pending || pending == CutTo(c.pending, locals, cap) by { CutIs(c.pending, pending, locals, cap, old(noncer), noncer); }
      OnlyCut(c, Held(), locals, cap);
      KeysPriced(c.all, lookup.all, locals, gasPrice);
      if Total(c.pending) > config.globalSlots {
        FairLimited(c.pending, pending, locals, config.accountSlots, config.globalSlots, cap);
      }
      ghost var q, all, b := queue, lookup.all, beats;
      TruncateQueue(now);
      StillPriced(all, lookup.all, locals, gasPrice);
      if Total(q) > config.globalQueue {
        TrimLimited(q, queue, locals, b, config.globalQueue);
      }
      QueueLimitedSo(config, mid, State(), b);
    }

    /** Promotion of some accounts and, after a reset, demotion of all, with `mid` in between. */
    method PromoteAndDemote(accounts: set<Address>, demote: bool, now: nat) returns (ghost mid: Holding)
      requires Valid()
      modifies `pending, `queue, `beats, `noncer, lookup, priced
      ensures Valid()
      ensures AllPromoted(accounts, currentState, currentMaxGas, config.accountQueue, old(State()), mid)
      ensures if demote then AllDemoted(currentState, currentMaxGas, mid, State()) && AllAnchored(pending, currentState, currentMaxGas)
              else mid == State()
    {
      hide Sound, Covered, NoneEmpty, AtLeastPriced, Consistent, ListsOk, Readies, PromotedExactly, SameAccount, DemotedExactly, PromotionOf,
           Anchored, AllAnchored;
      ghost var s := State();
      var list := Distinctly(accounts);
      Unpack({});
      var promoted := PromoteExecutables(list, now);
      mid := State();
      forall a
        ensures a in accounts ==> PromotedExactly(a, currentState, currentMaxGas, if a in s.locals then None else Some(config.accountQueue),
                                                  s.content, mid.content, s.noncer, mid.noncer)
        ensures a !in accounts ==> SameAccount(a, s.content, mid.content, s.noncer, mid.noncer)
      {
        assert a in accounts <==> a in list;
      }
      Unpack({});
      if demote {
        DemoteUnexecutables(now);
        AllDemotedAnchored(currentState, currentMaxGas, mid, State());
        Unpack({});
      }
      KeysPriced(s.content.all, lookup.all, locals, gasPrice);
    }

    /** runReorg. `s` holds the pool after the reset, after promotion, after demotion, and with the
        pending lists cut. In the end both limits hold, the virtual nonces follow the pending lists,
        and after a reset every pending list starts at the account's nonce and each transaction by
        itself is affordable. */
    method RunReorg(reset: Option<ResetRequest>, dirty: set<Address>, now: nat)
      returns (ghost moved: bool, ghost reinject: seq<Tx>, ghost s: seq<Holding>)
      requires Valid() && (reset.Some? ==> reset.value.newHead in reset.value.stored)
      modifies this, lookup, priced
      ensures Valid() && gasPrice == old(gasPrice) && locals == old(locals) && |s| == 4
      ensures moved <==> reset.Some? && Reachable(reset.value)
      ensures if moved then currentState == reset.value.state.value && currentMaxGas == reset.value.gasLimit && istanbul == reset.value.next
                            && ToReinject(reset.value, reinject)
                            && (if reset.value.oldHead.Some? && reset.value.newHead.parent != reset.value.oldHead.value.Hash()
                                   && reset.value.oldHead.value.number <= reset.value.newHead.number + 64
                                   && reset.value.newHead.number <= reset.value.oldHead.value.number + 64
                                then exists i, j :: LostTxs(reset.value.stored, reset.value.oldHead.value, reset.value.newHead, reinject, i, j)
                                else reinject == [])
                            && Reinjected(Rules(config, gasPrice, currentState, currentMaxGas, old(istanbul)), reinject,
                                          Holding(old(Held()), Noncer(currentState.nonce, map[]), locals), s[0])
              else s[0] == old(State()) && currentState == old(currentState) && currentMaxGas == old(currentMaxGas)
      ensures AllPromoted(if reset.Some? then s[0].content.queue.Keys else dirty, currentState, currentMaxGas, config.accountQueue, s[0], s[1])
      ensures if reset.Some? then AllDemoted(currentState, currentMaxGas, s[1], s[2]) else s[1] == s[2]
      ensures PendingLimited(config, s[2], s[3]) && QueueLimited(config, s[3], Holding(Held(), s[3].noncer, locals))
      ensures forall a :: if a in pending then Follows(pending, noncer, a) else noncer.Get(a) == s[3].noncer.Get(a)
      ensures Limited()
      ensures reset.Some? ==> AllAnchored(pending, currentState, currentMaxGas)
    {
      hide Sound, Covered, NoneEmpty, AtLeastPriced, Follows, Total, Consistent, ListsOk, ToReinject, Reinjected, AllPromoted, AllDemoted, LostTxs,
           PendingLimited, QueueLimited, AllAnchored, Limited;
      moved, reinject := false, [];
      var accounts := dirty;
      if reset.Some? {
        moved, reinject := Reset(reset.value, now);
        accounts := queue.Keys;
      }
      s := [State()];
      var mid := PromoteAndDemote(accounts, reset.Some?, now);
      s := s + [mid, State()];
      Unpack({});
      mid := Truncate(now);
      s := s + [mid];
      SamePending(config, mid, State());
      if reset.Some? {
        LimitedAnchored(config, currentState, currentMaxGas, s[2], mid);
      }
      Unpack({});
      noncer := Following(pending, noncer);
    }

    /** Any step of the pool, whole or partial, keeps it valid. */
    method Step(op: PoolOp, now: nat)
      requires Valid() && (op.Reorg? && op.reset.Some? ==> op.reset.value.newHead in op.reset.value.stored)
      modifies this, lookup, priced
      ensures Valid() && old(locals) <= locals
      ensures gasPrice == if op.Price? then op.price else old(gasPrice)
    {
      hide Sound, Covered, NoneEmpty, AtLeastPriced, Consistent, ListsOk, Keyed;
      ghost var all := lookup.all;
      Unpack({});
      match op {
        case Batch(txs, local) =>
          var errs, dirty, replaced, trace := AddTxsLocked(txs, local, now);
        case Price(price) =>
          SetGasPrice(price, now);
        case Expire =>
          Evict(now);
          StillPriced(all, lookup.all, locals, gasPrice);
        case Reorg(reset, dirty) =>
          var moved, reinject, s := RunReorg(reset, dirty, now);
        case Remove(hash, outofbound) =>
          RemoveTx(hash, outofbound, now);
          StillPriced(all, lookup.all, locals, gasPrice);
        case Promote(accounts) =>
          var list := Distinctly(accounts);
          var promoted := PromoteExecutables(list, now);
          Unpack({});
          KeysPriced(all, lookup.all, locals, gasPrice);
        case Demote =>
          DemoteUnexecutables(now);
          Unpack({});
          KeysPriced(all, lookup.all, locals, gasPrice);
        case Truncate =>
          var mid := Truncate(now);
      }
    }

    /** Any run of steps keeps the pool valid. */
    method Run(ops: seq<PoolOp>, times: seq<nat>)
      requires Valid() && |times| == |ops|
      requires forall op :: op in ops && op.Reorg? && op.reset.Some? ==> op.reset.value.newHead in op.reset.value.stored
      modifies this, lookup, priced
      ensures Valid() && old(locals) <= locals
    {
      hide Settled, Covered, AtLeastPriced;
      for i := 0 to |ops|
        invariant Valid() && old(locals) <= locals
      {
        assert ops[i] in ops;
        Step(ops[i], times[i]);
      }
    }

    /** What a valid pool promises: the lookup is exactly the disjoint union of all lists, the slot
        count is right, no list is empty, no nonce is taken twice, the price heap knows everything in
        the pool, and nothing remote is below the threshold. */
    lemma Promises(tx: Tx)
      requires Valid()
      ensures Live(lookup.all, tx) <==> Holds(Items(pending, tx.sender), tx) || Holds(Items(queue, tx.sender), tx)
      ensures Live(lookup.all, tx) ==> lookup.all[tx.Hash()] == tx && tx in priced.items && tx.signed
      ensures Live(lookup.all, tx) ==> tx.sender in locals || tx.gasPrice >= gasPrice
      ensures Items(pending, tx.sender).Keys !! Items(queue, tx.sender).Keys
      ensures forall n :: n in Items(pending, tx.sender) ==> Items(pending, tx.sender)[n].sender == tx.sender
      ensures forall n :: n in Items(queue, tx.sender) ==> Items(queue, tx.sender)[n].sender == tx.sender
      ensures lookup.slots == SlotSum(lookup.all)
      ensures forall a :: a in pending ==> pending[a].items.Keys != {}
      ensures forall a :: a in queue ==> queue[a].items.Keys != {}
    {
      hide SlotSum, Heaps.IsHeap;
      assert Acct(Held(), {}, tx.sender);
      assert Live(lookup.all, tx) ==> lookup.all[tx.Hash()] == tx;
    }
  }
}
