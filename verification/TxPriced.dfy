/** The lookup of all pooled transactions (core/tx_pool.go, txLookup) and the lazily cleaned
    heap of their prices (core/tx_list.go, txPricedList). */
module TxPriced {
  import opened Transactions
  import Heaps

  type Pooled = map<TxHash, Tx>

  ghost predicate Keyed(all: Pooled) {
    forall h :: h in all ==> all[h].Hash() == h
  }

  predicate Live(all: Pooled, tx: Tx) { tx.Hash() in all }

  ghost function SlotSum(all: Pooled): nat
    decreases |all|
  {
    if all.Keys == {} then 0
    else
      var h :| h in all.Keys;
      assert all.Keys == (all - {h}).Keys + {h};
      NumSlots(all[h]) + SlotSum(all - {h})
  }

  lemma SlotSumPick(all: Pooled) returns (k: TxHash)
    requires all.Keys != {}
    ensures k in all && SlotSum(all) == NumSlots(all[k]) + SlotSum(all - {k})
  {
    k :| k in all.Keys && SlotSum(all) == NumSlots(all[k]) + SlotSum(all - {k});
  }

  lemma {:induction false} SlotSumRemove(all: Pooled, h: TxHash)
    requires h in all
    ensures SlotSum(all) == NumSlots(all[h]) + SlotSum(all - {h})
    decreases |all|
  {
    hide SlotSum, NumSlots;
    var k := SlotSumPick(all);
    if k != h {
      assert all.Keys == (all - {k}).Keys + {k};
      SlotSumRemove(all - {k}, h);
      assert all.Keys == (all - {h}).Keys + {h};
      SlotSumRemove(all - {h}, k);
      assert all - {h} - {k} == all - {k} - {h};
    }
  }

  lemma {:induction false} SlotsCount(all: Pooled)
    ensures SlotSum(all) >= |all|
    decreases |all|
  {
    if all.Keys != {} {
      var h :| h in all.Keys;
      assert all.Keys == (all - {h}).Keys + {h};
      SlotSumRemove(all, h);
      SlotsCount(all - {h});
    }
  }

  class TxLookup {
    var all: Pooled
    var slots: int

    ghost predicate Valid() reads this {
      Keyed(all) && slots == SlotSum(all)
    }

    constructor ()
      ensures Valid() && all == map[]
    {
      all, slots := map[], 0;
    }

    method Get(hash: TxHash) returns (tx: Option<Tx>)
      requires Valid()
      ensures tx == if hash in all then Some(all[hash]) else None
      ensures tx.Some? ==> tx.value.Hash() == hash
    {
      tx := if hash in all then Some(all[hash]) else None;
    }

    /** A transaction that is added twice counts twice, so the count stays right exactly for a new one. */
    method Add(tx: Tx)
      requires Valid()
      modifies this
      ensures all == old(all)[tx.Hash() := tx] && Keyed(all)
      ensures Valid() <==> !old(Live(all, tx))
    {
      hide SlotSum, NumSlots;
      slots := slots + NumSlots(tx);
      all := all[tx.Hash() := tx];
      if old(Live(all, tx)) {
        assert all == old(all);
      } else {
        SlotSumRemove(all, tx.Hash());
        assert all - {tx.Hash()} == old(all);
      }
    }

    /** Removing an unknown hash would dereference nil. */
    method Remove(hash: TxHash)
      requires Valid() && hash in all
      modifies this
      ensures Valid() && all == old(all) - {hash}
    {
      SlotSumRemove(all, hash);
      slots := slots - NumSlots(all[hash]);
      all := all - {hash};
    }
  }

  /** Cheaper first; at equal price the higher nonce first. */
  function PriceLess(a: Tx, b: Tx): bool {
    a.gasPrice < b.gasPrice || (a.gasPrice == b.gasPrice && a.nonce > b.nonce)
  }

  /** What does not rank before `d` costs more, or as much with no higher nonce. */
  lemma RankExactly(k: Tx, d: Tx)
    ensures PriceLess(k, d) <==> k.gasPrice < d.gasPrice || (k.gasPrice == d.gasPrice && k.nonce > d.nonce)
    ensures !PriceLess(k, d) <==> d.gasPrice < k.gasPrice || (d.gasPrice == k.gasPrice && d.nonce >= k.nonce)
  {
  }

  lemma PriceOrder()
    ensures Heaps.StrictWeak(PriceLess)
  {
  }

  /** accountSet.containsTx */
  predicate Local(locals: set<Address>, tx: Tx) { tx.signed && tx.sender in locals }

  ghost predicate Covered(all: Pooled, items: seq<Tx>) {
    forall h :: h in all ==> all[h] in items
  }

  ghost predicate AllDead(all: Pooled, dead: seq<Tx>) {
    forall tx :: tx in dead ==> !Live(all, tx)
  }

  function CountRemote(items: seq<Tx>, locals: set<Address>): (n: nat) {
    if items == [] then 0
    else CountRemote(items[..|items| - 1], locals) + if Local(locals, items[|items| - 1]) then 0 else 1
  }

  /** The number of slots Discard really tries to free. */
  function SlotsWanted(items: seq<Tx>, locals: set<Address>, slots: nat): nat {
    if locals == {} || slots <= CountRemote(items, locals) then slots else CountRemote(items, locals)
  }

  lemma {:induction false} CountWithin(items: seq<Tx>, locals: set<Address>)
    ensures CountRemote(items, locals) <= |items|
  {
    if items != [] {
      CountWithin(items[..|items| - 1], locals);
    }
  }

  /** Discard allocates room for as many saved entries as are in the heap beyond the slots it wants.
      That is possible exactly if there are local accounts or entries enough for the slots. */
  lemma SaveFits(items: seq<Tx>, locals: set<Address>, slots: nat)
    ensures SlotsWanted(items, locals, slots) <= |items| <==> locals != {} || slots <= |items|
  {
    CountWithin(items, locals);
  }

  function TotalSlots(txs: seq<Tx>): nat {
    if txs == [] then 0 else TotalSlots(txs[..|txs| - 1]) + NumSlots(txs[|txs| - 1])
  }

  /** What Cap promises: `drop` is exactly the live remote transactions below the threshold. */
  ghost predicate PriceCapped(all: Pooled, locals: set<Address>, threshold: nat,
                         before: seq<Tx>, items: seq<Tx>, drop: seq<Tx>, dead: seq<Tx>) {
    && multiset(before) == multiset(items) + multiset(drop) + multiset(dead)
    && AllDead(all, dead)
    && (forall tx :: tx in drop ==> Live(all, tx) && !Local(locals, tx) && tx.gasPrice < threshold)
    && (forall tx :: tx in items && Live(all, tx) && !Local(locals, tx) ==> tx.gasPrice >= threshold)
  }

  /** Worst first. */
  ghost predicate InOrder(txs: seq<Tx>) { forall i, j :: 0 <= i < j < |txs| ==> !PriceLess(txs[j], txs[i]) }

  /** What Discard promises: only live remote transactions are dropped, the worst first, none that is
      kept ranks worse than a dropped one, and dropping stops as soon as enough slots are free. */
  ghost predicate Discarded(all: Pooled, locals: set<Address>, wanted: nat,
                            before: seq<Tx>, items: seq<Tx>, drop: seq<Tx>, dead: seq<Tx>) {
    && multiset(before) == multiset(items) + multiset(drop) + multiset(dead)
    && AllDead(all, dead)
    && (forall tx :: tx in drop ==> Live(all, tx) && !Local(locals, tx))
    && InOrder(drop)
    && (forall d, k :: d in drop && k in items && Live(all, k) && !Local(locals, k) ==> !PriceLess(k, d))
    && (TotalSlots(drop) >= wanted || forall tx :: tx in items && Live(all, tx) ==> Local(locals, tx))
    && (drop != [] ==> TotalSlots(drop[..|drop| - 1]) < wanted)
  }

  method PushAll(items0: seq<Tx>, save: seq<Tx>) returns (items: seq<Tx>)
    requires Heaps.IsHeap(items0, PriceLess)
    ensures Heaps.IsHeap(items, PriceLess) && multiset(items) == multiset(items0) + multiset(save)
  {
    hide Heaps.IsHeap, Heaps.StrictWeak, PriceLess;
    PriceOrder();
    items := items0;
    for i := 0 to |save|
      invariant Heaps.IsHeap(items, PriceLess)
      invariant multiset(items) == multiset(items0) + multiset(save[..i])
    {
      items := Heaps.Push(items, PriceLess, save[i]);
      assert save[..i + 1] == save[..i] + [save[i]];
    }
    assert save[..|save|] == save;
  }

  /** The state of a loop that pops transactions off the price heap. */
  ghost predicate Popping(before: seq<Tx>, items: seq<Tx>, drop: seq<Tx>, save: seq<Tx>, dead: seq<Tx>) {
    && Heaps.IsHeap(items, PriceLess)
    && multiset(before) == multiset(items) + multiset(drop) + multiset(save) + multiset(dead)
    && InOrder(drop) && (forall d, k :: d in drop && k in items ==> !PriceLess(k, d))
  }

  lemma Kept(items: seq<Tx>, items0: seq<Tx>, tx: Tx)
    requires multiset(items) + multiset{tx} == multiset(items0)
    ensures |items| + 1 == |items0| && tx in items0
    ensures forall k :: k in items ==> k in items0
  {
    assert |multiset(items)| == |items| && |multiset(items0)| == |items0|;
    assert tx in multiset(items0);
    forall k | k in items ensures k in items0 {
      assert k in multiset(items);
      assert k in multiset(items0);
    }
  }

  lemma CheapestPrice(items: seq<Tx>)
    requires items != [] && Heaps.IsHeap(items, PriceLess)
    ensures forall tx :: tx in items ==> items[0].gasPrice <= tx.gasPrice
  {
    PriceOrder();
    forall tx | tx in items ensures items[0].gasPrice <= tx.gasPrice {
      var i :| 0 <= i < |items| && items[i] == tx;
      Heaps.RootIsLeast(items, PriceLess, i);
    }
  }

  /** heap.Pop, with the facts about what stays behind. */
  method PopCheapest(ghost before: seq<Tx>, items0: seq<Tx>, ghost drop: seq<Tx>, ghost save: seq<Tx>, ghost dead: seq<Tx>)
    returns (items: seq<Tx>, tx: Tx)
    requires items0 != [] && Popping(before, items0, drop, save, dead)
    ensures |items| < |items0| && tx == items0[0]
    ensures multiset(items) + multiset{tx} == multiset(items0)
    ensures forall k :: k in items ==> tx.gasPrice <= k.gasPrice
    ensures Popping(before, items, drop + [tx], save, dead)
    ensures Popping(before, items, drop, save + [tx], dead)
    ensures Popping(before, items, drop, save, dead + [tx])
  {
    PriceOrder();
    hide Heaps.IsHeap, Heaps.StrictWeak, PriceLess;
    items, tx := Heaps.Pop(items0, PriceLess);
    Kept(items, items0, tx);
    CheapestPrice(items0);
  }

  lemma StartPopping(before: seq<Tx>)
    requires Heaps.IsHeap(before, PriceLess)
    ensures Popping(before, before, [], [], [])
  {
  }

  lemma EndPopping(before: seq<Tx>, items: seq<Tx>, drop: seq<Tx>, save: seq<Tx>, dead: seq<Tx>)
    requires Popping(before, items, drop, save, dead)
    ensures Heaps.IsHeap(items, PriceLess)
    ensures multiset(before) == multiset(items) + multiset(drop) + multiset(save) + multiset(dead)
    ensures forall d, k :: d in drop && k in items ==> !PriceLess(k, d)
  {
  }

  lemma Pushed(items: seq<Tx>, rest: seq<Tx>, save: seq<Tx>)
    requires multiset(items) == multiset(rest) + multiset(save)
    ensures forall tx :: tx in items ==> tx in rest || tx in save
  {
    forall tx | tx in items ensures tx in rest || tx in save {
      assert tx in multiset(items);
    }
  }

  method CapHeap(before: seq<Tx>, all: Pooled, threshold: nat, locals: set<Address>)
    returns (items: seq<Tx>, drop: seq<Tx>, stale: nat, ghost dead: seq<Tx>)
    requires Heaps.IsHeap(before, PriceLess)
    ensures Heaps.IsHeap(items, PriceLess) && stale == |dead|
    ensures PriceCapped(all, locals, threshold, before, items, drop, dead)
  {
    hide Heaps.IsHeap, Popping, PriceLess;
    items, drop, stale, dead := before, [], 0, [];
    var save: seq<Tx> := [];
    StartPopping(before);
    var done := false;
    while |items| > 0 && !done
      invariant Popping(before, items, drop, save, dead)
      invariant AllDead(all, dead) && stale == |dead|
      invariant forall tx :: tx in drop ==> Live(all, tx) && !Local(locals, tx) && tx.gasPrice < threshold
      invariant forall tx :: tx in save ==> Local(locals, tx) || tx.gasPrice >= threshold
      invariant done ==> forall tx :: tx in items ==> tx.gasPrice >= threshold
      decreases |items|, !done
    {
      var tx;
      items, tx := PopCheapest(before, items, drop, save, dead);
      if !Live(all, tx) {
        stale, dead := stale + 1, dead + [tx];
      } else if tx.gasPrice >= threshold {
        save := save + [tx];
        done := true;
      } else if Local(locals, tx) {
        save := save + [tx];
      } else {
        drop := drop + [tx];
      }
    }
    EndPopping(before, items, drop, save, dead);
    ghost var rest := items;
    items := PushAll(items, save);
    Pushed(items, rest, save);
  }

  lemma {:induction false} CountGrows(items: seq<Tx>, locals: set<Address>, i: nat)
    requires i <= |items|
    ensures CountRemote(items[..i], locals) <= CountRemote(items, locals)
  {
    if i == |items| {
      assert items[..i] == items;
    } else {
      var t := items[..|items| - 1];
      CountGrows(t, locals, i);
      assert t[..i] == items[..i];
    }
  }

  method CountDiscardable(items: seq<Tx>, locals: set<Address>, slots: nat) returns (wanted: nat)
    ensures wanted == SlotsWanted(items, locals, slots)
  {
    wanted := slots;
    if locals != {} {
      var discardable := 0;
      var i := 0;
      while i < |items|
        invariant 0 <= i <= |items| && discardable == CountRemote(items[..i], locals)
      {
        if !Local(locals, items[i]) {
          discardable := discardable + 1;
        }
        assert items[..i + 1][..i] == items[..i];
        i := i + 1;
        if discardable >= slots {
          break;
        }
      }
      CountGrows(items, locals, i);
      assert i == |items| ==> items[..i] == items;
      if slots > discardable {
        wanted := discardable;
      }
    }
  }

  lemma TotalSlotsPush(drop: seq<Tx>, tx: Tx)
    ensures (drop + [tx])[..|drop|] == drop && TotalSlots(drop + [tx]) == TotalSlots(drop) + NumSlots(tx)
  {
    assert (drop + [tx])[..|drop|] == drop;
  }

  /** What Discard has sorted out so far. */
  ghost predicate Discarding(all: Pooled, locals: set<Address>, wanted: nat, drop: seq<Tx>, save: seq<Tx>, dead: seq<Tx>) {
    && AllDead(all, dead)
    && (forall tx :: tx in drop ==> Live(all, tx) && !Local(locals, tx))
    && (forall tx :: tx in save ==> Local(locals, tx))
    && (drop != [] ==> TotalSlots(drop[..|drop| - 1]) < wanted)
  }

  lemma StartDiscarding(all: Pooled, locals: set<Address>, wanted: nat)
    ensures Discarding(all, locals, wanted, [], [], []) && TotalSlots([]) == 0
  {
  }

  lemma DiscardOne(all: Pooled, locals: set<Address>, wanted: nat, drop: seq<Tx>, save: seq<Tx>, dead: seq<Tx>, tx: Tx)
    requires Discarding(all, locals, wanted, drop, save, dead)
    ensures !Live(all, tx) ==> Discarding(all, locals, wanted, drop, save, dead + [tx])
    ensures Local(locals, tx) ==> Discarding(all, locals, wanted, drop, save + [tx], dead)
    ensures Live(all, tx) && !Local(locals, tx) && TotalSlots(drop) < wanted ==>
              Discarding(all, locals, wanted, drop + [tx], save, dead)
    ensures TotalSlots(drop + [tx]) == TotalSlots(drop) + NumSlots(tx)
  {
    hide TotalSlots, NumSlots;
    TotalSlotsPush(drop, tx);
  }

  lemma EndDiscarding(all: Pooled, locals: set<Address>, wanted: nat, before: seq<Tx>, rest: seq<Tx>, items: seq<Tx>,
                      drop: seq<Tx>, save: seq<Tx>, dead: seq<Tx>)
    requires Popping(before, rest, drop, save, dead) && Discarding(all, locals, wanted, drop, save, dead)
    requires multiset(items) == multiset(rest) + multiset(save)
    requires rest == [] || TotalSlots(drop) >= wanted
    ensures Discarded(all, locals, wanted, before, items, drop, dead)
  {
    hide TotalSlots, NumSlots, PriceLess, Heaps.IsHeap;
    Pushed(items, rest, save);
  }

  method DiscardHeap(before: seq<Tx>, all: Pooled, slots: nat, locals: set<Address>)
    returns (items: seq<Tx>, drop: seq<Tx>, stale: nat, ghost dead: seq<Tx>)
    requires Heaps.IsHeap(before, PriceLess)
    ensures Heaps.IsHeap(items, PriceLess) && stale == |dead|
    ensures Discarded(all, locals, SlotsWanted(before, locals, slots), before, items, drop, dead)
  {
    hide Heaps.IsHeap, Popping, PriceLess, SlotsWanted, TotalSlots, NumSlots, Discarded, Discarding, Live, Local;
    var wanted := CountDiscardable(before, locals, slots);
    items, drop, stale, dead := before, [], 0, [];
    StartPopping(before);
    StartDiscarding(all, locals, wanted);
    var save: seq<Tx> := [];
    if wanted == 0 {
      EndDiscarding(all, locals, wanted, before, before, before, drop, save, dead);
      return;
    }
    var left: int := wanted;
    while |items| > 0 && left > 0
      invariant Popping(before, items, drop, save, dead)
      invariant Discarding(all, locals, wanted, drop, save, dead) && stale == |dead|
      invariant left == wanted - TotalSlots(drop)
      decreases |items|
    {
      var tx;
      items, tx := PopCheapest(before, items, drop, save, dead);
      DiscardOne(all, locals, wanted, drop, save, dead, tx);
      if !Live(all, tx) {
        stale, dead := stale + 1, dead + [tx];
      } else if Local(locals, tx) {
        save := save + [tx];
      } else {
        drop := drop + [tx];
        left := left - NumSlots(tx);
      }
    }
    ghost var rest := items;
    EndPopping(before, items, drop, save, dead);
    items := PushAll(items, save);
    EndDiscarding(all, locals, wanted, before, rest, items, drop, save, dead);
  }

  lemma StillCovered(all: Pooled, before: seq<Tx>, items: seq<Tx>, tx: Tx)
    requires Keyed(all) && Covered(all, before) && !Live(all, tx)
    requires multiset(items) + multiset{tx} == multiset(before)
    ensures Covered(all, items)
  {
    forall h | h in all ensures all[h] in items {
      assert all[h] in multiset(before);
      assert all[h] in multiset(items);
    }
  }

  /** Underpriced's loop: stale entries go from the top of the heap. */
  method SkimDead(before: seq<Tx>, all: Pooled) returns (items: seq<Tx>, stale: nat, ghost dead: seq<Tx>)
    requires Heaps.IsHeap(before, PriceLess) && Keyed(all) && Covered(all, before)
    ensures Heaps.IsHeap(items, PriceLess) && Covered(all, items) && stale == |dead|
    ensures multiset(before) == multiset(items) + multiset(dead) && AllDead(all, dead)
    ensures items != [] ==> Live(all, items[0])
  {
    hide Heaps.IsHeap, Popping;
    items, stale, dead := before, 0, [];
    StartPopping(before);
    while |items| > 0 && !Live(all, items[0])
      invariant Popping(before, items, [], [], dead) && stale == |dead|
      invariant AllDead(all, dead) && Covered(all, items)
      invariant multiset(before) == multiset(items) + multiset(dead)
      decreases |items|
    {
      ghost var prev := items;
      var tx;
      items, tx := PopCheapest(before, items, [], [], dead);
      StillCovered(all, prev, items, tx);
      stale, dead := stale + 1, dead + [tx];
    }
    EndPopping(before, items, [], [], dead);
  }

  method Gather(all: Pooled) returns (items: seq<Tx>)
    requires Keyed(all)
    ensures multiset(items) == multiset(set h | h in all :: all[h])
  {
    items := [];
    var todo := all.Keys;
    while todo != {}
      invariant todo <= all.Keys
      invariant multiset(items) == multiset(set h | h in all && h !in todo :: all[h])
    {
      var h :| h in todo;
      ghost var before := set k | k in all && k !in todo :: all[k];
      todo := todo - {h};
      assert (set k | k in all && k !in todo :: all[k]) == before + {all[h]};
      assert all[h] !in before;
      items := items + [all[h]];
    }
  }

  lemma DiscardRank(all: Pooled, locals: set<Address>, wanted: nat, before: seq<Tx>, items: seq<Tx>, drop: seq<Tx>, dead: seq<Tx>)
    requires Discarded(all, locals, wanted, before, items, drop, dead)
    ensures forall d, k :: d in drop && k in items && Live(all, k) && !Local(locals, k) ==>
              d.gasPrice < k.gasPrice || (d.gasPrice == k.gasPrice && d.nonce >= k.nonce)
    ensures forall i, j :: 0 <= i < j < |drop| ==>
              drop[i].gasPrice < drop[j].gasPrice || (drop[i].gasPrice == drop[j].gasPrice && drop[i].nonce >= drop[j].nonce)
  {
    hide PriceLess, TotalSlots;
    forall d, k | d in drop && k in items && Live(all, k) && !Local(locals, k)
      ensures d.gasPrice < k.gasPrice || (d.gasPrice == k.gasPrice && d.nonce >= k.nonce)
    {
      RankExactly(k, d);
    }
    forall i, j | 0 <= i < j < |drop|
      ensures drop[i].gasPrice < drop[j].gasPrice || (drop[i].gasPrice == drop[j].gasPrice && drop[i].nonce >= drop[j].nonce)
    {
      RankExactly(drop[j], drop[i]);
    }
  }

  class TxPricedList {
    const lookup: TxLookup
    var items: seq<Tx>
    var stales: int

    ghost predicate Valid() reads this { Heaps.IsHeap(items, PriceLess) }

    constructor (lookup: TxLookup)
      ensures Valid() && this.lookup == lookup && items == [] && stales == 0
    {
      this.lookup, items, stales := lookup, [], 0;
    }

    method Put(tx: Tx)
      requires Valid()
      modifies this
      ensures Valid() && multiset(items) == multiset(old(items)) + multiset{tx} && stales == old(stales)
    {
      items := Heaps.Push(items, PriceLess, tx);
    }

    method Removed(count: nat)
      requires Valid() && Keyed(lookup.all)
      modifies this
      ensures Valid()
      ensures if old(stales) + count <= |old(items)| / 4
              then items == old(items) && stales == old(stales) + count
              else multiset(items) == multiset(set h | h in lookup.all :: lookup.all[h]) && stales == 0
    {
      stales := stales + count;
      if stales <= |items| / 4 {
        return;
      }
      stales := 0;
      items := Gather(lookup.all);
      items := Heaps.Init(items, PriceLess);
    }

    method Cap(threshold: nat, locals: set<Address>) returns (drop: seq<Tx>, ghost dead: seq<Tx>)
      requires Valid()
      modifies this
      ensures Valid() && stales == old(stales) - |dead|
      ensures PriceCapped(lookup.all, locals, threshold, old(items), items, drop, dead)
    {
      var stale;
      items, drop, stale, dead := CapHeap(items, lookup.all, threshold, locals);
      stales := stales - stale;
    }

    /** Provided the heap covers the pool: `tx` is underpriced iff it is not local and no pooled
        transaction is strictly cheaper. */
    method Underpriced(tx: Tx, locals: set<Address>) returns (yes: bool, ghost dead: seq<Tx>)
      requires Valid() && Keyed(lookup.all) && Covered(lookup.all, items)
      modifies this
      ensures Valid() && Covered(lookup.all, items)
      ensures multiset(old(items)) == multiset(items) + multiset(dead) && AllDead(lookup.all, dead)
      ensures stales == old(stales) - |dead|
      ensures yes == (!Local(locals, tx) && lookup.all != map[]
                      && forall h :: h in lookup.all ==> tx.gasPrice <= lookup.all[h].gasPrice)
    {
      dead := [];
      if Local(locals, tx) {
        return false, [];
      }
      var stale;
      items, stale, dead := SkimDead(items, lookup.all);
      stales := stales - stale;
      if |items| == 0 {
        assert lookup.all.Keys == {};
        return false, dead;
      }
      CheapestPrice(items);
      assert items[0] in items;
      assert lookup.all[items[0].Hash()] == items[0];
      yes := items[0].gasPrice >= tx.gasPrice;
    }

    method Discard(slots: nat, locals: set<Address>) returns (drop: seq<Tx>, ghost dead: seq<Tx>)
      requires Valid()
      modifies this
      ensures Valid() && stales == old(stales) - |dead|
      ensures Discarded(lookup.all, locals, SlotsWanted(old(items), locals, slots), old(items), items, drop, dead)
      ensures forall d, k :: d in drop && k in items && Live(lookup.all, k) && !Local(locals, k) ==>
                d.gasPrice < k.gasPrice || (d.gasPrice == k.gasPrice && d.nonce >= k.nonce)
      ensures forall i, j :: 0 <= i < j < |drop| ==>
                drop[i].gasPrice < drop[j].gasPrice || (drop[i].gasPrice == drop[j].gasPrice && drop[i].nonce >= drop[j].nonce)
    {
      var stale;
      hide Discarded, SlotsWanted, Heaps.IsHeap;
      items, drop, stale, dead := DiscardHeap(items, lookup.all, slots, locals);
      stales := stales - stale;
      DiscardRank(lookup.all, locals, SlotsWanted(old(items), locals, slots), old(items), items, drop, dead);
    }
  }
}
