/** core/tx_list.go, txList: the transactions of one account with cached caps on cost and gas. */
module TxLists {
  import opened Transactions
  import opened TxSortedMaps

  /** The value of a list. The pool keeps these; the class below implements them. */
  datatype AccountList = AccountList(strict: bool, items: TxMap, costcap: int, gascap: uint64)

  ghost predicate CapsBound(l: AccountList) {
    forall n :: n in l.items ==> l.items[n].Cost() <= l.costcap && l.items[n].gas <= l.gascap
  }

  ghost predicate ValidList(l: AccountList) {
    WellKeyed(l.items) && CapsBound(l)
  }

  function EmptyList(strict: bool): AccountList { AccountList(strict, map[], 0, 0) }

  /** Whether `tx` outbids `prev`: a higher price, and at least `bump` percent higher. */
  predicate Outbids(tx: Tx, prev: Tx, bump: nat) {
    prev.gasPrice < tx.gasPrice && (100 + bump) * prev.gasPrice / 100 <= tx.gasPrice
  }

  /** A replacement costs more, and at least that many percent more, rounded down. */
  lemma OutbidsExactly(tx: Tx, prev: Tx, bump: nat)
    ensures Outbids(tx, prev, bump) <==> prev.gasPrice < tx.gasPrice && (100 + bump) * prev.gasPrice < 100 * (tx.gasPrice + 1)
  {
    var product := (100 + bump) * prev.gasPrice;
    assert product / 100 <= tx.gasPrice <==> product < 100 * (tx.gasPrice + 1);
  }

  predicate Accepts(l: AccountList, tx: Tx, bump: nat) {
    tx.nonce in l.items ==> Outbids(tx, l.items[tx.nonce], bump)
  }

  function At(l: AccountList, nonce: uint64): Option<Tx> {
    if nonce in l.items then Some(l.items[nonce]) else None
  }

  function Added(l: AccountList, tx: Tx): (r: AccountList)
    ensures ValidList(l) ==> ValidList(r)
  {
    l.(items := l.items[tx.nonce := tx],
       costcap := if l.costcap < tx.Cost() then tx.Cost() else l.costcap,
       gascap := if l.gascap < tx.gas then tx.gas else l.gascap)
  }

  function TooCostly(costLimit: int, gasLimit: uint64): Tx -> bool {
    (tx: Tx) => tx.gas > gasLimit || tx.Cost() > costLimit
  }

  datatype Filtered = Filtered(list: AccountList, drops: TxMap, invalids: TxMap)

  /** What Filter means without the cached caps: drop everything too costly; in a strict list
      the survivors above the lowest dropped nonce are invalid. */
  function FullScan(l: AccountList, costLimit: int, gasLimit: uint64): Filtered {
    var drops := Drop(l.items, TooCostly(costLimit, gasLimit));
    var rest := Keep(l.items, TooCostly(costLimit, gasLimit));
    var invalids := if l.strict && drops.Keys != {} then Above(rest, MinKey(drops)) else map[];
    var covered := l.costcap <= costLimit && l.gascap <= gasLimit;
    Filtered(AccountList(l.strict, rest - invalids.Keys,
                         if covered then l.costcap else costLimit,
                         if covered then l.gascap else gasLimit), drops, invalids)
  }

  /** The list without `nonce`; a strict list also loses everything above. */
  function Without(l: AccountList, nonce: uint64): AccountList {
    if nonce !in l.items then l
    else l.(items := if l.strict then Below(l.items, nonce) else l.items - {nonce})
  }

  function Invalidated(l: AccountList, nonce: uint64): TxMap {
    if l.strict && nonce in l.items then Above(l.items, nonce) else map[]
  }

  lemma CapsCover(l: AccountList, costLimit: int, gasLimit: uint64)
    requires CapsBound(l) && l.costcap <= costLimit && l.gascap <= gasLimit
    ensures FullScan(l, costLimit, gasLimit) == Filtered(l, map[], map[])
  {
    var f := TooCostly(costLimit, gasLimit);
    assert forall n :: n in l.items ==> !f(l.items[n]);
    assert Keep(l.items, f) == l.items && Drop(l.items, f) == map[];
    assert l.items - {} == l.items;
  }

  lemma FullScanValid(l: AccountList, costLimit: int, gasLimit: uint64)
    requires ValidList(l)
    ensures ValidList(FullScan(l, costLimit, gasLimit).list)
  {
    var f := TooCostly(costLimit, gasLimit);
    assert forall n :: n in l.items ==> (f(l.items[n]) <==> l.items[n].gas > gasLimit || l.items[n].Cost() > costLimit);
  }

  lemma FilterGapFree(l: AccountList, costLimit: int, gasLimit: uint64)
    requires l.strict && GapFree(l.items)
    ensures GapFree(FullScan(l, costLimit, gasLimit).list.items)
  {
    var f := TooCostly(costLimit, gasLimit);
    var drops, rest := Drop(l.items, f), Keep(l.items, f);
    if drops.Keys == {} {
      assert forall n :: n in l.items && f(l.items[n]) ==> n in drops.Keys;
      assert rest == l.items;
    } else {
      var lowest := MinKey(drops);
      assert FullScan(l, costLimit, gasLimit).list.items == Below(l.items, lowest) by {
        forall n | n in l.items && n < lowest ensures n in rest {
          assert n !in drops;
        }
      }
    }
  }

  /** A gap-free list stays gap-free under every removal a strict list supports. */
  lemma StaysGapFree(l: AccountList, t: uint64, k: nat, costLimit: int, gasLimit: uint64)
    requires l.strict && ValidList(l) && GapFree(l.items)
    ensures GapFree(AtLeast(l.items, t))
    ensures GapFree(Lowest(l.items, k))
    ensures GapFree(Without(l, t).items)
    ensures GapFree(FullScan(l, costLimit, gasLimit).list.items)
  {
    hide FullScan, Flat, CapsBound;
    FilterGapFree(l, costLimit, gasLimit);
  }

  lemma DropKeyed(m: TxMap, f: Tx -> bool)
    requires WellKeyed(m)
    ensures WellKeyed(Drop(m, f))
  {
  }

  /** The loop of Filter that looks for the lowest removed nonce. */
  method LowestNonce(removed: seq<Tx>, ghost drops: TxMap) returns (lowest: uint64)
    requires WellKeyed(drops) && removed != [] && multiset(removed) == multiset(Txs(drops))
    ensures drops.Keys != {} && lowest == MinKey(drops)
  {
    lowest := MAX_UINT64;
    for i := 0 to |removed|
      invariant forall j :: 0 <= j < i ==> lowest <= removed[j].nonce
      invariant lowest == MAX_UINT64 || exists j :: 0 <= j < i && removed[j].nonce == lowest
    {
      if lowest > removed[i].nonce {
        lowest := removed[i].nonce;
      }
    }
    assert removed[0] in multiset(removed);
    assert removed[0] in Txs(drops);
    forall n | n in drops ensures lowest <= n {
      assert drops[n] in Txs(drops);
      assert drops[n] in multiset(removed);
      var j :| 0 <= j < |removed| && removed[j] == drops[n];
    }
    assert exists j :: 0 <= j < |removed| && removed[j].nonce == lowest by {
      if lowest == MAX_UINT64 { assert removed[0].nonce == lowest; }
    }
    var j :| 0 <= j < |removed| && removed[j].nonce == lowest;
    assert removed[j] in multiset(removed);
    assert removed[j] in Txs(drops);
  }

  lemma CutAt(m: TxMap, n: uint64)
    ensures Above(m - {n}, n) == Above(m, n)
    ensures m - {n} - Above(m, n).Keys == Below(m, n)
  {
  }

  lemma KeepLow(m: TxMap, nonce: uint64, f: Tx -> bool)
    requires WellKeyed(m) && forall tx :: f(tx) <==> tx.nonce > nonce
    ensures Drop(m, f) == Above(m, nonce) && Keep(m, f) == m - Above(m, nonce).Keys
  {
  }

  class TxList {
    const strict: bool
    const txs: TxSortedMap
    var costcap: int
    var gascap: uint64

    ghost function Value(): AccountList reads this, txs {
      AccountList(strict, txs.items, costcap, gascap)
    }

    ghost predicate Valid() reads this, txs {
      txs.Valid() && CapsBound(Value())
    }

    constructor (strict: bool)
      ensures Valid() && fresh(txs) && Value() == EmptyList(strict)
    {
      this.strict, costcap, gascap := strict, 0, 0;
      txs := new TxSortedMap();
    }

    method Overlaps(tx: Tx) returns (yes: bool)
      ensures yes == (tx.nonce in Value().items)
    {
      var held := txs.Get(tx.nonce);
      yes := held.Some?;
    }

    method Add(tx: Tx, priceBump: nat) returns (inserted: bool, previous: Option<Tx>)
      requires Valid()
      modifies this, txs
      ensures Valid()
      ensures inserted == Accepts(old(Value()), tx, priceBump)
      ensures inserted <==> (tx.nonce in old(txs.items) ==>
                               var prev := old(txs.items)[tx.nonce];
                               prev.gasPrice < tx.gasPrice && (100 + priceBump) * prev.gasPrice < 100 * (tx.gasPrice + 1))
      ensures Value() == if inserted then Added(old(Value()), tx) else old(Value())
      ensures previous == if inserted then At(old(Value()), tx.nonce) else None
    {
      previous := txs.Get(tx.nonce);
      if previous.Some? {
        OutbidsExactly(tx, previous.value, priceBump);
        var threshold := (100 + priceBump) * previous.value.gasPrice / 100;
        if previous.value.gasPrice >= tx.gasPrice || tx.gasPrice < threshold {
          return false, None;
        }
      }
      hide Indexed, Flat;
      txs.Put(tx);
      if costcap < tx.Cost() {
        costcap := tx.Cost();
      }
      if gascap < tx.gas {
        gascap := tx.gas;
      }
      inserted := true;
    }

    method Forward(threshold: uint64) returns (removed: seq<Tx>)
      requires Valid()
      modifies txs
      ensures Valid() && Value() == old(Value()).(items := AtLeast(old(Value()).items, threshold))
      ensures removed == Flat(Below(old(Value()).items, threshold))
    {
      removed := txs.Forward(threshold);
    }

    /** The cached caps let Filter return early, with the result the full scan would give. */
    method Filter(costLimit: int, gasLimit: uint64) returns (removed: seq<Tx>, invalids: seq<Tx>)
      requires Valid()
      modifies this, txs
      ensures Valid()
      ensures Value() == FullScan(old(Value()), costLimit, gasLimit).list
      ensures multiset(removed) == multiset(Txs(FullScan(old(Value()), costLimit, gasLimit).drops))
      ensures multiset(invalids) == multiset(Txs(FullScan(old(Value()), costLimit, gasLimit).invalids))
    {
      hide Indexed, Flat, Keep, Drop;
      ghost var before := Value();
      if costcap <= costLimit && gascap <= gasLimit {
        CapsCover(before, costLimit, gasLimit);
        return [], [];
      }
      FullScanValid(before, costLimit, gasLimit);
      costcap, gascap := costLimit, gasLimit;
      removed := txs.Filter(TooCostly(costLimit, gasLimit));
      ghost var drops := Drop(before.items, TooCostly(costLimit, gasLimit));
      ghost var rest := txs.items;
      if |removed| == 0 {
        assert rest - {} == rest;
        assert Value() == FullScan(before, costLimit, gasLimit).list;
        return [], [];
      }
      assert WellKeyed(drops) by { DropKeyed(before.items, TooCostly(costLimit, gasLimit)); }
      invalids := [];
      if strict {
        var lowest := LowestNonce(removed, drops);
        invalids := txs.FilterOut((tx: Tx) => tx.nonce > lowest);
        KeepLow(rest, lowest, (tx: Tx) => tx.nonce > lowest);
      } else {
        assert rest - {} == rest;
      }
      txs.Reheap();
      assert Value() == FullScan(before, costLimit, gasLimit).list;
    }

    method Cap(threshold: nat) returns (drops: seq<Tx>)
      requires Valid()
      modifies txs
      ensures Valid() && Value() == old(Value()).(items := Lowest(old(Value()).items, threshold))
      ensures drops == Reverse(Flat(Highest(old(Value()).items, threshold)))
    {
      drops := txs.Cap(threshold);
    }

    method Remove(tx: Tx) returns (found: bool, invalids: seq<Tx>)
      requires Valid()
      modifies txs
      ensures Valid() && found == (tx.nonce in old(Value()).items)
      ensures Value() == Without(old(Value()), tx.nonce)
      ensures multiset(invalids) == multiset(Txs(Invalidated(old(Value()), tx.nonce)))
    {
      hide Indexed, Flat, Keep, Drop;
      ghost var before := txs.items;
      found := txs.Remove(tx.nonce);
      if !found {
        assert before - {tx.nonce} == before;
        return false, [];
      }
      if strict {
        var nonce := tx.nonce;
        invalids := txs.Filter((t: Tx) => t.nonce > nonce);
        KeepLow(before - {nonce}, nonce, (t: Tx) => t.nonce > nonce);
        CutAt(before, nonce);
        return true, invalids;
      }
      invalids := [];
    }

    method Ready(start: uint64) returns (ready: seq<Tx>)
      requires Valid()
      modifies txs
      ensures Valid()
      ensures var taken := ReadyTxs(old(Value()).items, start);
              ready == Flat(taken) && Value() == old(Value()).(items := old(Value()).items - taken.Keys)
    {
      ready := txs.Ready(start);
    }

    method Len() returns (n: nat)
      ensures n == |Value().items|
    {
      n := txs.Len();
    }

    method Flatten() returns (list: seq<Tx>)
      requires Valid()
      modifies txs
      ensures Valid() && Value() == old(Value()) && list == Flat(Value().items)
    {
      list := txs.Flatten();
    }

    method LastElement() returns (tx: Tx)
      requires Valid() && Value().items.Keys != {}
      modifies txs
      ensures Valid() && Value() == old(Value()) && tx == Flat(Value().items)[|Value().items| - 1]
    {
      tx := txs.LastElement();
    }
  }
}
