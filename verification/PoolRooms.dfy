/** Which transactions leave a full pool to make room for another one, and whether that is enough. */
module PoolRooms {
  import opened Transactions
  import opened TxPriced
  import opened PoolSteps

  /** What stays in the heap when `drop` is taken out. */
  ghost function Left(heap: seq<Tx>, drop: seq<Tx>): multiset<Tx> { multiset(heap) - multiset(drop) }

  ghost predicate Remote(all: Pooled, locals: set<Address>, tx: Tx) { Live(all, tx) && !Local(locals, tx) }

  ghost predicate NoneRemote(all: Pooled, locals: set<Address>, drop: seq<Tx>) {
    forall tx :: Remote(all, locals, tx) ==> tx in drop
  }

  /** `drop` came off the heap to free `slots` slots: remote transactions, the worst first, none worse
      is left, and no more of them than the wanted slots need, which are there unless nothing remote
      is left. */
  ghost predicate Evicted(all: Pooled, locals: set<Address>, slots: nat, heap: seq<Tx>, drop: seq<Tx>) {
    var wanted := SlotsWanted(heap, locals, slots);
    && multiset(drop) <= multiset(heap) && InOrder(drop)
    && (forall tx :: tx in drop ==> Remote(all, locals, tx))
    && (forall d, k :: d in drop && k in Left(heap, drop) && Remote(all, locals, k) ==> !PriceLess(k, d))
    && (TotalSlots(drop) >= wanted || NoneRemote(all, locals, drop))
    && (drop != [] ==> TotalSlots(drop[..|drop| - 1]) < wanted)
  }

  lemma DroppedWorst(all: Pooled, locals: set<Address>, slots: nat, before: seq<Tx>, items: seq<Tx>, drop: seq<Tx>, dead: seq<Tx>)
    requires Keyed(all) && Covered(all, before)
    requires Discarded(all, locals, SlotsWanted(before, locals, slots), before, items, drop, dead)
    ensures Covered(all - HashesOf(drop), items) && Evicted(all, locals, slots, before, drop)
  {
    hide SlotsWanted, TotalSlots, PriceLess;
    CoverKept(all, before, items, drop, dead);
    forall k | k in Left(before, drop) && Live(all, k) ensures k in items {
      assert k in multiset(items) + multiset(dead);
    }
    forall tx | Remote(all, locals, tx) && tx !in drop ensures tx in items { assert all[tx.Hash()] == tx; }
  }

  /** A pooled transaction that is not dropped is still in the heap. */
  lemma StillThere(all: Pooled, heap: seq<Tx>, drop: seq<Tx>, tx: Tx)
    requires Keyed(all) && Covered(all, heap) && Live(all, tx) && tx !in drop
    ensures tx in Left(heap, drop)
  {
    assert all[tx.Hash()] == tx;
    assert tx in multiset(heap) && tx !in multiset(drop);
  }

  /** No remote transaction that ranks worse than an evicted one stays. */
  lemma NoneWorseStays(all: Pooled, locals: set<Address>, slots: nat, heap: seq<Tx>, drop: seq<Tx>, d: Tx, k: Tx)
    requires Keyed(all) && Covered(all, heap) && Evicted(all, locals, slots, heap, drop)
    requires d in drop && Remote(all, locals, k) && k !in drop
    ensures d.gasPrice < k.gasPrice || (d.gasPrice == k.gasPrice && d.nonce >= k.nonce)
  {
    StillThere(all, heap, drop, k);
    RankExactly(k, d);
  }

  lemma OnlyRemote(all: Pooled, locals: set<Address>, slots: nat, heap: seq<Tx>, drop: seq<Tx>, d: Tx)
    requires Evicted(all, locals, slots, heap, drop) && d in drop
    ensures Live(all, d) && !Local(locals, d)
  {
    hide TotalSlots, PriceLess, SlotsWanted;
    assert Remote(all, locals, d);
  }

  /** The slots that are counted before the last one goes are fewer than those asked for. */
  lemma NoneTooMany(all: Pooled, locals: set<Address>, slots: nat, heap: seq<Tx>, drop: seq<Tx>)
    requires Evicted(all, locals, slots, heap, drop)
    ensures drop != [] ==> TotalSlots(drop[..|drop| - 1]) < slots
  {
    hide TotalSlots, PriceLess;
  }

  /** What goes is cheaper than any remote transaction that stays, or as cheap with no lower nonce. */
  ghost predicate CheapestGone(all: Pooled, locals: set<Address>, drop: seq<Tx>) {
    forall d, k :: d in drop && Live(all, k) && !Local(locals, k) && k !in drop ==>
      d.gasPrice < k.gasPrice || (d.gasPrice == k.gasPrice && d.nonce >= k.nonce)
  }

  lemma EvictsCheapest(all: Pooled, locals: set<Address>, slots: nat, heap: seq<Tx>, drop: seq<Tx>)
    requires Keyed(all) && Covered(all, heap) && Evicted(all, locals, slots, heap, drop)
    ensures CheapestGone(all, locals, drop)
  {
    hide Keyed, Covered, Evicted;
    forall d, k | d in drop && Live(all, k) && !Local(locals, k) && k !in drop
      ensures d.gasPrice < k.gasPrice || (d.gasPrice == k.gasPrice && d.nonce >= k.nonce)
    {
      NoneWorseStays(all, locals, slots, heap, drop, d, k);
    }
  }

  /** Nothing goes while one of its sender with a higher nonce and no higher price stays. */
  lemma NoneStranded(all: Pooled, locals: set<Address>, slots: nat, heap: seq<Tx>, drop: seq<Tx>, d: Tx, k: Tx)
    requires Keyed(all) && Covered(all, heap) && Evicted(all, locals, slots, heap, drop)
    requires d in drop && d.signed && Live(all, k) && k.sender == d.sender && k.nonce > d.nonce && k.gasPrice <= d.gasPrice
    ensures k in drop
  {
    assert Remote(all, locals, d) by { hide SlotsWanted, TotalSlots, PriceLess; }
    hide Evicted;
    if k !in drop {
      NoneWorseStays(all, locals, slots, heap, drop, d, k);
    }
  }

  /** The transactions of `all` that are in `txs`. */
  ghost function Among(all: Pooled, txs: seq<Tx>): Pooled { map h | h in all && all[h] in txs :: all[h] }

  /** The remote transactions that rank worse than `k`. */
  ghost function Worse(all: Pooled, locals: set<Address>, k: Tx): Pooled {
    map h | h in all && !Local(locals, all[h]) && PriceLess(all[h], k) :: all[h]
  }

  lemma {:induction false} SlotSumPart(part: Pooled, all: Pooled)
    requires part.Keys <= all.Keys && forall h :: h in part ==> part[h] == all[h]
    ensures SlotSum(part) <= SlotSum(all)
    decreases |all|
  {
    hide NumSlots;
    if h :| h in all.Keys {
      assert all.Keys == (all - {h}).Keys + {h};
      SlotSumRemove(all, h);
      if h in part {
        SlotSumRemove(part, h);
        SlotSumPart(part - {h}, all - {h});
      } else {
        SlotSumPart(part, all - {h});
      }
    } else {
      assert part.Keys == {};
    }
  }

  /** One more transaction, unless it is there already or not pooled. */
  lemma AmongMore(all: Pooled, rest: seq<Tx>, d: Tx)
    requires Keyed(all)
    ensures !Live(all, d) || d in rest ==> Among(all, rest + [d]) == Among(all, rest)
    ensures Live(all, d) && d !in rest ==> SlotSum(Among(all, rest + [d])) == SlotSum(Among(all, rest)) + NumSlots(d)
  {
    hide SlotSum, NumSlots;
    var more := Among(all, rest + [d]);
    if Live(all, d) && d !in rest {
      assert all[d.Hash()] == d;
      SlotSumRemove(more, d.Hash());
      assert more - {d.Hash()} == Among(all, rest);
    }
  }

  ghost predicate Distinct(txs: seq<Tx>) { forall i, j :: 0 <= i < j < |txs| ==> txs[i] != txs[j] }

  lemma NoSlots()
    ensures SlotSum(map[]) == 0
  {
  }

  /** Freed slots count once for each transaction that is dropped, however often it was in the heap. */
  lemma {:induction false} FreedOnce(all: Pooled, drop: seq<Tx>)
    requires Keyed(all) && forall tx :: tx in drop ==> Live(all, tx)
    ensures SlotSum(Among(all, drop)) <= TotalSlots(drop)
    ensures Distinct(drop) ==> SlotSum(Among(all, drop)) == TotalSlots(drop)
  {
    hide SlotSum, NumSlots, Keyed, Live;
    if drop == [] {
      assert Among(all, drop) == map[];
      NoSlots();
    } else {
      var d, rest := drop[|drop| - 1], drop[..|drop| - 1];
      assert drop == rest + [d];
      FreedOnce(all, rest);
      AmongMore(all, rest, d);
    }
  }

  /** Dropping these frees the slots, or leaves nothing remote. */
  ghost predicate Enough(all: Pooled, locals: set<Address>, slots: nat, drop: seq<Tx>) {
    SlotSum(Among(all, drop)) >= slots || NoneRemote(all, locals, drop)
  }

  lemma NoneAmong(all: Pooled)
    ensures Among(all, []) == map[]
  {
  }

  lemma LeftWithout(all: Pooled, rest: seq<Tx>, d: Tx)
    requires Keyed(all)
    ensures var left := all - HashesOf(rest);
            if Live(all, d) && d !in rest then SlotSum(left) == SlotSum(left - {d.Hash()}) + NumSlots(d)
            else left - {d.Hash()} == left
  {
    hide SlotSum, NumSlots;
    var left := all - HashesOf(rest);
    if Live(all, d) && d !in rest {
      assert all[d.Hash()] == d;
      SlotSumRemove(left, d.Hash());
    } else {
      HashIn(rest, d);
    }
  }

  /** What leaves the pool and what stays make up the slots. */
  lemma {:induction false} SlotsLeft(all: Pooled, drop: seq<Tx>)
    requires Keyed(all)
    ensures SlotSum(all - HashesOf(drop)) + SlotSum(Among(all, drop)) == SlotSum(all)
    decreases |drop|
  {
    hide SlotSum, NumSlots, HashesOf, Among;
    if drop == [] {
      assert Among(all, drop) == map[] && all - HashesOf(drop) == all by { NoHashesOf(); NoneAmong(all); }
      NoSlots();
    } else {
      var d, rest := drop[|drop| - 1], drop[..|drop| - 1];
      assert drop == rest + [d];
      SlotsLeft(all, rest);
      assert drop[..|drop|] == drop;
      MoreHashes(drop, |drop| - 1, all);
      AmongMore(all, rest, d);
      LeftWithout(all, rest, d);
    }
  }

  lemma TwoOf(s: seq<Tx>, i: nat, j: nat)
    requires i < j < |s| && s[i] == s[j]
    ensures multiset(s)[s[i]] >= 2
  {
    assert s == s[..i] + [s[i]] + s[i + 1..j] + [s[j]] + s[j + 1..];
  }

  /** There is room for the slots if no remote transaction is in the heap twice and, with local
      accounts, there are at least as many remote entries as slots to free. */
  lemma RoomMade(all: Pooled, locals: set<Address>, slots: nat, heap: seq<Tx>, drop: seq<Tx>)
    requires Keyed(all) && Covered(all, heap) && Evicted(all, locals, slots, heap, drop)
    requires forall tx :: Remote(all, locals, tx) ==> multiset(heap)[tx] == 1
    requires locals == {} || slots <= CountRemote(heap, locals)
    ensures NoneRemote(all, locals, drop) || SlotSum(all - HashesOf(drop)) + slots <= SlotSum(all)
  {
    hide TotalSlots, SlotSum, PriceLess, NumSlots, NoneRemote;
    forall i, j | 0 <= i < j < |drop| ensures drop[i] != drop[j] {
      assert drop[i] in drop;
      if drop[i] == drop[j] { TwoOf(drop, i, j); }
    }
    FreedOnce(all, drop);
    SlotsLeft(all, drop);
  }

  /** The slots of the heap's entries for remote transactions that rank worse than `k`. */
  ghost function EntrySlots(heap: seq<Tx>, all: Pooled, locals: set<Address>, k: Tx): nat {
    if heap == [] then 0
    else
      var x := heap[|heap| - 1];
      EntrySlots(heap[..|heap| - 1], all, locals, k) + if Remote(all, locals, x) && PriceLess(x, k) then NumSlots(x) else 0
  }

  lemma {:induction false} EntrySplit(a: seq<Tx>, b: seq<Tx>, all: Pooled, locals: set<Address>, k: Tx)
    ensures EntrySlots(a + b, all, locals, k) == EntrySlots(a, all, locals, k) + EntrySlots(b, all, locals, k)
  {
    hide NumSlots, PriceLess, Remote;
    if b == [] {
      assert a + b == a;
    } else {
      EntrySplit(a, b[..|b| - 1], all, locals, k);
      assert (a + b)[..|a + b| - 1] == a + b[..|b| - 1];
    }
  }

  /** Only the entries that count matter. */
  lemma {:induction false} EntriesGrow(a: seq<Tx>, b: seq<Tx>, all: Pooled, locals: set<Address>, k: Tx)
    requires forall x :: Remote(all, locals, x) && PriceLess(x, k) ==> multiset(a)[x] <= multiset(b)[x]
    ensures EntrySlots(a, all, locals, k) <= EntrySlots(b, all, locals, k)
  {
    hide NumSlots, PriceLess, Remote;
    if a != [] {
      var x, rest := a[|a| - 1], a[..|a| - 1];
      assert a == rest + [x];
      if Remote(all, locals, x) && PriceLess(x, k) {
        assert multiset(a)[x] > 0;
        var i :| 0 <= i < |b| && b[i] == x;
        var fewer := b[..i] + b[i + 1..];
        assert b == b[..i] + [x] + b[i + 1..];
        EntriesGrow(rest, fewer, all, locals, k);
        EntrySplit(b[..i], b[i + 1..], all, locals, k);
        EntrySplit(b[..i], [x], all, locals, k);
        EntrySplit(b[..i] + [x], b[i + 1..], all, locals, k);
      } else {
        EntriesGrow(rest, b, all, locals, k);
      }
    }
  }

  lemma {:induction false} EntriesWithin(drop: seq<Tx>, all: Pooled, locals: set<Address>, k: Tx)
    ensures EntrySlots(drop, all, locals, k) <= TotalSlots(drop)
    ensures (forall d :: d in drop ==> Remote(all, locals, d) && PriceLess(d, k)) ==> EntrySlots(drop, all, locals, k) == TotalSlots(drop)
  {
    hide NumSlots, PriceLess, Remote;
    if drop != [] {
      EntriesWithin(drop[..|drop| - 1], all, locals, k);
    }
  }

  /** `k` shows that too little is dropped: what ranks worse is enough to stop at, but not enough. */
  ghost predicate Spared(all: Pooled, locals: set<Address>, slots: nat, heap: seq<Tx>, k: Tx) {
    && Remote(all, locals, k)
    && EntrySlots(heap, all, locals, k) >= SlotsWanted(heap, locals, slots)
    && SlotSum(Worse(all, locals, k)) < slots
  }

  /** If something that ranks no worse than `k` is dropped, so is every entry that ranks worse. */
  lemma DroppedBefore(all: Pooled, locals: set<Address>, slots: nat, heap: seq<Tx>, drop: seq<Tx>, k: Tx, d: Tx)
    requires Evicted(all, locals, slots, heap, drop) && d in drop && !PriceLess(d, k)
    ensures EntrySlots(heap, all, locals, k) <= EntrySlots(drop, all, locals, k)
  {
    hide SlotsWanted, NumSlots, TotalSlots, EntrySlots;
    forall x | Remote(all, locals, x) && PriceLess(x, k) ensures multiset(heap)[x] <= multiset(drop)[x] {
      assert PriceLess(x, d);
      assert x !in Left(heap, drop);
    }
    EntriesGrow(heap, drop, all, locals, k);
  }

  lemma LastEntry(drop: seq<Tx>, i: nat, all: Pooled, locals: set<Address>, k: Tx)
    requires InOrder(drop) && i < |drop| && !PriceLess(drop[i], k)
    ensures EntrySlots(drop, all, locals, k) == EntrySlots(drop[..|drop| - 1], all, locals, k)
  {
    hide NumSlots;
    var last := drop[|drop| - 1];
    assert i < |drop| - 1 ==> !PriceLess(last, drop[i]);
  }

  /** Nothing that ranks no worse than `k` is dropped if the entries before it are enough to stop at. */
  lemma StopsBefore(all: Pooled, locals: set<Address>, slots: nat, heap: seq<Tx>, drop: seq<Tx>, k: Tx, d: Tx)
    requires Evicted(all, locals, slots, heap, drop) && d in drop
    requires EntrySlots(heap, all, locals, k) >= SlotsWanted(heap, locals, slots)
    ensures PriceLess(d, k)
  {
    hide SlotsWanted, NumSlots, TotalSlots;
    if !PriceLess(d, k) {
      DroppedBefore(all, locals, slots, heap, drop, k, d);
      var i :| 0 <= i < |drop| && drop[i] == d;
      LastEntry(drop, i, all, locals, k);
      EntriesWithin(drop[..|drop| - 1], all, locals, k);
    }
  }

  lemma SparedShort(all: Pooled, locals: set<Address>, slots: nat, heap: seq<Tx>, drop: seq<Tx>, k: Tx)
    requires Keyed(all) && Evicted(all, locals, slots, heap, drop) && Spared(all, locals, slots, heap, k)
    ensures !Enough(all, locals, slots, drop)
  {
    hide SlotsWanted, NumSlots, TotalSlots, SlotSum, PriceLess;
    forall d | d in drop ensures PriceLess(d, k) { StopsBefore(all, locals, slots, heap, drop, k, d); }
    assert k !in drop by { assert !PriceLess(k, k) by { PriceOrder(); } }
    SlotSumPart(Among(all, drop), Worse(all, locals, k));
  }

  /** Of the remote transactions that stay, one that ranks worst. */
  lemma {:induction false} WorstLeft(all: Pooled, keep: set<TxHash>) returns (k: TxHash)
    requires keep != {} && keep <= all.Keys
    ensures k in keep && forall h :: h in keep ==> !PriceLess(all[h], all[k])
    decreases |keep|
  {
    var x :| x in keep;
    var rest := keep - {x};
    if rest == {} {
      k := x;
      assert keep == {x};
    } else {
      var y := WorstLeft(all, rest);
      k := if PriceLess(all[x], all[y]) then x else y;
      forall h | h in keep ensures !PriceLess(all[h], all[k]) { assert h == x || h in rest; }
    }
  }

  /** No two remote transactions rank the same. */
  ghost predicate Ranked(all: Pooled, locals: set<Address>) {
    forall x, y :: Remote(all, locals, x) && Remote(all, locals, y) && x != y ==> PriceLess(x, y) || PriceLess(y, x)
  }

  lemma ShortSpared(all: Pooled, locals: set<Address>, slots: nat, heap: seq<Tx>, drop: seq<Tx>) returns (k: Tx)
    requires Keyed(all) && Covered(all, heap) && Ranked(all, locals) && Evicted(all, locals, slots, heap, drop)
    requires !Enough(all, locals, slots, drop)
    ensures Spared(all, locals, slots, heap, k)
  {
    hide SlotsWanted, NumSlots, TotalSlots, SlotSum, PriceLess;
    var keep := set h | h in all && Remote(all, locals, all[h]) && all[h] !in drop;
    var left :| Remote(all, locals, left) && left !in drop;
    assert all[left.Hash()] == left;
    assert left.Hash() in keep;
    var h := WorstLeft(all, keep);
    k := all[h];
    StillThere(all, heap, drop, k);
    forall d | d in drop ensures PriceLess(d, k) { assert !PriceLess(k, d); }
    EntriesWithin(drop, all, locals, k);
    EntriesGrow(drop, heap, all, locals, k);
    SlotSumPart(Worse(all, locals, k), Among(all, drop));
  }

  /** Enough is dropped exactly if no remote transaction is spared too early, whenever no two of them
      rank the same. */
  lemma EnoughExactly(all: Pooled, locals: set<Address>, slots: nat, heap: seq<Tx>, drop: seq<Tx>)
    requires Keyed(all) && Covered(all, heap) && Ranked(all, locals) && Evicted(all, locals, slots, heap, drop)
    ensures Enough(all, locals, slots, drop) <==> forall k :: !Spared(all, locals, slots, heap, k)
  {
    hide Enough, Spared, Evicted, Ranked, Covered;
    if Enough(all, locals, slots, drop) {
      forall k ensures !Spared(all, locals, slots, heap, k) {
        if Spared(all, locals, slots, heap, k) { SparedShort(all, locals, slots, heap, drop, k); assert false; }
      }
    } else {
      var k := ShortSpared(all, locals, slots, heap, drop);
    }
  }

  /** With local accounts the transactions are counted, not their slots: of two remote ones of four
      slots each only one is dropped to free five. */
  lemma CountsTransactions(t: Tx, u: Tx, v: Tx)
    requires PriceLess(t, u) && NumSlots(t) == NumSlots(u) == 4 && v.signed && t.sender != v.sender && u.sender != v.sender
    ensures var all := map[t.Hash() := t, u.Hash() := u, v.Hash() := v];
            && Keyed(all) && Covered(all, [t, u, v])
            && Evicted(all, {v.sender}, 5, [t, u, v], [t]) && !Enough(all, {v.sender}, 5, [t])
  {
    hide NumSlots, SlotSum, PriceLess;
    var all, locals, heap := map[t.Hash() := t, u.Hash() := u, v.Hash() := v], {v.sender}, [t, u, v];
    PriceOrder();
    assert t != u;
    assert heap[..2] == [t, u] && [t, u][..1] == [t] && [t][..0] == [];
    assert CountRemote([t], locals) == 1 && CountRemote([t, u], locals) == 2;
    assert CountRemote(heap, locals) == 2;
    assert TotalSlots([t]) == 4;
    FreedOnce(all, [t]);
    assert Remote(all, locals, u);
    assert Left(heap, [t]) == multiset{u, v};
  }

  /** An entry that is in the heap twice is counted twice. */
  lemma CountsTwice(t: Tx, u: Tx)
    requires PriceLess(t, u) && NumSlots(t) == 1
    ensures var all := map[t.Hash() := t, u.Hash() := u];
            && Keyed(all) && Covered(all, [t, t, u])
            && Evicted(all, {}, 2, [t, t, u], [t, t]) && !Enough(all, {}, 2, [t, t])
  {
    hide NumSlots, SlotSum, PriceLess;
    var all, heap := map[t.Hash() := t, u.Hash() := u], [t, t, u];
    PriceOrder();
    assert t != u;
    assert [t, t][..1] == [t] && [t][..0] == [];
    assert TotalSlots([t]) == 1;
    assert TotalSlots([t, t]) == 2;
    assert Left(heap, [t, t]) == multiset{u};
    FreedOnce(all, [t]);
    assert Among(all, [t, t]) == Among(all, [t]);
    assert Remote(all, {}, u);
  }
}
