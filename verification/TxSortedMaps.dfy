/** core/tx_list.go, txSortedMap: a map from nonce to transaction with a heap of the nonces
    and a cached sorted listing. Each method refines an operation on the plain map. */
module TxSortedMaps {
  import opened Transactions
  import Heaps

  function NonceLess(a: uint64, b: uint64): bool { a < b }

  /** The heap holds exactly the nonces of the map, each once. */
  ghost predicate Indexed(m: TxMap, h: seq<uint64>) {
    Heaps.IsHeap(h, NonceLess) && multiset(h) == multiset(m.Keys)
  }

  lemma IndexIsHeap(m: TxMap, h: seq<uint64>)
    requires Indexed(m, h)
    ensures Heaps.StrictWeak(NonceLess) && Heaps.IsHeap(h, NonceLess) && multiset(h) == multiset(m.Keys)
  {
  }

  lemma HeadIsMin(m: TxMap, h: seq<uint64>)
    requires Indexed(m, h)
    ensures h == [] <==> m.Keys == {}
    ensures h != [] ==> h[0] == MinKey(m)
  {
    if h == [] {
      assert |multiset(m.Keys)| == |m.Keys|;
    } else {
      assert h[0] in multiset(h);
      var n := MinKey(m);
      assert n in multiset(h);
      var i :| 0 <= i < |h| && h[i] == n;
      Heaps.RootIsLeast(h, NonceLess, i);
    }
  }

  lemma PoppedIndex(m: TxMap, h: seq<uint64>, n: uint64)
    requires n in m && Heaps.IsHeap(h, NonceLess) && multiset(h) + multiset{n} == multiset(m.Keys)
    ensures Indexed(m - {n}, h)
  {
    assert (m - {n}).Keys == m.Keys - {n};
    assert multiset(h) == multiset(m.Keys) - multiset{n};
    assert multiset(m.Keys - {n}) == multiset(m.Keys) - multiset{n};
  }

  lemma PushedIndex(m: TxMap, h: seq<uint64>, n: uint64, tx: Tx)
    requires n !in m && Heaps.IsHeap(h, NonceLess) && multiset(h) == multiset(m.Keys) + multiset{n}
    ensures Indexed(m[n := tx], h)
  {
    assert m[n := tx].Keys == m.Keys + {n};
  }

  lemma SameIndex(m: TxMap, h: seq<uint64>, n: uint64, tx: Tx)
    requires Indexed(m, h) && n in m
    ensures Indexed(m[n := tx], h)
  {
    hide Heaps.IsHeap;
    assert m[n := tx].Keys == m.Keys;
  }

  lemma InIndex(m: TxMap, h: seq<uint64>, n: uint64)
    requires Indexed(m, h) && n in m
    ensures n in h
  {
    assert n in multiset(h);
  }

  method PositionOf(h: seq<uint64>, n: uint64) returns (i: nat)
    requires n in h
    ensures i < |h| && h[i] == n && n !in h[..i]
  {
    i := 0;
    while h[i] != n
      invariant i < |h| && n !in h[..i] && n in h[i..]
      decreases |h| - i
    {
      i := i + 1;
    }
  }

  lemma Inserted<T(!new)>(s: seq<T>, less: (T, T) -> bool, x: T, k: int)
    requires Heaps.StrictWeak(less) && 0 <= k <= |s|
    requires forall i, j :: 0 <= i < j < |s| ==> !less(s[j], s[i])
    requires k < |s| ==> less(x, s[k])
    requires 0 < k ==> !less(x, s[k - 1])
    ensures var r := s[..k] + [x] + s[k..]; forall i, j :: 0 <= i < j < |r| ==> !less(r[j], r[i])
  {
    var r := s[..k] + [x] + s[k..];
    forall i | 0 <= i < k ensures !less(x, s[i]) {
      if i < k - 1 { assert !less(s[k - 1], s[i]); }
    }
    forall i | k <= i < |s| ensures !less(s[i], x) {
      if k < i { assert !less(s[i], s[k]); }
    }
    forall i, j | 0 <= i < j < |r| ensures !less(r[j], r[i]) {
      if j < k {
        assert r[i] == s[i] && r[j] == s[j];
      } else if j == k {
        assert r[i] == s[i];
      } else if i < k {
        assert r[i] == s[i] && r[j] == s[j - 1];
      } else if i == k {
        assert r[j] == s[j - 1];
      } else {
        assert r[i] == s[i - 1] && r[j] == s[j - 1];
      }
    }
  }

  method Insert<T(!new)>(s: seq<T>, less: (T, T) -> bool, x: T) returns (r: seq<T>)
    requires Heaps.StrictWeak(less)
    requires forall i, j :: 0 <= i < j < |s| ==> !less(s[j], s[i])
    ensures multiset(r) == multiset(s) + multiset{x}
    ensures forall i, j :: 0 <= i < j < |r| ==> !less(r[j], r[i])
  {
    var k := |s|;
    while 0 < k && less(x, s[k - 1])
      invariant 0 <= k <= |s|
      invariant k < |s| ==> less(x, s[k])
    {
      k := k - 1;
    }
    r := s[..k] + [x] + s[k..];
    assert s == s[..k] + s[k..];
    Inserted(s, less, x, k);
  }

  /** Go's sort.Sort. */
  method Sort<T(!new)>(s: seq<T>, less: (T, T) -> bool) returns (r: seq<T>)
    requires Heaps.StrictWeak(less)
    ensures multiset(r) == multiset(s)
    ensures forall i, j :: 0 <= i < j < |r| ==> !less(r[j], r[i])
  {
    r := [];
    for k := 0 to |s|
      invariant multiset(r) == multiset(s[..k])
      invariant forall i, j :: 0 <= i < j < |r| ==> !less(r[j], r[i])
    {
      r := Insert(r, less, s[k]);
      assert s[..k + 1] == s[..k] + [s[k]];
    }
    assert s[..|s|] == s;
  }

  ghost predicate Between(lo: TxMap, m: TxMap, hi: TxMap) {
    (forall n :: n in lo ==> n in m) && (forall n :: n in m ==> n in hi && m[n] == hi[n])
  }

  lemma FlatHead(m: TxMap)
    requires m.Keys != {}
    ensures Flat(m) == [m[MinKey(m)]] + Flat(m - {MinKey(m)})
    ensures |m - {MinKey(m)}| < |m|
  {
  }

  ghost predicate Filtering(all: TxMap, filter: Tx -> bool, todo: TxMap, items: TxMap, done: TxMap) {
    && WellKeyed(all)
    && (forall n :: n in todo ==> n in all && todo[n] == all[n])
    && items == (map n | n in all && (n in todo || !filter(all[n])) :: all[n])
    && done == (map n | n in all && n !in todo && filter(all[n]) :: all[n])
  }

  lemma FilterDrop(all: TxMap, filter: Tx -> bool, todo: TxMap, items: TxMap, done: TxMap, n: uint64)
    requires Filtering(all, filter, todo, items, done) && n in todo && filter(todo[n])
    ensures Filtering(all, filter, todo - {n}, items - {n}, done[n := todo[n]])
  {
  }

  lemma FilterKeep(all: TxMap, filter: Tx -> bool, todo: TxMap, items: TxMap, done: TxMap, n: uint64)
    requires Filtering(all, filter, todo, items, done) && n in todo && !filter(todo[n])
    ensures Filtering(all, filter, todo - {n}, items, done)
  {
  }

  lemma FilterNew(all: TxMap, filter: Tx -> bool, todo: TxMap, items: TxMap, done: TxMap, n: uint64)
    requires Filtering(all, filter, todo, items, done) && n in todo
    ensures n !in done && WellKeyed(done)
  {
  }

  lemma FilterStep(all: TxMap, filter: Tx -> bool, todo: TxMap, items: TxMap, done: TxMap, n: uint64)
    requires Filtering(all, filter, todo, items, done) && n in todo
    ensures |todo - {n}| < |todo|
    ensures n !in done && WellKeyed(done)
    ensures if filter(todo[n]) then Filtering(all, filter, todo - {n}, items - {n}, done[n := todo[n]])
            else Filtering(all, filter, todo - {n}, items, done)
  {
    hide Filtering, WellKeyed;
    assert todo.Keys == (todo - {n}).Keys + {n};
    FilterNew(all, filter, todo, items, done, n);
    if filter(todo[n]) {
      FilterDrop(all, filter, todo, items, done, n);
    } else {
      FilterKeep(all, filter, todo, items, done, n);
    }
  }

  /** The state of Ready's loop: `ready` has the first |ready| nonces from `first` on. */
  ghost predicate Taking(all: TxMap, ready: seq<Tx>, rest: TxMap, first: uint64) {
    && WellKeyed(all) && all.Keys != {} && first == MinKey(all)
    && ready + Flat(rest) == Flat(all)
    && (forall n :: n in rest ==> n in all && rest[n] == all[n])
    && (forall n :: n in all ==> n in rest || (first <= n && n - first < |ready|))
    && (forall n: uint64 :: first <= n && n - first < |ready| ==> n in all && n !in rest)
    && |ready| <= MAX_UINT64 - first + 1
  }

  function NthNonce(first: uint64, k: nat): uint64 {
    if first + k <= MAX_UINT64 then first + k else 0
  }

  lemma TakeStep(all: TxMap, ready: seq<Tx>, rest: TxMap, first: uint64)
    requires Taking(all, ready, rest, first) && rest.Keys != {} && MinKey(rest) == NthNonce(first, |ready|)
    ensures var n := MinKey(rest);
            Taking(all, ready + [rest[n]], rest - {n}, first) && NextNonce(n) == NthNonce(first, |ready| + 1)
  {
    hide Flat;
    var n := MinKey(rest);
    FlatHead(rest);
    assert first + |ready| <= MAX_UINT64;
    assert ready + [rest[n]] + Flat(rest - {n}) == ready + Flat(rest);
  }

  /** heap.Pop on the index of a map. */
  method PopMin(m: TxMap, h: seq<uint64>) returns (r: seq<uint64>, n: uint64)
    requires Indexed(m, h) && h != []
    ensures m.Keys != {} && n == h[0] == MinKey(m)
    ensures Indexed(m - {n}, r) && |m - {n}| < |m|
    ensures Flat(m) == [m[n]] + Flat(m - {n})
  {
    hide Heaps.IsHeap, Heaps.StrictWeak;
    HeadIsMin(m, h);
    FlatHead(m);
    IndexIsHeap(m, h);
    r, n := Heaps.Pop(h, NonceLess);
    PoppedIndex(m, r, n);
  }

  lemma FirstNonce(first: uint64)
    ensures NthNonce(first, 0) == first
  {
  }

  /** Where Ready's loop stops, it has taken the whole run. */
  lemma StartTaking(all: TxMap)
    requires WellKeyed(all) && all.Keys != {}
    ensures Taking(all, [], all, MinKey(all))
  {
  }

  lemma SamePrefix(a: seq<Tx>, b: seq<Tx>, t: seq<Tx>)
    requires a + t == b + t
    ensures a == b
  {
    assert |a| == |b|;
    assert a == (a + t)[..|a|] && b == (b + t)[..|b|];
  }

  lemma RunTaken(all: TxMap, ready: seq<Tx>, rest: TxMap, first: uint64)
    requires Taking(all, ready, rest, first)
    requires rest.Keys == {} || MinKey(rest) != NthNonce(first, |ready|)
    ensures rest == all - Run(all).Keys && ready == Flat(Run(all))
  {
    hide Flat;
    var t := first + |ready|;
    if t <= MAX_UINT64 {
      assert t !in rest;
      assert t !in all;
      assert Run(all) == Below(all, t);
      assert rest == AtLeast(all, t);
      FlatCut(all, t);
      SamePrefix(ready, Flat(Below(all, t)), Flat(rest));
    } else {
      assert Run(all) == all;
      assert rest.Keys == {};
      assert Flat(rest) == [];
    }
  }

  /** The loop of Ready. */
  method TakeRun(all: TxMap, h: seq<uint64>) returns (items: TxMap, index: seq<uint64>, ready: seq<Tx>)
    requires WellKeyed(all) && Indexed(all, h) && h != []
    ensures all.Keys != {} && ready == Flat(Run(all)) && items == all - Run(all).Keys
    ensures Indexed(items, index)
  {
    hide Flat, Indexed, Taking, Run, NthNonce, NextNonce;
    HeadIsMin(all, h);
    StartTaking(all);
    items, index, ready := all, h, [];
    ghost var first := h[0];
    assert NthNonce(first, 0) == first by { FirstNonce(first); }
    var next := h[0];
    while |index| > 0 && index[0] == next
      invariant Indexed(items, index)
      invariant Taking(all, ready, items, first) && next == NthNonce(first, |ready|)
      decreases |items|
    {
      var nonce;
      index, nonce := PopMin(items, index);
      TakeStep(all, ready, items, first);
      ready := ready + [items[next]];
      items := items - {next};
      next := NextNonce(next);
    }
    HeadIsMin(items, index);
    RunTaken(all, ready, items, first);
  }

  lemma PopStart(all: TxMap, threshold: uint64)
    ensures Between(AtLeast(all, threshold), all, all)
  {
  }

  lemma PopOne(all: TxMap, threshold: uint64, items: TxMap, n: uint64)
    requires Between(AtLeast(all, threshold), items, all) && n < threshold
    ensures Between(AtLeast(all, threshold), items - {n}, all)
  {
  }

  lemma PopEnd(all: TxMap, threshold: uint64, items: TxMap)
    requires Between(AtLeast(all, threshold), items, all) && (items.Keys != {} ==> MinKey(items) >= threshold)
    ensures items == AtLeast(all, threshold)
  {
    forall n | n in items ensures threshold <= n { assert MinKey(items) <= n; }
  }

  /** Forward's loop: the lowest nonces go as long as they are below the threshold. */
  method PopBelow(all: TxMap, index0: seq<uint64>, threshold: uint64)
    returns (items: TxMap, index: seq<uint64>, removed: seq<Tx>)
    requires WellKeyed(all) && Indexed(all, index0)
    ensures items == AtLeast(all, threshold) && Indexed(items, index) && removed == Flat(Below(all, threshold))
  {
    hide Flat, Indexed, Between, AtLeast, Below, WellKeyed;
    items, index, removed := all, index0, [];
    PopStart(all, threshold);
    HeadIsMin(items, index);
    while |index| > 0 && index[0] < threshold
      invariant Indexed(items, index)
      invariant removed + Flat(items) == Flat(all)
      invariant Between(AtLeast(all, threshold), items, all)
      decreases |items|
    {
      var nonce;
      ghost var before := items;
      index, nonce := PopMin(items, index);
      removed := removed + [items[nonce]];
      items := items - {nonce};
      PopOne(all, threshold, before, nonce);
    }
    HeadIsMin(items, index);
    PopEnd(all, threshold, items);
    FlatCut(all, threshold);
    SamePrefix(removed, Flat(Below(all, threshold)), Flat(items));
  }

  function Reverse<T>(s: seq<T>): seq<T> {
    if s == [] then [] else Reverse(s[1..]) + [s[0]]
  }

  lemma NoneReversed()
    ensures Reverse<Tx>([]) == []
  {
  }

  lemma ReverseMore<T>(s: seq<T>, k: nat)
    requires 0 < k <= |s|
    ensures Reverse(s[k - 1..]) == Reverse(s[k..]) + [s[k - 1]]
  {
    assert s[k - 1..][1..] == s[k..];
  }

  lemma {:induction false} ReverseLength<T>(s: seq<T>)
    ensures |Reverse(s)| == |s|
  {
    if s != [] { ReverseLength(s[1..]); }
  }

  function SeqNonces(s: seq<Tx>): seq<uint64> { seq(|s|, i requires 0 <= i < |s| => s[i].nonce) }

  lemma NonceAt(s: seq<Tx>, i: nat)
    requires i < |s|
    ensures |SeqNonces(s)| == |s| && SeqNonces(s)[i] == s[i].nonce
  {
  }

  lemma LowestAll(m: TxMap, k: nat)
    requires WellKeyed(m)
    ensures Lowest(m, |m|) == m && WellKeyed(Lowest(m, k))
  {
  }

  /** Cap's loop: the highest nonces go, from the end of the sorted index. */
  method DropHighest(all: TxMap, index: seq<uint64>, threshold: nat) returns (items: TxMap, drops: seq<Tx>)
    requires WellKeyed(all) && index == SeqNonces(Flat(all)) && threshold < |all|
    ensures items == Lowest(all, threshold) && WellKeyed(items) && drops == Reverse(Flat(all)[threshold..])
    ensures |drops| == |all| - threshold
  {
    hide Flat, Lowest, Reverse, WellKeyed, SeqNonces;
    ghost var f := Flat(all);
    NonceAt(f, 0);
    NoneReversed();
    LowestAll(all, threshold);
    items, drops := all, [];
    var size := |items|;
    assert f[size..] == [];
    while size > threshold
      invariant threshold <= size <= |f| == |all|
      invariant items == Lowest(all, size)
      invariant drops == Reverse(f[size..])
    {
      LowestStep(all, size);
      NonceAt(f, size - 1);
      ReverseMore(f, size);
      var nonce := index[size - 1];
      drops := drops + [items[nonce]];
      items := items - {nonce};
      size := size - 1;
    }
    LowestKeyed(all, threshold);
    ReverseLength(f[threshold..]);
  }

  lemma Distinct<T>(s: seq<T>, i: int, j: int)
    requires 0 <= i < j < |s| && multiset(s)[s[i]] <= 1
    ensures s[i] != s[j]
  {
    assert s == s[..j] + [s[j]] + s[j + 1..];
    assert s[..j][i] == s[i];
    assert s[i] in s[..j];
  }

  lemma SortedIndex(m: TxMap, h: seq<uint64>)
    requires WellKeyed(m) && multiset(h) == multiset(m.Keys)
    requires forall i, j :: 0 <= i < j < |h| ==> !(h[j] < h[i])
    ensures h == SeqNonces(Flat(m)) && |h| == |m|
  {
    hide Flat;
    assert |h| == |multiset(h)| == |m.Keys|;
    forall i | 0 <= i < |h| ensures h[i] in m {
      assert h[i] in multiset(h);
    }
    forall i, j | 0 <= i < j < |h| ensures h[i] < h[j] {
      Distinct(h, i, j);
    }
    var s := seq(|h|, i requires 0 <= i < |h| => m[h[i]]);
    assert IsFlat(s, m);
    FlatIsFlat(m);
    FlatUnique(m, s, Flat(m));
  }

  method SortIndex(ghost m: TxMap, h: seq<uint64>) returns (r: seq<uint64>)
    requires WellKeyed(m) && Indexed(m, h)
    ensures r == SeqNonces(Flat(m))
  {
    hide Flat, Heaps.IsHeap, SeqNonces;
    IndexIsHeap(m, h);
    r := Sort(h, NonceLess);
    SortedIndex(m, r);
  }

  lemma NonceCount(s: seq<Tx>)
    ensures |SeqNonces(s)| == |s|
  {
  }

  lemma Reindex(m: TxMap, h: seq<uint64>)
    requires Heaps.IsHeap(h, NonceLess) && multiset(h) == multiset(m.Keys)
    ensures Indexed(m, h)
  {
  }

  lemma {:induction false} NoncesOnce(m: TxMap)
    requires WellKeyed(m)
    ensures multiset(SeqNonces(Flat(m))) == multiset(m.Keys)
    decreases |m|
  {
    hide Flat;
    if m.Keys == {} {
      FlatIsFlat(m);
    } else {
      var n := MinKey(m);
      var rest := m - {n};
      assert m.Keys == rest.Keys + {n};
      NoncesOnce(rest);
      FlatHead(m);
      assert SeqNonces(Flat(m)) == [n] + SeqNonces(Flat(rest));
    }
  }

  lemma CappedIndex(m: TxMap, k: nat)
    requires WellKeyed(m) && k <= |m|
    ensures multiset(SeqNonces(Flat(m))[..k]) == multiset(Lowest(m, k).Keys)
  {
    hide Flat;
    FlatSplit(m, k);
    NoncesOnce(Lowest(m, k));
    assert SeqNonces(Flat(m))[..k] == SeqNonces(Flat(m)[..k]);
  }

  method CapIndex(ghost m: TxMap, h: seq<uint64>, k: nat) returns (r: seq<uint64>)
    requires WellKeyed(m) && h == SeqNonces(Flat(m)) && k <= |m|
    ensures Indexed(Lowest(m, k), r)
  {
    hide Flat, Heaps.IsHeap, SeqNonces, Lowest;
    FlatIsFlat(m);
    NonceCount(Flat(m));
    CappedIndex(m, k);
    r := Heaps.Init(h[..k], NonceLess);
    Reindex(Lowest(m, k), r);
  }

  /** What Ready takes: the run from the lowest nonce, provided that nonce is not above `start`. */
  function ReadyTxs(m: TxMap, start: uint64): TxMap {
    if m.Keys == {} || MinKey(m) > start then map[] else Run(m)
  }

  lemma TxsExtend(m: TxMap, n: uint64, tx: Tx)
    requires n !in m && WellKeyed(m) && tx.nonce == n
    ensures multiset(Txs(m[n := tx])) == multiset(Txs(m)) + multiset{tx}
  {
    assert tx !in Txs(m);
    var m' := m[n := tx];
    assert Txs(m') == Txs(m) + {tx} by {
      assert m'[n] == tx;
      forall x | x in Txs(m) ensures x in Txs(m') {
        var k :| k in m && m[k] == x;
        assert m'[k] == x;
      }
    }
  }

  lemma ListStep(m: TxMap, todo: set<uint64>, n: uint64)
    requires WellKeyed(m) && todo <= m.Keys && n in todo
    ensures multiset(Txs(m - (todo - {n}))) == multiset(Txs(m - todo)) + multiset{m[n]}
  {
    TxsExtend(m - todo, n, m[n]);
    assert m - (todo - {n}) == (m - todo)[n := m[n]];
  }

  lemma TxsSize(m: TxMap)
    requires WellKeyed(m)
    ensures |Txs(m)| == |m|
    decreases |m|
  {
    if m.Keys != {} {
      var n :| n in m.Keys;
      var rest := m - {n};
      assert m.Keys == rest.Keys + {n};
      TxsSize(rest);
      assert rest[n := m[n]] == m;
      TxsExtend(rest, n, m[n]);
      assert |multiset(Txs(m))| == |Txs(m)| && |multiset(Txs(rest))| == |Txs(rest)|;
    }
  }

  /** A sorted permutation of the transactions is the listing. */
  lemma SortedTxs(m: TxMap, s: seq<Tx>)
    requires WellKeyed(m) && multiset(s) == multiset(Txs(m))
    requires forall i, j :: 0 <= i < j < |s| ==> !(s[j].nonce < s[i].nonce)
    ensures s == Flat(m)
  {
    hide Flat;
    TxsSize(m);
    assert |s| == |multiset(s)| == |Txs(m)|;
    forall i | 0 <= i < |s| ensures Holds(m, s[i]) {
      assert s[i] in multiset(s);
      assert s[i] in Txs(m);
    }
    forall i, j | 0 <= i < j < |s| ensures s[i].nonce < s[j].nonce {
      Distinct(s, i, j);
      assert Holds(m, s[i]) && Holds(m, s[j]);
    }
    FlatIsFlat(m);
    FlatUnique(m, s, Flat(m));
  }

  class TxSortedMap {
    var items: TxMap
    var index: seq<uint64>
    var cache: Option<seq<Tx>>

    ghost predicate Valid() reads this {
      && WellKeyed(items)
      && Indexed(items, index)
      && (cache.Some? ==> cache.value == Flat(items))
    }

    constructor ()
      ensures Valid() && items == map[]
    {
      items, index, cache := map[], [], None;
    }

    method Get(nonce: uint64) returns (tx: Option<Tx>)
      ensures tx == if nonce in items then Some(items[nonce]) else None
    {
      tx := if nonce in items then Some(items[nonce]) else None;
    }

    method Put(tx: Tx)
      requires Valid()
      modifies this
      ensures Valid() && items == old(items)[tx.nonce := tx]
    {
      hide Flat, Indexed, Heaps.IsHeap, Heaps.StrictWeak;
      IndexIsHeap(items, index);
      if tx.nonce !in items {
        index := Heaps.Push(index, NonceLess, tx.nonce);
        PushedIndex(items, index, tx.nonce, tx);
      } else {
        SameIndex(items, index, tx.nonce, tx);
      }
      items, cache := items[tx.nonce := tx], None;
    }

    method Forward(threshold: uint64) returns (removed: seq<Tx>)
      requires Valid()
      modifies this
      ensures Valid() && items == AtLeast(old(items), threshold)
      ensures removed == Flat(Below(old(items), threshold))
      ensures (cache.Some? <==> old(cache.Some?))
    {
      hide Flat, Indexed;
      ghost var all := items;
      items, index, removed := PopBelow(items, index, threshold);
      FlatCut(all, threshold);
      if cache.Some? {
        cache := Some(cache.value[|removed|..]);
      }
    }

    /** The map is walked in an arbitrary order. */
    method FilterOut(filter: Tx -> bool) returns (removed: seq<Tx>)
      requires WellKeyed(items) && (cache.Some? ==> cache.value == Flat(items))
      modifies this`items, this`cache
      ensures items == Keep(old(items), filter)
      ensures multiset(removed) == multiset(Txs(Drop(old(items), filter)))
      ensures removed == [] <==> Drop(old(items), filter) == map[]
      ensures cache == if removed == [] then old(cache) else None
    {
      hide Flat;
      removed := [];
      ghost var all := items;
      ghost var done: TxMap := map[];
      var todo := items;
      while todo.Keys != {}
        invariant Filtering(all, filter, todo, items, done)
        invariant multiset(removed) == multiset(Txs(done))
        invariant removed == [] <==> done == map[]
        invariant cache == old(cache)
        decreases |todo|
      {
        var nonce :| nonce in todo.Keys;
        var tx := todo[nonce];
        FilterStep(all, filter, todo, items, done, nonce);
        if filter(tx) {
          TxsExtend(done, nonce, tx);
          done := done[nonce := tx];
          removed := removed + [tx];
          items := items - {nonce};
        }
        todo := todo - {nonce};
      }
      assert done == Drop(all, filter) && items == Keep(all, filter);
      if |removed| > 0 {
        cache := None;
      }
    }

    method Reheap()
      requires WellKeyed(items)
      modifies this`index, this`cache
      ensures Valid() && cache == None
    {
      var h := [];
      var todo := items.Keys;
      while todo != {}
        invariant todo <= items.Keys
        invariant multiset(h) == multiset(items.Keys - todo)
      {
        var nonce :| nonce in todo;
        assert items.Keys - (todo - {nonce}) == (items.Keys - todo) + {nonce};
        h := h + [nonce];
        todo := todo - {nonce};
      }
      assert items.Keys - todo == items.Keys;
      index := Heaps.Init(h, NonceLess);
      cache := None;
    }

    method Filter(filter: Tx -> bool) returns (removed: seq<Tx>)
      requires Valid()
      modifies this
      ensures Valid() && items == Keep(old(items), filter)
      ensures multiset(removed) == multiset(Txs(Drop(old(items), filter)))
      ensures removed == [] <==> Drop(old(items), filter) == map[]
    {
      removed := FilterOut(filter);
      if |removed| > 0 {
        Reheap();
      } else {
        assert items == old(items);
      }
    }

    method Cap(threshold: nat) returns (drops: seq<Tx>)
      requires Valid()
      modifies this
      ensures Valid() && items == Lowest(old(items), threshold)
      ensures drops == Reverse(Flat(Highest(old(items), threshold)))
    {
      if |items| <= threshold {
        return [];
      }
      hide Flat, Indexed, Lowest, Highest, Reverse, SeqNonces;
      ghost var all := items;
      index := SortIndex(items, index);
      items, drops := DropHighest(items, index, threshold);
      index := CapIndex(all, index, threshold);
      FlatSplit(all, threshold);
      if cache.Some? {
        cache := Some(cache.value[..|cache.value| - |drops|]);
      }
    }

    method Remove(nonce: uint64) returns (found: bool)
      requires Valid()
      modifies this
      ensures Valid() && found == (nonce in old(items)) && items == old(items) - {nonce}
    {
      hide Flat, Indexed, Heaps.IsHeap, Heaps.StrictWeak;
      if nonce !in items {
        assert items - {nonce} == items;
        return false;
      }
      IndexIsHeap(items, index);
      var i := PositionOf(index, nonce) by { InIndex(items, index, nonce); }
      index := Heaps.Remove(index, NonceLess, i);
      PoppedIndex(items, index, nonce);
      items, cache := items - {nonce}, None;
      found := true;
    }

    method Ready(start: uint64) returns (ready: seq<Tx>)
      requires Valid()
      modifies this
      ensures Valid()
      ensures var taken := ReadyTxs(old(items), start);
              ready == Flat(taken) && items == old(items) - taken.Keys
    {
      HeadIsMin(items, index);
      if |index| == 0 || index[0] > start {
        assert items - {} == items;
        return [];
      }
      items, index, ready := TakeRun(items, index);
      cache := None;
    }

    method Len() returns (n: nat)
      ensures n == |items|
    {
      n := |items|;
    }

    method Flatten() returns (txs: seq<Tx>)
      requires Valid()
      modifies this`cache
      ensures Valid() && txs == Flat(items)
    {
      hide Flat, Indexed;
      if cache.None? {
        var list := [];
        var todo := items;
        while todo.Keys != {}
          invariant todo.Keys <= items.Keys
          invariant forall n :: n in todo ==> todo[n] == items[n]
          invariant multiset(list) == multiset(Txs(items - todo.Keys))
          decreases |todo|
        {
          var nonce :| nonce in todo.Keys;
          assert todo.Keys == (todo - {nonce}).Keys + {nonce};
          ListStep(items, todo.Keys, nonce);
          list := list + [todo[nonce]];
          todo := todo - {nonce};
        }
        assert items - todo.Keys == items;
        list := Sort(list, (a: Tx, b: Tx) => a.nonce < b.nonce);
        SortedTxs(items, list);
        cache := Some(list);
      }
      txs := cache.value;
    }

    method LastElement() returns (tx: Tx)
      requires Valid() && items.Keys != {}
      modifies this`cache
      ensures Valid() && tx == Flat(items)[|items| - 1]
    {
      var list := Flatten();
      tx := list[|list| - 1];
    }
  }
}
