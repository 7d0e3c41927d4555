/** Transactions, and the finite maps from nonce to transaction that the pool is made of. */
module Transactions {
  const MAX_UINT64 := 0xFFFF_FFFF_FFFF_FFFF
  type uint64 = n: int | 0 <= n <= MAX_UINT64
  type byte = n: int | 0 <= n < 256
  type Address = nat
  type Positive = n: int | 0 < n witness 1

  datatype Option<+T> = None | Some(value: T)

  /** A transaction. `sender` is the address recovered from the signature when `signed` holds;
      otherwise no sender can be derived. `size` is the length of the encoding in bytes. */
  datatype Tx = Tx(sender: Address, signed: bool, nonce: uint64, gasPrice: nat, gas: uint64,
                   value: int, creation: bool, data: seq<byte>, size: Positive) {
    /** value + gasPrice * gas */
    function Cost(): int { value + gasPrice * gas }

    function Hash(): TxHash { HashOf(this) }
  }

  /** Hashes are injective: a hash stands for the transaction it was computed from. */
  datatype TxHash = HashOf(preimage: Tx)

  const TX_SLOT_SIZE := 32 * 1024
  const TX_MAX_SIZE := 4 * TX_SLOT_SIZE

  function NumSlots(tx: Tx): (n: nat)
    ensures n >= 1
  {
    (tx.size + TX_SLOT_SIZE - 1) / TX_SLOT_SIZE
  }

  /** Slots are 32 kB each, and a transaction takes as many as it needs. */
  lemma SlotsExactly(tx: Tx)
    ensures (NumSlots(tx) - 1) * 32768 < tx.size <= NumSlots(tx) * 32768
  {
  }

  /** The nonce after `n`, in 64-bit arithmetic. */
  function NextNonce(n: uint64): uint64 { if n == MAX_UINT64 then 0 else n + 1 }

  type TxMap = map<uint64, Tx>

  ghost predicate WellKeyed(m: TxMap) {
    forall n :: n in m ==> m[n].nonce == n
  }

  ghost function Txs(m: TxMap): set<Tx> { set n | n in m :: m[n] }

  function AtLeast(m: TxMap, t: uint64): TxMap { map n | n in m && t <= n :: m[n] }
  function Below(m: TxMap, t: uint64): TxMap { map n | n in m && n < t :: m[n] }
  function Above(m: TxMap, t: uint64): TxMap { map n | n in m && t < n :: m[n] }
  function Keep(m: TxMap, f: Tx -> bool): TxMap { map n | n in m && !f(m[n]) :: m[n] }
  function Drop(m: TxMap, f: Tx -> bool): TxMap { map n | n in m && f(m[n]) :: m[n] }

  predicate Least(s: set<uint64>, n: uint64) {
    n in s && forall k :: k in s ==> n <= k
  }

  lemma {:induction false} HasLeast(s: set<uint64>)
    requires s != {}
    ensures exists n :: Least(s, n)
  {
    var x :| x in s;
    var t := s - {x};
    if t == {} {
      assert s == {x};
      assert Least(s, x);
    } else {
      HasLeast(t);
      var y :| Least(t, y);
      forall k | k in s ensures k in t || k == x { }
      assert Least(s, if x < y then x else y);
    }
  }

  function MinKey(m: TxMap): (n: uint64)
    requires m.Keys != {}
    ensures n in m && forall k :: k in m ==> n <= k
  {
    HasLeast(m.Keys);
    var n :| Least(m.Keys, n);
    n
  }

  /** The transactions in order of nonce. */
  function Flat(m: TxMap): (s: seq<Tx>)
    ensures |s| == |m|
    decreases |m|
  {
    if m.Keys == {} then []
    else
      var n := MinKey(m);
      var rest := m - {n};
      assert m.Keys == rest.Keys + {n};
      [m[n]] + Flat(rest)
  }

  ghost predicate Sorted(s: seq<Tx>) {
    forall i, j :: 0 <= i < j < |s| ==> s[i].nonce < s[j].nonce
  }

  ghost predicate Holds(m: TxMap, tx: Tx) {
    tx.nonce in m && m[tx.nonce] == tx
  }

  /** `s` lists the transactions of `m` in order of nonce. */
  ghost predicate IsFlat(s: seq<Tx>, m: TxMap) {
    |s| == |m| && Sorted(s) && forall i :: 0 <= i < |s| ==> Holds(m, s[i])
  }

  lemma ConsIsFlat(m: TxMap, n: uint64, f: seq<Tx>)
    requires WellKeyed(m) && n in m && (forall k :: k in m ==> n <= k) && IsFlat(f, m - {n})
    ensures IsFlat([m[n]] + f, m)
  {
    var s := [m[n]] + f;
    assert m.Keys == (m - {n}).Keys + {n};
    forall i | 0 <= i < |s| ensures Holds(m, s[i]) {
      if i > 0 { assert Holds(m - {n}, f[i - 1]); }
    }
    forall i, j | 0 <= i < j < |s| ensures s[i].nonce < s[j].nonce {
      assert Holds(m - {n}, f[j - 1]);
    }
  }

  lemma {:induction false} FlatIsFlat(m: TxMap)
    requires WellKeyed(m)
    ensures IsFlat(Flat(m), m)
    decreases |m|
  {
    if m.Keys != {} {
      var n := MinKey(m);
      var rest := m - {n};
      assert m.Keys == rest.Keys + {n};
      FlatIsFlat(rest);
      ConsIsFlat(m, n, Flat(rest));
    }
  }

  ghost function Nonces(s: seq<Tx>): set<uint64> { set i | 0 <= i < |s| :: s[i].nonce }

  lemma {:induction false} NoncesSize(s: seq<Tx>)
    requires Sorted(s)
    ensures |Nonces(s)| == |s|
  {
    if s != [] {
      var k := |s| - 1;
      var t := s[..k];
      NoncesSize(t);
      assert Nonces(s) == Nonces(t) + {s[k].nonce};
    }
  }

  lemma SubsetSize(a: set<uint64>, b: set<uint64>)
    requires a <= b
    ensures |a| <= |b| && (|a| == |b| ==> a == b)
  {
    assert b == a + (b - a);
    if |a| == |b| { assert |b - a| == 0; }
  }

  /** A listing has every transaction of the map. */
  lemma Position(s: seq<Tx>, m: TxMap, n: uint64) returns (i: int)
    requires WellKeyed(m) && IsFlat(s, m) && n in m
    ensures 0 <= i < |s| && s[i] == m[n]
  {
    NoncesSize(s);
    SubsetSize(Nonces(s), m.Keys);
    assert n in Nonces(s);
    i :| 0 <= i < |s| && s[i].nonce == n;
    assert Holds(m, s[i]);
  }

  lemma TailIsFlat(m: TxMap, s: seq<Tx>)
    requires WellKeyed(m) && IsFlat(s, m) && s != []
    ensures IsFlat(s[1..], m - {s[0].nonce})
  {
    var rest := m - {s[0].nonce};
    assert Holds(m, s[0]);
    assert m.Keys == rest.Keys + {s[0].nonce};
    forall i | 0 <= i < |s| - 1 ensures Holds(rest, s[1..][i]) {
      assert Holds(m, s[i + 1]);
    }
  }

  /** Only one listing is sorted. */
  lemma {:induction false} FlatUnique(m: TxMap, s: seq<Tx>, t: seq<Tx>)
    requires WellKeyed(m) && IsFlat(s, m) && IsFlat(t, m)
    ensures s == t
  {
    if s != [] {
      var n := s[0].nonce;
      assert Holds(m, s[0]);
      var i := Position(t, m, n);
      assert Holds(m, t[0]);
      var j := Position(s, m, t[0].nonce);
      assert i == 0 && j == 0;
      var rest := m - {n};
      assert m.Keys == rest.Keys + {n};
      TailIsFlat(m, s);
      TailIsFlat(m, t);
      FlatUnique(rest, s[1..], t[1..]);
      assert s == [s[0]] + s[1..] && t == [t[0]] + t[1..];
    }
  }

  lemma JoinSorted(a: seq<Tx>, b: seq<Tx>, t: uint64)
    requires Sorted(a) && Sorted(b)
    requires forall i :: 0 <= i < |a + b| ==> (i < |a| <==> (a + b)[i].nonce < t)
    ensures Sorted(a + b)
  {
  }

  lemma JoinIsFlat(m: TxMap, t: uint64, a: seq<Tx>, b: seq<Tx>)
    requires WellKeyed(m) && IsFlat(a, Below(m, t)) && IsFlat(b, AtLeast(m, t))
    ensures IsFlat(a + b, m)
  {
    hide WellKeyed;
    var lo, hi := Below(m, t), AtLeast(m, t);
    assert |a| + |b| == |m| by { assert m.Keys == lo.Keys + hi.Keys; }
    var f := a + b;
    forall i | 0 <= i < |f| ensures Holds(m, f[i]) && (i < |a| <==> f[i].nonce < t) {
      if i < |a| { assert Holds(lo, a[i]); } else { assert Holds(hi, b[i - |a|]); }
    }
    JoinSorted(a, b, t);
  }

  /** Cutting a map at a nonce cuts its listing in two. */
  lemma FlatCut(m: TxMap, t: uint64)
    requires WellKeyed(m)
    ensures Flat(m) == Flat(Below(m, t)) + Flat(AtLeast(m, t))
  {
    var lo, hi := Below(m, t), AtLeast(m, t);
    FlatIsFlat(lo);
    FlatIsFlat(hi);
    JoinIsFlat(m, t, Flat(lo), Flat(hi));
    FlatIsFlat(m);
    FlatUnique(m, Flat(m), Flat(lo) + Flat(hi));
  }

  /** The `k` transactions with the lowest nonces (all of them if there are fewer). */
  function Lowest(m: TxMap, k: nat): TxMap {
    if |m| <= k then m else Below(m, Flat(m)[k].nonce)
  }

  /** All but the `k` transactions with the lowest nonces. */
  function Highest(m: TxMap, k: nat): TxMap {
    if |m| <= k then map[] else AtLeast(m, Flat(m)[k].nonce)
  }

  lemma CutPoint(lo: seq<Tx>, hi: seq<Tx>, t: uint64, k: int)
    requires Sorted(lo + hi) && 0 <= k < |lo + hi| && (lo + hi)[k].nonce == t
    requires forall i :: 0 <= i < |lo| ==> lo[i].nonce < t
    requires forall i :: 0 <= i < |hi| ==> t <= hi[i].nonce
    ensures k == |lo|
  {
    var f := lo + hi;
    assert k >= |lo|;
    assert f[|lo|] == hi[0];
  }

  lemma FlatBounds(m: TxMap, t: uint64)
    requires WellKeyed(m)
    ensures forall i :: 0 <= i < |Flat(Below(m, t))| ==> Flat(Below(m, t))[i].nonce < t
    ensures forall i :: 0 <= i < |Flat(AtLeast(m, t))| ==> t <= Flat(AtLeast(m, t))[i].nonce
  {
    var lo, hi := Below(m, t), AtLeast(m, t);
    FlatIsFlat(lo);
    FlatIsFlat(hi);
    assert forall i :: 0 <= i < |Flat(lo)| ==> Holds(lo, Flat(lo)[i]);
    assert forall i :: 0 <= i < |Flat(hi)| ==> Holds(hi, Flat(hi)[i]);
  }

  lemma FlatSplit(m: TxMap, k: nat)
    requires WellKeyed(m) && k <= |m|
    ensures Flat(Lowest(m, k)) == Flat(m)[..k]
    ensures Flat(Highest(m, k)) == Flat(m)[k..]
    ensures |Lowest(m, k)| == k
  {
    hide Flat;
    var f := Flat(m);
    if k == |m| {
      assert f[..k] == f && f[k..] == [];
      assert Flat(Highest(m, k)) == [];
    } else {
      var t := f[k].nonce;
      var lo, hi := Flat(Below(m, t)), Flat(AtLeast(m, t));
      FlatCut(m, t);
      FlatIsFlat(m);
      FlatBounds(m, t);
      CutPoint(lo, hi, t, k);
      assert (lo + hi)[..k] == lo && (lo + hi)[k..] == hi;
    }
  }

  lemma BelowTwice(m: TxMap, t: uint64, u: uint64)
    requires u <= t
    ensures Below(Below(m, t), u) == Below(m, u)
  {
  }

  lemma LowestTwice(m: TxMap, j: nat, k: nat)
    requires WellKeyed(m) && k <= j
    ensures Lowest(Lowest(m, j), k) == Lowest(m, k)
  {
    hide Flat;
    if j < |m| {
      FlatSplit(m, j);
      if k < j {
        var f := Flat(m);
        assert f[..j][k] == f[k];
        assert f[k].nonce < f[j].nonce by { FlatIsFlat(m); }
        BelowTwice(m, f[j].nonce, f[k].nonce);
      }
    }
  }

  lemma LowestKeyed(m: TxMap, k: nat)
    requires WellKeyed(m)
    ensures WellKeyed(Lowest(m, k))
  {
  }

  lemma LowestStep(m: TxMap, i: nat)
    requires WellKeyed(m) && 0 < i <= |m|
    ensures Holds(Lowest(m, i), Flat(m)[i - 1]) && Lowest(m, i) - {Flat(m)[i - 1].nonce} == Lowest(m, i - 1)
  {
    hide Flat;
    var f, t := Flat(m), Flat(m)[i - 1].nonce;
    FlatIsFlat(m);
    assert i == |m| ==> Lowest(m, i) == m;
    forall n | n in m && t < n ensures i < |m| && f[i].nonce <= n {
      var j := Position(f, m, n);
    }
    assert Below(m, t) == Lowest(m, i) - {t};
  }

  lemma HighestStep(m: TxMap, i: nat)
    requires WellKeyed(m) && i < |m|
    ensures Holds(Highest(m, i), Flat(m)[i]) && Highest(m, i) - {Flat(m)[i].nonce} == Highest(m, i + 1)
  {
    hide Flat;
    var f, t := Flat(m), Flat(m)[i].nonce;
    FlatIsFlat(m);
    forall n | n in m && t < n ensures i + 1 < |m| && f[i + 1].nonce <= n {
      var j := Position(f, m, n);
    }
    assert Highest(m, i) - {t} == Highest(m, i + 1);
  }

  lemma LastOfFlat(m: TxMap)
    requires WellKeyed(m) && m.Keys != {}
    ensures |m| > 0 && Flat(m)[|m| - 1].nonce in m && forall k :: k in m ==> k <= Flat(m)[|m| - 1].nonce
  {
    hide Flat;
    assert |m| > 0;
    FlatIsFlat(m);
    var f := Flat(m);
    assert Holds(m, f[|m| - 1]);
    forall k | k in m ensures k <= f[|m| - 1].nonce { var i := Position(f, m, k); }
  }

  /** A nonce is among the `k` lowest exactly if there are fewer than `k` below it. */
  lemma LowestCount(m: TxMap, k: nat, n: uint64)
    requires WellKeyed(m)
    ensures n in Lowest(m, k) <==> n in m && |Below(m, n)| < k
  {
    hide Flat;
    if n in m {
      var f := Flat(m);
      FlatIsFlat(m);
      var i := Position(f, m, n);
      FlatCut(m, n);
      FlatBounds(m, n);
      CutPoint(Flat(Below(m, n)), Flat(AtLeast(m, n)), n, i);
      assert |Below(m, n)| == i;
      if k < |m| {
        assert i < k <==> n < f[k].nonce;
      }
    }
  }

  /** The longest run of consecutive nonces from the lowest one. */
  function Run(m: TxMap): TxMap
    requires m.Keys != {}
  {
    map n | n in m && (forall k: uint64 | MinKey(m) <= k <= n :: k in m) :: m[n]
  }

  /** No nonce is missing between two held nonces. */
  ghost predicate GapFree(m: TxMap) {
    forall a, b, k: uint64 :: a in m && b in m && a <= k <= b ==> k in m
  }
}
