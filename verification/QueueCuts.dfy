/** What truncateQueue takes out of the queued lists. */
module QueueCuts {
  import opened Transactions
  import opened TxLists
  import opened PoolContent
  import opened PoolTotals

  /** The lists that may be cut. */
  ghost function Remote(q: Lists, exempt: set<Address>): Lists { map a | a in q && a !in exempt :: q[a] }

  ghost predicate SameBut(q: Lists, q': Lists, a: Address) { q' - {a} == q - {a} }

  function Smaller(x: int, y: int): int { if x <= y then x else y }

  ghost predicate Shorter(q: Lists, q': Lists, a: Address) { |Items(q', a)| < |Items(q, a)| }

  /** Account `a` kept its lowest nonces only. */
  ghost predicate KeptLowest(q: Lists, q': Lists, a: Address) {
    |Items(q', a)| <= |Items(q, a)| && Items(q', a) == Lowest(Items(q, a), |Items(q', a)|)
  }

  /** Of `b` and a shortened account, the shortened one has the later heartbeat, and it is the
      only one left that was cut in part. */
  ghost predicate LatestFirst(q: Lists, q': Lists, beats: map<Address, nat>, a: Address, b: Address) {
    Shorter(q, q', a) && b in q' ==>
      && a in beats && b in beats && beats[b] <= beats[a]
      && (a in q' && Shorter(q, q', b) ==> a == b)
  }

  /** Exactly the overflow is gone, or all that may be cut; accounts with the latest heartbeats went
      first, all but one of the shortened accounts went entirely, and that one lost its highest nonces. */
  ghost predicate QueueTrimmed(q: Lists, q': Lists, exempt: set<Address>, beats: map<Address, nat>, limit: nat) {
    && Total(q) - Total(q') == Smaller(Total(q) - limit, Total(Remote(q, exempt)))
    && (Total(q') <= limit || forall a :: a in q' ==> a in exempt)
    && (forall a :: a in exempt ==> Items(q', a) == Items(q, a))
    && (forall a :: KeptLowest(q, q', a))
    && (forall a, b :: b !in exempt ==> LatestFirst(q, q', beats, a, b))
  }

  /** The accounts already looked at have the latest heartbeats. */
  ghost predicate Ordered(ages: map<Address, nat>, rest: map<Address, nat>) {
    && rest.Keys <= ages.Keys && (forall a :: a in rest ==> rest[a] == ages[a])
    && (forall a, b :: a in ages && a !in rest && b in rest ==> ages[b] <= ages[a])
  }

  ghost predicate Kept(q: Lists, q': Lists, ages: map<Address, nat>, rest: map<Address, nat>) {
    && (forall a :: a in rest || a !in ages ==> Items(q', a) == Items(q, a))
    && (forall a :: KeptLowest(q, q', a))
  }

  ghost predicate Final(q': Lists, ages: map<Address, nat>, rest: map<Address, nat>, a: Address) {
    a in ages && forall b :: b in ages && b !in rest ==> ages[a] <= ages[b] && (b in q' ==> b == a)
  }

  /** An account looked at and not emptied is the last one looked at. */
  ghost predicate Spared(q': Lists, ages: map<Address, nat>, rest: map<Address, nat>, drop: int) {
    forall a :: a in ages && a !in rest && a in q' ==> drop == 0 && Final(q', ages, rest, a)
  }

  /** `rest` are the accounts still to be looked at; `drop` of `all` transactions are still to go. */
  ghost predicate Trimming(q: Lists, q': Lists, exempt: set<Address>, ages: map<Address, nat>, rest: map<Address, nat>,
                           all: int, drop: int) {
    && ages.Keys == Remote(q, exempt).Keys
    && Ordered(ages, rest)
    && Kept(q, q', ages, rest)
    && Spared(q', ages, rest, drop)
    && 0 <= drop <= all
    && Total(q) - Total(q') == all - drop == Total(Remote(q, exempt)) - Total(Remote(q', exempt))
  }

  lemma StartTrimming(q: Lists, exempt: set<Address>, ages: map<Address, nat>, all: nat)
    requires ages.Keys == Remote(q, exempt).Keys
    ensures Trimming(q, q, exempt, ages, ages, all, all)
  {
    hide Total, Flat;
  }

  lemma TrimmingAt(q: Lists, q': Lists, exempt: set<Address>, ages: map<Address, nat>, rest: map<Address, nat>,
                   all: int, drop: int, a: Address)
    requires Trimming(q, q', exempt, ages, rest, all, drop) && a in rest && NoneEmpty(q)
    ensures a in q && a in q' && q'[a].items == q[a].items && Items(q, a) == q[a].items
  {
    hide Total, KeptLowest, Lowest;
    assert a in ages && a in q && q[a].items.Keys != {};
    assert Items(q', a) == Items(q, a);
  }

  lemma TotalOf(q: Lists, a: Address)
    ensures Total(q) == |Items(q, a)| + Total(q - {a})
  {
    hide Total;
    assert a !in q ==> q == q - {a};
    if a in q { TotalMinus(q, a); }
  }

  lemma TotalSwap(q: Lists, q': Lists, a: Address)
    requires SameBut(q, q', a)
    ensures Total(q') == Total(q) - |Items(q, a)| + |Items(q', a)|
  {
    hide Total;
    TotalOf(q, a);
    TotalOf(q', a);
  }

  lemma RestKept(q: Lists, q1: Lists, q2: Lists, ages: map<Address, nat>, rest: map<Address, nat>, a: Address)
    requires Kept(q, q1, ages, rest) && a in rest
    requires |Items(q2, a)| <= |Items(q, a)| && Items(q2, a) == Lowest(Items(q, a), |Items(q2, a)|)
    ensures KeptLowest(q, q2, a) && Items(q1, a) == Items(q, a)
  {
  }

  lemma RemoteKeys(q: Lists, exempt: set<Address>, ages: map<Address, nat>, rest: map<Address, nat>, a: Address)
    requires ages.Keys == Remote(q, exempt).Keys && Ordered(ages, rest) && a in rest
    ensures a !in exempt && rest.Keys <= ages.Keys
  {
  }

  lemma NextOrdered(ages: map<Address, nat>, rest: map<Address, nat>, a: Address)
    requires Ordered(ages, rest) && a in rest && (forall b :: b in rest ==> rest[b] <= rest[a])
    ensures Ordered(ages, rest - {a}) && |rest - {a}| < |rest|
  {
    assert |rest - {a}| < |rest| by { assert rest.Keys == (rest - {a}).Keys + {a}; }
  }

  lemma NextSpared(q1: Lists, q2: Lists, ages: map<Address, nat>, rest: map<Address, nat>, drop: int, drop': int, a: Address)
    requires Ordered(ages, rest) && a in rest && (forall b :: b in rest ==> rest[b] <= rest[a])
    requires Spared(q1, ages, rest, drop) && drop > 0
    requires forall b :: b != a ==> (b in q2 <==> b in q1)
    requires a in q2 ==> drop' == 0
    ensures Spared(q2, ages, rest - {a}, drop')
  {
  }

  lemma NextKept(q: Lists, q1: Lists, q2: Lists, ages: map<Address, nat>, rest: map<Address, nat>, a: Address)
    requires Kept(q, q1, ages, rest) && a in rest && rest.Keys <= ages.Keys
    requires forall b :: b != a ==> Items(q2, b) == Items(q1, b)
    requires KeptLowest(q, q2, a)
    ensures Kept(q, q2, ages, rest - {a})
  {
    hide Lowest, Flat;
    forall b ensures KeptLowest(q, q2, b) { assert KeptLowest(q, q1, b); }
  }

  lemma OthersSame(q1: Lists, q2: Lists, a: Address)
    requires SameBut(q1, q2, a)
    ensures forall b :: b != a ==> (b in q2 <==> b in q1) && Items(q2, b) == Items(q1, b) && (b in q1 ==> q2[b] == q1[b])
  {
    forall b | b != a ensures (b in q2 <==> b in q1) && (b in q1 ==> q2[b] == q1[b]) {
      assert b in q2 <==> b in q2 - {a};
      assert b in q1 <==> b in q1 - {a};
    }
  }

  lemma NextTotals(q1: Lists, q2: Lists, exempt: set<Address>, a: Address)
    requires SameBut(q1, q2, a) && a !in exempt
    ensures Total(q2) == Total(q1) - |Items(q1, a)| + |Items(q2, a)|
    ensures Total(Remote(q2, exempt)) == Total(Remote(q1, exempt)) - |Items(q1, a)| + |Items(q2, a)|
  {
    hide Total;
    TotalSwap(q1, q2, a);
    OthersSame(q1, q2, a);
    assert SameBut(Remote(q1, exempt), Remote(q2, exempt), a);
    TotalSwap(Remote(q1, exempt), Remote(q2, exempt), a);
  }

  lemma NextTrimming(q: Lists, q1: Lists, q2: Lists, exempt: set<Address>, ages: map<Address, nat>, rest: map<Address, nat>,
                     all: int, drop: int, a: Address)
    requires Trimming(q, q1, exempt, ages, rest, all, drop) && drop > 0
    requires a in rest && (forall b :: b in rest ==> rest[b] <= rest[a])
    requires SameBut(q1, q2, a) && WellKeyed(Items(q, a)) && NoneEmpty(q2)
    requires Items(q2, a) == Lowest(Items(q, a), |Items(q, a)| - Smaller(|Items(q, a)|, drop))
    ensures Trimming(q, q2, exempt, ages, rest - {a}, all, drop - Smaller(|Items(q, a)|, drop))
    ensures |rest - {a}| < |rest|
  {
    hide Total, Lowest, Flat, WellKeyed, KeptLowest, Ordered, Kept, Remote, Spared, SameBut;
    NextOrdered(ages, rest, a);
    var m := Items(q, a);
    FlatSplit(m, |m| - Smaller(|m|, drop));
    assert KeptLowest(q, q2, a) && Items(q1, a) == m by { RestKept(q, q1, q2, ages, rest, a); }
    NextTotals(q1, q2, exempt, a) by { RemoteKeys(q, exempt, ages, rest, a); }
    OthersSame(q1, q2, a);
    NextKept(q, q1, q2, ages, rest, a) by { RemoteKeys(q, exempt, ages, rest, a); }
    NextSpared(q1, q2, ages, rest, drop, drop - Smaller(|m|, drop), a) by {
      assert a in q2 ==> q2[a].items.Keys != {} && |Items(q2, a)| > 0;
    }
  }

  lemma ExemptKept(q: Lists, q': Lists, exempt: set<Address>, ages: map<Address, nat>, rest: map<Address, nat>)
    requires ages.Keys == Remote(q, exempt).Keys && Kept(q, q', ages, rest)
    ensures forall a :: a in exempt ==> Items(q', a) == Items(q, a)
    ensures forall a :: KeptLowest(q, q', a)
  {
    hide Lowest;
  }

  lemma Listed(q: Lists, q': Lists, exempt: set<Address>, ages: map<Address, nat>, rest: map<Address, nat>, a: Address)
    requires ages.Keys == Remote(q, exempt).Keys && Kept(q, q', ages, rest) && NoneEmpty(q') && a in q' && a !in exempt
    ensures a in ages
  {
    hide KeptLowest;
    assert q'[a].items.Keys != {} && Items(q', a).Keys != {};
  }

  lemma Exhausted(q: Lists, q': Lists, exempt: set<Address>, ages: map<Address, nat>, rest: map<Address, nat>, all: int, drop: int)
    requires Trimming(q, q', exempt, ages, rest, all, drop) && NoneEmpty(q')
    ensures drop != 0 && rest.Keys == {} ==> Remote(q', exempt).Keys == {} && forall a :: a in q' ==> a in exempt
  {
    hide Total, Flat, Lowest, KeptLowest;
    forall a | a in q' && a !in exempt ensures a in ages { Listed(q, q', exempt, ages, rest, a); }
  }

  lemma Latest(q: Lists, q': Lists, exempt: set<Address>, ages: map<Address, nat>, rest: map<Address, nat>,
               beats: map<Address, nat>, all: int, drop: int, a: Address, b: Address)
    requires Trimming(q, q', exempt, ages, rest, all, drop) && NoneEmpty(q') && b !in exempt
    requires ages.Keys <= beats.Keys && forall a :: a in ages ==> ages[a] == beats[a]
    ensures LatestFirst(q, q', beats, a, b)
  {
    hide Total, Flat, Lowest, KeptLowest, Remote;
    assert Shorter(q, q', a) ==> a in ages && a !in rest;
    if b in q' {
      Listed(q, q', exempt, ages, rest, b);
    }
  }

  lemma NoTotal(q: Lists)
    ensures q.Keys == {} ==> Total(q) == 0
  {
  }

  lemma EndTrimming(q: Lists, q': Lists, exempt: set<Address>, ages: map<Address, nat>, rest: map<Address, nat>,
                    beats: map<Address, nat>, limit: nat, drop: int)
    requires Trimming(q, q', exempt, ages, rest, Total(q) - limit, drop) && (drop == 0 || rest.Keys == {})
    requires ages.Keys <= beats.Keys && forall a :: a in ages ==> ages[a] == beats[a]
    requires NoneEmpty(q')
    ensures QueueTrimmed(q, q', exempt, beats, limit)
  {
    hide Total, Flat, Lowest, KeptLowest, Ordered, Kept, Remote, Final, LatestFirst;
    Exhausted(q, q', exempt, ages, rest, Total(q) - limit, drop);
    NoTotal(Remote(q', exempt));
    assert forall a :: a in exempt ==> Items(q', a) == Items(q, a) by { ExemptKept(q, q', exempt, ages, rest); }
    assert forall a :: KeptLowest(q, q', a) by { ExemptKept(q, q', exempt, ages, rest); }
    forall a, b | b !in exempt ensures LatestFirst(q, q', beats, a, b) {
      Latest(q, q', exempt, ages, rest, beats, Total(q) - limit, drop, a, b);
    }
  }

  lemma TrimLimited(q: Lists, q': Lists, exempt: set<Address>, beats: map<Address, nat>, limit: nat)
    requires QueueTrimmed(q, q', exempt, beats, limit)
    ensures Total(q') <= limit || forall a :: a in q' ==> a in exempt
  {
  }
}
