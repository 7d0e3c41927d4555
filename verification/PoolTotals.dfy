/** Counting transactions over all accounts, and the fair cut that truncatePending makes. */
module PoolTotals {
  import opened Transactions
  import opened TxLists
  import opened PoolContent

  ghost function Total(lists: Lists): nat
    decreases |lists|
  {
    if lists.Keys == {} then 0
    else
      var a :| a in lists.Keys;
      assert lists.Keys == (lists - {a}).Keys + {a};
      |lists[a].items| + Total(lists - {a})
  }

  lemma TotalPick(lists: Lists) returns (b: Address)
    requires lists.Keys != {}
    ensures b in lists && Total(lists) == |lists[b].items| + Total(lists - {b})
  {
    b :| b in lists.Keys && Total(lists) == |lists[b].items| + Total(lists - {b});
  }

  lemma {:induction false} TotalMinus(lists: Lists, a: Address)
    requires a in lists
    ensures Total(lists) == |lists[a].items| + Total(lists - {a})
    decreases |lists|
  {
    hide Total;
    var b := TotalPick(lists);
    if b != a {
      assert lists.Keys == (lists - {b}).Keys + {b};
      TotalMinus(lists - {b}, a);
      assert lists.Keys == (lists - {a}).Keys + {a};
      TotalMinus(lists - {a}, b);
      assert lists - {a} - {b} == lists - {b} - {a};
    }
  }

  lemma TotalPut(lists: Lists, a: Address, l: AccountList)
    requires a in lists
    ensures Total(Put(lists, a, l)) == Total(lists) - |lists[a].items| + |l.items|
  {
    TotalMinus(lists, a);
    TotalMinus(lists[a := l], a);
    assert lists[a := l] - {a} == lists - {a};
  }

  /** Adds up the lengths of all lists, in an arbitrary order. */
  method Count(lists: Lists) returns (n: nat)
    ensures n == Total(lists)
  {
    n := 0;
    var todo := lists;
    while todo.Keys != {}
      invariant n + Total(todo) == Total(lists)
      decreases |todo|
    {
      var a :| a in todo.Keys;
      TotalMinus(todo, a);
      assert todo.Keys == (todo - {a}).Keys + {a};
      n := n + |todo[a].items|;
      todo := todo - {a};
    }
  }

  /** Every account outside `exempt` cut down to its `cap` lowest nonces. */
  function CutTo(lists: Lists, exempt: set<Address>, cap: nat): Lists {
    map a | a in lists :: if a in exempt then lists[a] else lists[a].(items := Lowest(lists[a].items, cap))
  }

  lemma LowestLen(m: TxMap, k: nat)
    requires WellKeyed(m)
    ensures |Lowest(m, k)| == if |m| <= k then |m| else k
  {
    if k < |m| { FlatSplit(m, k); }
  }

  /** No list is longer than the total. */
  lemma TotalBounds(lists: Lists, a: Address)
    requires a in lists
    ensures |lists[a].items| <= Total(lists)
  {
    TotalMinus(lists, a);
  }

  /** Cutting above every length changes nothing. */
  lemma CutNothing(lists: Lists, exempt: set<Address>, cap: nat)
    requires forall a :: a in lists && a !in exempt ==> |lists[a].items| <= cap
    ensures CutTo(lists, exempt, cap) == lists
  {
  }

  /** The accounts that a cut to `cap` shortens. */
  ghost function Longer(lists: Lists, exempt: set<Address>, cap: nat): set<Address> {
    set a | a in lists && a !in exempt && |lists[a].items| > cap
  }

  lemma CutEmpty(lists: Lists, exempt: set<Address>, cap: nat)
    requires lists.Keys == {}
    ensures Total(CutTo(lists, exempt, cap)) == 0 && |Longer(lists, exempt, cap)| == 0
  {
    assert CutTo(lists, exempt, cap).Keys == {};
    assert Longer(lists, exempt, cap) == {};
  }

  lemma LongerMinus(lists: Lists, exempt: set<Address>, cap: nat, a: Address)
    requires a in lists
    ensures |Longer(lists, exempt, cap)| == |Longer(lists - {a}, exempt, cap)| + (if a !in exempt && |lists[a].items| > cap then 1 else 0)
  {
    var more := if a !in exempt && |lists[a].items| > cap then {a} else {};
    assert Longer(lists, exempt, cap) == Longer(lists - {a}, exempt, cap) + more;
  }

  lemma CutOne(lists: Lists, exempt: set<Address>, cap: nat, a: Address)
    requires a in lists
    ensures Total(CutTo(lists, exempt, cap)) ==
              (if a in exempt then |lists[a].items| else |Lowest(lists[a].items, cap)|) + Total(CutTo(lists - {a}, exempt, cap))
  {
    hide Lowest;
    TotalMinus(CutTo(lists, exempt, cap), a);
    assert CutTo(lists, exempt, cap) - {a} == CutTo(lists - {a}, exempt, cap);
  }

  lemma CutMinus(lists: Lists, exempt: set<Address>, cap: nat, a: Address)
    requires a in lists && WellKeyed(lists[a].items)
    ensures Total(CutTo(lists, exempt, cap)) ==
              (if a in exempt || |lists[a].items| <= cap then |lists[a].items| else cap) + Total(CutTo(lists - {a}, exempt, cap))
  {
    hide Total, CutTo, Lowest;
    LowestLen(lists[a].items, cap);
    CutOne(lists, exempt, cap, a);
  }

  /** Lowering the cap by one costs one transaction for every account that is longer. */
  lemma {:induction false} CutLevel(lists: Lists, exempt: set<Address>, cap: nat)
    requires ListsOk(lists, true)
    ensures Total(CutTo(lists, exempt, cap + 1)) == Total(CutTo(lists, exempt, cap)) + |Longer(lists, exempt, cap)|
    decreases |lists|
  {
    hide Total, CutTo, Lowest, Longer, CapsBound;
    if lists.Keys == {} {
      CutEmpty(lists, exempt, cap);
      CutEmpty(lists, exempt, cap + 1);
    } else {
      var a :| a in lists.Keys;
      var rest := lists - {a};
      assert lists.Keys == rest.Keys + {a};
      CutLevel(rest, exempt, cap);
      CutMinus(lists, exempt, cap, a);
      CutMinus(lists, exempt, cap + 1, a);
      LongerMinus(lists, exempt, cap, a);
    }
  }

  ghost predicate NoRepeats(s: seq<Address>) {
    forall i, j :: 0 <= i < j < |s| ==> s[i] != s[j]
  }

  /** The outcome of truncatePending: one cap for all accounts that are not exempt. It is at least
      `slots`, keeps the total within `limit` unless it is exactly `slots`, and cannot be raised. */
  ghost predicate FairCut(before: Lists, after: Lists, exempt: set<Address>, slots: nat, limit: nat, cap: nat) {
    && cap >= slots
    && after == CutTo(before, exempt, cap)
    && (Total(after) <= limit || cap == slots)
    && Total(CutTo(before, exempt, cap + 1)) > limit
  }

  /** So the cut overshoots the limit by less than the number of accounts it shortens. */
  lemma FairOvershoot(before: Lists, after: Lists, exempt: set<Address>, slots: nat, limit: nat, cap: nat)
    requires ListsOk(before, true) && FairCut(before, after, exempt, slots, limit, cap)
    ensures Total(after) + |Longer(before, exempt, cap)| > limit
  {
    CutLevel(before, exempt, cap);
  }

  /** A higher cap never keeps less. */
  lemma {:induction false} CutGrows(before: Lists, exempt: set<Address>, cap: nat, higher: nat)
    requires ListsOk(before, true) && cap <= higher
    ensures Total(CutTo(before, exempt, cap)) <= Total(CutTo(before, exempt, higher))
    decreases higher - cap
  {
    if cap < higher {
      CutLevel(before, exempt, cap);
      CutGrows(before, exempt, cap + 1, higher);
    }
  }

  /** So no cap above a fair one is within the limit. */
  lemma FairHighest(before: Lists, after: Lists, exempt: set<Address>, slots: nat, limit: nat, cap: nat, higher: nat)
    requires ListsOk(before, true) && FairCut(before, after, exempt, slots, limit, cap) && cap < higher
    ensures Total(CutTo(before, exempt, higher)) > limit
  {
    hide Total, CutTo;
    CutGrows(before, exempt, cap + 1, higher);
  }
}
