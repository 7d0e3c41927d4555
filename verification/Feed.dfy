/** event/feed.go: one-to-many event delivery over channels. */
module Feeds {
  type Channel = nat
  type Value = nat

  /** A select case: slot 0 receives unsubscriptions, the others send to a subscribed channel. */
  datatype Case = RemoveSub | Subscribed(channel: Channel)

  ghost predicate Distinct(s: seq<Case>) { forall i, j :: 0 <= i < j < |s| ==> s[i] != s[j] }

  ghost function Members(s: seq<Case>): set<Case> { set c | c in s }

  function Swap(s: seq<Case>, i: nat, j: nat): seq<Case>
    requires i < |s| && j < |s|
  {
    s[i := s[j]][j := s[i]]
  }

  lemma SwapSame(s: seq<Case>, i: nat, j: nat)
    requires i < |s| && j < |s| && Distinct(s)
    ensures Distinct(Swap(s, i, j)) && Members(Swap(s, i, j)) == Members(s) && |Swap(s, i, j)| == |s|
  {
    var t := Swap(s, i, j);
    assert t[i] == s[j] && t[j] == s[i] && forall k :: 0 <= k < |s| && k != i && k != j ==> t[k] == s[k];
    forall c | c in Members(s) ensures c in Members(t) {
      var k :| 0 <= k < |s| && s[k] == c;
      assert t[if k == i then j else if k == j then i else k] == c;
    }
  }

  function Without(s: seq<Case>, i: nat): seq<Case>
    requires i < |s|
  {
    s[..i] + s[i + 1..]
  }

  lemma WithoutOne(s: seq<Case>, i: nat)
    requires i < |s| && Distinct(s)
    ensures Distinct(Without(s, i)) && Members(Without(s, i)) == Members(s) - {s[i]}
  {
    var t := Without(s, i);
    assert forall k :: 0 <= k < |t| ==> t[k] == s[if k < i then k else k + 1];
    forall c | c in Members(s) - {s[i]} ensures c in Members(t) {
      var k :| 0 <= k < |s| && s[k] == c;
      assert t[if k < i then k else k - 1] == c;
    }
  }

  lemma WithoutRight(s: seq<Case>, t: seq<Case>, i: nat)
    requires i < |t|
    ensures s + Without(t, i) == Without(s + t, |s| + i)
  {
  }

  lemma WithoutLeft(s: seq<Case>, t: seq<Case>, i: nat)
    requires i < |s|
    ensures Without(s, i) + t == Without(s + t, i) && (i > 0 ==> Without(s, i) != [] && Without(s, i)[0] == s[0])
  {
  }

  lemma {:induction false} AtMostOnce(s: seq<Case>, c: Case)
    requires Distinct(s)
    ensures multiset(s)[c] == if c in s then 1 else 0
    decreases |s|
  {
    if s != [] {
      var n := |s| - 1;
      assert s == s[..n] + [s[n]];
      AtMostOnce(s[..n], c);
    }
  }

  /** Where a Send stands: the first `active` cases are still to be served, the others have been. */
  ghost predicate Sending(all: seq<Case>, cases: seq<Case>, active: nat, delivered: set<Channel>, removed: set<Channel>) {
    && 1 <= active <= |cases| && Distinct(cases) && cases[0] == RemoveSub
    && (forall c :: c in cases ==> c in all)
    && (forall c :: c in all ==> c == RemoveSub || (c in cases <==> c.channel !in removed))
    && (forall i :: 1 <= i < active ==> cases[i].Subscribed? && cases[i].channel !in delivered)
    && (forall i :: active <= i < |cases| ==> cases[i].Subscribed? && cases[i].channel in delivered)
    && (forall ch :: ch in delivered ==> Subscribed(ch) in all)
    && (forall ch :: ch in removed ==> Subscribed(ch) in all)
  }

  lemma Deactivated(all: seq<Case>, cases: seq<Case>, active: nat, delivered: set<Channel>, removed: set<Channel>, i: nat)
    requires Sending(all, cases, active, delivered, removed) && 1 <= i < active
    ensures cases[i].Subscribed? && cases[i].channel !in delivered
    ensures Sending(all, Swap(cases, i, active - 1), active - 1, delivered + {cases[i].channel}, removed)
  {
    var t := Swap(cases, i, active - 1);
    SwapSame(cases, i, active - 1);
    forall c ensures c in t <==> c in cases {
      assert c in t <==> c in Members(t);
      assert c in cases <==> c in Members(cases);
    }
  }

  lemma InMembers(s: seq<Case>, c: Case)
    ensures c in s <==> c in Members(s)
  {
  }

  lemma WithoutAt(s: seq<Case>, i: nat)
    requires i < |s|
    ensures |Without(s, i)| == |s| - 1
    ensures forall k :: 0 <= k < i ==> Without(s, i)[k] == s[k]
    ensures forall k :: i <= k < |s| - 1 ==> Without(s, i)[k] == s[k + 1]
  {
  }

  lemma Removed(all: seq<Case>, cases: seq<Case>, active: nat, delivered: set<Channel>, removed: set<Channel>, i: nat)
    requires Sending(all, cases, active, delivered, removed) && 1 <= i < |cases|
    ensures cases[i].Subscribed?
    ensures Sending(all, Without(cases, i), if i < active then active - 1 else active, delivered, removed + {cases[i].channel})
  {
    hide Without, Distinct, Members;
    var t := Without(cases, i);
    WithoutOne(cases, i);
    WithoutAt(cases, i);
    forall c ensures c in t <==> c in cases && c != cases[i] {
      InMembers(t, c);
      InMembers(cases, c);
    }
  }

  /** Everybody who stayed has been served. */
  lemma Served(all: seq<Case>, cases: seq<Case>, delivered: set<Channel>, removed: set<Channel>)
    requires Sending(all, cases, 1, delivered, removed)
    ensures forall ch :: Subscribed(ch) in all && ch !in removed ==> ch in delivered
  {
    forall ch | Subscribed(ch) in all && ch !in removed ensures ch in delivered {
      assert Subscribed(ch) in cases;
      var i :| 0 <= i < |cases| && cases[i] == Subscribed(ch);
    }
  }

  /** What other threads do to the inbox while a Send is in progress. */
  datatype InboxOp = Join(channel: Channel) | Leave(channel: Channel)

  ghost function WithoutCase(s: seq<Case>, c: Case): seq<Case> {
    if s == [] then [] else if s[0] == c then s[1..] else [s[0]] + WithoutCase(s[1..], c)
  }

  /** The inbox after these steps, from an empty one. */
  ghost function Waiting(log: seq<InboxOp>): seq<Case> {
    if log == [] then []
    else
      var before, op := Waiting(log[..|log| - 1]), log[|log| - 1];
      if op.Join? then before + [Subscribed(op.channel)] else WithoutCase(before, Subscribed(op.channel))
  }

  lemma WaitingMore(log: seq<InboxOp>, op: InboxOp)
    ensures Waiting(log + [op]) == if op.Join? then Waiting(log) + [Subscribed(op.channel)] else WithoutCase(Waiting(log), Subscribed(op.channel))
  {
    assert (log + [op])[..|log|] == log;
  }

  /** Deleting what find has found. */
  lemma {:induction false} WithoutFound(s: seq<Case>, i: nat)
    requires i < |s| && s[i] !in s[..i]
    ensures WithoutCase(s, s[i]) == Without(s, i)
    decreases i
  {
    if i > 0 {
      assert s[0] in s[..i];
      assert s[1..][..i - 1] == s[..i][1..];
      WithoutFound(s[1..], i - 1);
    }
  }

  /** Those who wait are distinct and have no case yet. */
  ghost predicate Apart(cases: seq<Case>, inbox: seq<Case>) {
    Distinct(inbox) && forall c :: c in inbox ==> c.Subscribed? && c !in cases
  }

  lemma ApartFewer(cases: seq<Case>, fewer: seq<Case>, inbox: seq<Case>)
    requires Apart(cases, inbox) && forall c :: c in fewer ==> c in cases
    ensures Apart(fewer, inbox)
  {
  }

  lemma ApartJoin(cases: seq<Case>, inbox: seq<Case>, c: Case)
    requires Apart(cases, inbox) && c.Subscribed? && c !in cases && c !in inbox
    ensures Apart(cases, inbox + [c])
  {
  }

  lemma ApartLeave(cases: seq<Case>, inbox: seq<Case>, i: nat)
    requires Apart(cases, inbox) && i < |inbox|
    ensures Apart(cases, Without(inbox, i))
  {
    WithoutOne(inbox, i);
    forall c | c in Without(inbox, i) ensures c in inbox {
      InMembers(Without(inbox, i), c);
      InMembers(inbox, c);
    }
  }

  lemma ApartDistinct(cases: seq<Case>, inbox: seq<Case>)
    requires Distinct(cases) && Apart(cases, inbox)
    ensures Distinct(cases + inbox)
  {
    var s := cases + inbox;
    forall i, j | 0 <= i < j < |s| ensures s[i] != s[j] {
      if i < |cases| <= j { assert s[i] in cases && s[j] in inbox; }
    }
  }

  lemma NoneWaiting(cases: seq<Case>)
    ensures Apart(cases, []) && Waiting([]) == []
  {
  }

  /** Whoever waits was not there at the start, or has been removed since. */
  lemma WaitingNew(all: seq<Case>, cases: seq<Case>, delivered: set<Channel>, removed: set<Channel>, inbox: seq<Case>)
    requires Sending(all, cases, 1, delivered, removed) && Apart(cases, inbox)
    ensures forall c :: c in inbox && c in all ==> c.Subscribed? && c.channel in removed
  {
  }

  /** Serving a channel changes no membership. */
  lemma SameCases(all: seq<Case>, cases: seq<Case>, active: nat, delivered: set<Channel>, cases': seq<Case>, active': nat,
                  delivered': set<Channel>, removed: set<Channel>)
    requires Sending(all, cases, active, delivered, removed) && Sending(all, cases', active', delivered', removed)
    ensures forall c :: c in cases' ==> c in cases
  {
    forall c | c in cases' ensures c in cases {
      if c == RemoveSub { assert cases[0] in cases; }
    }
  }

  lemma FewerCases(s: seq<Case>, i: nat)
    requires i < |s|
    ensures |Without(s, i)| == |s| - 1 && forall c :: c in Without(s, i) ==> c in s
  {
  }

  /** caseList.find. */
  method Find(cases: seq<Case>, ch: Channel) returns (index: int)
    ensures -1 <= index < |cases|
    ensures index == -1 ==> Subscribed(ch) !in cases
    ensures index >= 0 ==> cases[index] == Subscribed(ch) && Subscribed(ch) !in cases[..index]
  {
    for i := 0 to |cases|
      invariant Subscribed(ch) !in cases[..i]
    {
      if cases[i] == Subscribed(ch) {
        return i;
      }
    }
    return -1;
  }

  function MailOf(mail: map<Channel, seq<Value>>, ch: Channel): seq<Value> { if ch in mail then mail[ch] else [] }

  /** Which channels have got `value` since `before`. */
  ghost predicate Got(before: map<Channel, seq<Value>>, mail: map<Channel, seq<Value>>, value: Value, delivered: set<Channel>) {
    forall ch :: MailOf(mail, ch) == MailOf(before, ch) + if ch in delivered then [value] else []
  }

  lemma OneMore(before: map<Channel, seq<Value>>, mail: map<Channel, seq<Value>>, value: Value, delivered: set<Channel>, ch: Channel)
    requires Got(before, mail, value, delivered) && ch !in delivered
    ensures Got(before, mail[ch := MailOf(mail, ch) + [value]], value, delivered + {ch})
  {
    assert MailOf(mail, ch) == MailOf(before, ch) + [];
  }

  lemma NoneYet(mail: map<Channel, seq<Value>>, value: Value)
    ensures Got(mail, mail, value, {})
  {
  }

  lemma SwapSize(s: seq<Case>, i: nat, j: nat)
    requires i < |s| && j < |s|
    ensures |Swap(s, i, j)| == |s|
  {
  }

  lemma StartSending(all: seq<Case>)
    requires all != [] && all[0] == RemoveSub && Distinct(all)
    ensures Sending(all, all, |all|, {}, {})
  {
    assert forall i :: 1 <= i < |all| ==> all[i] != all[0];
  }

  lemma ActiveCases(all: seq<Case>, cases: seq<Case>, active: nat, delivered: set<Channel>, removed: set<Channel>)
    requires Sending(all, cases, active, delivered, removed)
    ensures 1 <= active <= |cases| && cases[0] == RemoveSub && forall i :: 1 <= i < |cases| ==> cases[i].Subscribed?
    ensures active > 1 ==> cases[1] in cases && Subscribed(cases[1].channel) in cases
    ensures forall ch :: Subscribed(ch) in cases ==> Subscribed(ch) in cases[1..]
  {
  }

  /** Nothing but the removed cases is gone. */
  lemma Conserved(all: seq<Case>, cases: seq<Case>, delivered: set<Channel>, removed: set<Channel>)
    requires Sending(all, cases, 1, delivered, removed) && Distinct(all) && all != [] && all[0] == RemoveSub
    ensures cases[0] == RemoveSub && Distinct(cases)
    ensures forall ch :: ch in delivered || ch in removed ==> Subscribed(ch) in all
    ensures multiset(cases) + multiset(set ch | ch in removed :: Subscribed(ch)) == multiset(all)
  {
    var gone := set ch | ch in removed :: Subscribed(ch);
    forall c ensures (multiset(cases) + multiset(gone))[c] == multiset(all)[c] {
      AtMostOnce(cases, c);
      AtMostOnce(all, c);
      assert c in gone <==> c.Subscribed? && c.channel in removed;
    }
  }

  class Feed {
    var sendCases: seq<Case>
    var inbox: seq<Case>
    var mail: map<Channel, seq<Value>>  // What each channel has received so far

    ghost predicate Valid() reads this {
      && sendCases != [] && sendCases[0] == RemoveSub && Distinct(sendCases + inbox)
    }

    ghost function All(): seq<Case> reads this { sendCases + inbox }

    constructor ()
      ensures Valid() && All() == [RemoveSub] && mail == map[]
    {
      sendCases, inbox, mail := [RemoveSub], [], map[];
    }

    method Subscribe(ch: Channel)
      requires Valid() && Subscribed(ch) !in All()
      modifies `inbox
      ensures Valid() && All() == old(All()) + [Subscribed(ch)]
    {
      inbox := inbox + [Subscribed(ch)];
      assert sendCases + inbox == old(All()) + [Subscribed(ch)];
    }

    /** remove, while no Send is in progress. */
    method Remove(ch: Channel)
      requires Valid() && Subscribed(ch) in All()
      modifies `sendCases, `inbox
      ensures Valid() && Members(All()) == Members(old(All())) - {Subscribed(ch)}
    {
      hide Distinct, Members, Without;
      ghost var all := All();
      var index := Find(inbox, ch);
      if index != -1 {
        WithoutOne(all, |sendCases| + index);
        WithoutRight(sendCases, inbox, index);
        inbox := Without(inbox, index);
        return;
      }
      index := Find(sendCases, ch);
      WithoutOne(all, index);
      WithoutLeft(sendCases, inbox, index);
      sendCases := Without(sendCases, index);
    }

    /** Puts the value into the channel of an active case, which then leaves the active ones. */
    method SendTo(i: nat, active0: nat, value: Value, ghost all: seq<Case>, ghost delivered0: set<Channel>,
                  ghost removed: set<Channel>, ghost before: map<Channel, seq<Value>>)
      returns (active: nat, ghost delivered: set<Channel>)
      requires Sending(all, sendCases, active0, delivered0, removed) && Got(before, mail, value, delivered0) && 1 <= i < active0
      modifies `sendCases, `mail
      ensures Sending(all, sendCases, active, delivered, removed) && Got(before, mail, value, delivered)
      ensures active == active0 - 1 && |sendCases| == |old(sendCases)| && |delivered| == |delivered0| + 1
      ensures forall c :: c in sendCases ==> c in old(sendCases)
    {
      hide Sending, Distinct, Members, Got, Swap;
      ActiveCases(all, sendCases, active0, delivered0, removed);
      Deactivated(all, sendCases, active0, delivered0, removed, i);
      var ch := sendCases[i].channel;
      OneMore(before, mail, value, delivered0, ch);
      mail := mail[ch := MailOf(mail, ch) + [value]];
      delivered := delivered0 + {ch};
      active := active0 - 1;
      SwapSize(sendCases, i, active);
      SameCases(all, sendCases, active0, delivered0, Swap(sendCases, i, active), active, delivered, removed);
      sendCases := Swap(sendCases, i, active);
    }

    /** Other threads subscribe, and unsubscribe what still is in the inbox; steps that are not possible
        do nothing. `log` are those that took effect. */
    method Meanwhile(ops: seq<InboxOp>, ghost log0: seq<InboxOp>) returns (ghost log: seq<InboxOp>)
      requires Apart(sendCases, inbox) && inbox == Waiting(log0)
      modifies `inbox
      ensures Apart(sendCases, inbox) && inbox == Waiting(log) && log0 <= log
    {
      hide Apart, Waiting, Without, WithoutCase;
      log := log0;
      for i := 0 to |ops|
        invariant Apart(sendCases, inbox) && inbox == Waiting(log) && log0 <= log
      {
        var c := Subscribed(ops[i].channel);
        WaitingMore(log, ops[i]);
        if ops[i].Join? {
          if c !in sendCases && c !in inbox {
            ApartJoin(sendCases, inbox, c);
            inbox := inbox + [c];
            log := log + [ops[i]];
          }
        } else {
          var index := Find(inbox, ops[i].channel);
          if index >= 0 {
            WithoutFound(inbox, index);
            ApartLeave(sendCases, inbox, index);
            inbox := Without(inbox, index);
            log := log + [ops[i]];
          }
        }
      }
    }

    /** The fast path: channels with room are served without blocking. */
    method TrySends(value: Value, active0: nat, nsent0: nat, ghost all: seq<Case>, ghost delivered0: set<Channel>,
                    ghost removed: set<Channel>, ghost before: map<Channel, seq<Value>>)
      returns (active: nat, nsent: nat, ghost delivered: set<Channel>)
      requires Sending(all, sendCases, active0, delivered0, removed) && nsent0 == |delivered0| && Got(before, mail, value, delivered0)
      modifies `sendCases, `mail
      ensures Sending(all, sendCases, active, delivered, removed) && nsent == |delivered| && Got(before, mail, value, delivered)
      ensures |sendCases| == |old(sendCases)| && active <= active0
      ensures forall c :: c in sendCases ==> c in old(sendCases)
    {
      hide Sending, Got;
      active, nsent, delivered := active0, nsent0, delivered0;
      var i := 1;
      while i < active
        invariant Sending(all, sendCases, active, delivered, removed) && nsent == |delivered| && Got(before, mail, value, delivered)
        invariant |sendCases| == |old(sendCases)| && active <= active0 && i >= 1
        invariant forall c :: c in sendCases ==> c in old(sendCases)
        decreases active - i
      {
        ActiveCases(all, sendCases, active, delivered, removed);
        var room: bool := *;
        if room {
          active, delivered := SendTo(i, active, value, all, delivered, removed, before);
          nsent := nsent + 1;
        } else {
          i := i + 1;
        }
      }
    }

    /** Send. Which channels have room, which one is selected, and who subscribes or unsubscribes
        meanwhile is open; Send does not look into the inbox again, so it does not matter between which
        of its steps they do. Every channel that was subscribed at the start gets the value exactly
        once, unless it was removed; nobody gets it twice, and nobody else gets it: latecomers wait in
        the inbox. */
    method Send(value: Value)
      returns (nsent: nat, ghost delivered: set<Channel>, ghost removed: set<Channel>, ghost log: seq<InboxOp>)
      requires Valid()
      modifies this
      ensures Valid() && inbox == Waiting(log)
      ensures forall c :: c in inbox && c in old(All()) ==> c.Subscribed? && c.channel in removed
      ensures forall ch :: Subscribed(ch) in old(All()) && ch !in removed ==> ch in delivered
      ensures forall ch :: ch in delivered || ch in removed ==> Subscribed(ch) in old(All())
      ensures Got(old(mail), mail, value, delivered) && nsent == |delivered|
      ensures multiset(sendCases) + multiset(set ch | ch in removed :: Subscribed(ch)) == multiset(old(All()))
    {
      hide Sending, Distinct, Members, Got, Apart, Waiting, Without;
      ghost var all := All();
      sendCases, inbox := sendCases + inbox, [];
      nsent, delivered, removed, log := 0, {}, {}, [];
      NoneWaiting(sendCases);
      var active: nat := |sendCases|;
      StartSending(all);
      NoneYet(mail, value);
      while true
        invariant sendCases != [] && Apart(sendCases, inbox) && inbox == Waiting(log)
        invariant Sending(all, sendCases, active, delivered, removed)
        invariant nsent == |delivered| && Got(old(mail), mail, value, delivered)
        decreases |sendCases| + active
      {
        var ops: seq<InboxOp> := *;
        log := Meanwhile(ops, log);
        ghost var cases := sendCases;
        active, nsent, delivered := TrySends(value, active, nsent, all, delivered, removed, old(mail));
        ApartFewer(cases, sendCases, inbox);
        if active == 1 {
          break;
        }
        ActiveCases(all, sendCases, active, delivered, removed);
        var chosen: nat :| chosen < active;
        if chosen == 0 {
          var ch: Channel :| Subscribed(ch) in sendCases;
          var index := Find(sendCases, ch);
          Removed(all, sendCases, active, delivered, removed, index);
          FewerCases(sendCases, index);
          ApartFewer(sendCases, Without(sendCases, index), inbox);
          removed := removed + {ch};
          sendCases := Without(sendCases, index);
          if index < active {
            active := active - 1;
          }
        } else {
          cases := sendCases;
          active, delivered := SendTo(chosen, active, value, all, delivered, removed, old(mail));
          ApartFewer(cases, sendCases, inbox);
          nsent := nsent + 1;
        }
      }
      var ops: seq<InboxOp> := *;
      log := Meanwhile(ops, log);
      Served(all, sendCases, delivered, removed);
      Conserved(all, sendCases, delivered, removed);
      ApartDistinct(sendCases, inbox);
      WaitingNew(all, sendCases, delivered, removed, inbox);
    }
  }
}
