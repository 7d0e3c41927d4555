/** What add does with a transaction: whether it is refused and why, what leaves a full pool to make
    room for it, and which list it enters. */
module PoolAdds {
  import opened Transactions
  import Gas
  import opened TxLists
  import opened TxPriced
  import opened PoolContent
  import opened TxNoncers
  import opened PoolSteps
  import opened PoolSifts
  import opened PoolRooms

  /** What a transaction is checked against, apart from the content of the pool. */
  datatype Rules = Rules(config: Config, gasPrice: nat, state: StateView, maxGas: uint64, istanbul: bool)

  function Capacity(config: Config): nat { config.globalSlots + config.globalQueue }

  ghost predicate Acceptable(r: Rules, locals: set<Address>, tx: Tx, local: bool) {
    && tx.size <= TX_MAX_SIZE && tx.value >= 0 && tx.gas <= r.maxGas && tx.signed
    && (local || tx.sender in locals || tx.gasPrice >= r.gasPrice)
    && r.state.nonce(tx.sender) <= tx.nonce
    && tx.Cost() <= r.state.balance(tx.sender)
    && Gas.IntrinsicCost(tx.data, tx.creation, true, r.istanbul) <= tx.gas
  }

  lemma AcceptableExactly(r: Rules, locals: set<Address>, tx: Tx, local: bool)
    ensures Acceptable(r, locals, tx, local) <==>
              && tx.size <= 4 * 32768 && tx.value >= 0 && tx.gas <= r.maxGas && tx.signed
              && (local || tx.sender in locals || tx.gasPrice >= r.gasPrice)
              && tx.nonce >= r.state.nonce(tx.sender)
              && tx.value + tx.gasPrice * tx.gas <= r.state.balance(tx.sender)
              && Gas.IntrinsicCost(tx.data, tx.creation, true, r.istanbul) <= tx.gas
  {
    hide Gas.IntrinsicCost;
  }

  lemma AcceptedTx(r: Rules, locals: set<Address>, tx: Tx, local: bool)
    requires Acceptable(r, locals, tx, local)
    ensures tx.signed && (local || tx.sender in locals || tx.gasPrice >= r.gasPrice)
  {
  }

  /** What an error of validateTx tells about the transaction. */
  ghost predicate Faulty(r: Rules, locals: set<Address>, tx: Tx, local: bool, e: PoolError) {
    match e
    case OversizedData => tx.size > TX_MAX_SIZE
    case NegativeValue => tx.value < 0
    case GasLimit => tx.gas > r.maxGas
    case InvalidSender => !tx.signed
    case Underpriced => !local && tx.sender !in locals && tx.gasPrice < r.gasPrice
    case NonceTooLow => tx.nonce < r.state.nonce(tx.sender)
    case InsufficientFunds => r.state.balance(tx.sender) < tx.Cost()
    case GasUintOverflow => Gas.IntrinsicCost(tx.data, tx.creation, true, r.istanbul) > MAX_UINT64
    case IntrinsicGas => Gas.IntrinsicCost(tx.data, tx.creation, true, r.istanbul) > tx.gas
    case _ => false
  }

  /** The errors in the order in which they are looked for. */
  const CHECKS: seq<PoolError> := [OversizedData, NegativeValue, GasLimit, InvalidSender, Underpriced, NonceTooLow,
                                   InsufficientFunds, GasUintOverflow, IntrinsicGas]

  /** Check `i` is the first that fails. */
  ghost predicate FirstFault(r: Rules, locals: set<Address>, tx: Tx, local: bool, i: nat) {
    && i < |CHECKS| && Faulty(r, locals, tx, local, CHECKS[i])
    && forall j :: 0 <= j < i ==> !Faulty(r, locals, tx, local, CHECKS[j])
  }

  ghost predicate Fault(r: Rules, locals: set<Address>, tx: Tx, local: bool, e: PoolError) {
    exists i: nat :: FirstFault(r, locals, tx, local, i) && e == CHECKS[i]
  }

  lemma FaultAt(r: Rules, locals: set<Address>, tx: Tx, local: bool, i: nat)
    requires FirstFault(r, locals, tx, local, i)
    ensures Fault(r, locals, tx, local, CHECKS[i])
  {
  }

  /** What a pool holds between two additions. */
  datatype Holding = Holding(content: Content, noncer: Noncer, locals: set<Address>)

  predicate Full(r: Rules, all: Pooled) { |all| >= Capacity(r.config) }

  /** A remote `tx` is no dearer than anything in the pool. */
  ghost predicate NoDearer(all: Pooled, locals: set<Address>, tx: Tx) {
    !Local(locals, tx) && all != map[] && forall h :: h in all ==> tx.gasPrice <= all[h].gasPrice
  }

  /** The checks are passed, and a full pool is ready to drop something for `tx`. */
  ghost predicate Admitted(r: Rules, s: Holding, tx: Tx, local: bool) {
    && !Live(s.content.all, tx) && Acceptable(r, s.locals, tx, local)
    && !(Full(r, s.content.all) && !local && NoDearer(s.content.all, s.locals, tx))
  }

  /** The transaction of the same sender with the same nonce. */
  function Holder(c: Content, tx: Tx): Option<Tx> {
    if tx.nonce in Items(c.pending, tx.sender) then Some(Items(c.pending, tx.sender)[tx.nonce])
    else if tx.nonce in Items(c.queue, tx.sender) then Some(Items(c.queue, tx.sender)[tx.nonce])
    else None
  }

  predicate Outbidden(c: Content, tx: Tx, bump: nat) { Holder(c, tx).Some? ==> Outbids(tx, Holder(c, tx).value, bump) }

  /** The outcome of add, where `room` is what is left once a full pool has made room. */
  ghost predicate Decided(r: Rules, s: Holding, tx: Tx, local: bool, room: Content, err: Option<PoolError>) {
    if Admitted(r, s, tx, local) then err == if Outbidden(room, tx, r.config.priceBump) then None else Some(ReplaceUnderpriced)
    else if Live(s.content.all, tx) then err == Some(AlreadyKnown)
    else if Acceptable(r, s.locals, tx, local) then err == Some(Underpriced)
    else err.Some? && Fault(r, s.locals, tx, local, err.value)
  }

  /** `drop` left the pool to make room for `tx`, if it was full. */
  ghost predicate RoomFor(r: Rules, s: Holding, tx: Tx, local: bool, heap: seq<Tx>, drop: seq<Tx>, room: Content, noncer: Noncer) {
    && (if Admitted(r, s, tx, local) && Full(r, s.content.all) then
          var slots := SlotSum(s.content.all) - Capacity(r.config) + NumSlots(tx);
          slots >= 0 && Covered(s.content.all, heap) && Evicted(s.content.all, s.locals, slots, heap, drop)
        else drop == [])
    && room.all == s.content.all - HashesOf(drop)
    && (forall a :: Sifted(a, HashesOf(drop), s.content, room, s.noncer, noncer))
    && (drop == [] ==> room == s.content && noncer == s.noncer)
  }

  lemma RoomMadeFor(r: Rules, s: Holding, tx: Tx, local: bool, slots: nat, heap: seq<Tx>, drop: seq<Tx>, room: Content, noncer: Noncer)
    requires Admitted(r, s, tx, local) && Full(r, s.content.all) && slots == SlotSum(s.content.all) - Capacity(r.config) + NumSlots(tx)
    requires Covered(s.content.all, heap) && Evicted(s.content.all, s.locals, slots, heap, drop)
    requires room.all == s.content.all - HashesOf(drop)
    requires forall a :: Sifted(a, HashesOf(drop), s.content, room, s.noncer, noncer)
    requires drop == [] ==> room == s.content && noncer == s.noncer
    ensures RoomFor(r, s, tx, local, heap, drop, room, noncer)
  {
    hide Evicted, Covered, Sifted, HashesOf, SlotSum, NumSlots, Admitted;
  }

  lemma StillNew(r: Rules, s: Holding, tx: Tx, local: bool, heap: seq<Tx>, drop: seq<Tx>, room: Content, noncer: Noncer)
    requires RoomFor(r, s, tx, local, heap, drop, room, noncer) && !Live(s.content.all, tx)
    ensures !Live(room.all, tx)
  {
  }

  /** `tx` is in a list now, in place of the one with its nonce if there is one: in the pending list if
      that is pending, else in the queue; or it is not, and nothing changed. Queueing a local
      transaction makes its sender local. */
  ghost predicate TakenIn(tx: Tx, local: bool, err: Option<PoolError>, c: Content, d: Content, locals: set<Address>, locals': set<Address>) {
    if err.Some? then d == c && locals' == locals
    else
      && d.all == Relisted(c.all, Holder(c, tx), tx)
      && if tx.nonce in Items(c.pending, tx.sender) then
           && d.queue == c.queue && d.pending == c.pending[tx.sender := Added(c.pending[tx.sender], tx)]
           && locals' == locals
         else
           && d.pending == c.pending && d.queue == c.queue[tx.sender := Added(ListOf(c.queue, tx.sender, false), tx)]
           && locals' == locals + if local then {tx.sender} else {}
  }

  lemma TakenLocals(tx: Tx, local: bool, err: Option<PoolError>, c: Content, d: Content, locals: set<Address>, locals': set<Address>)
    requires TakenIn(tx, local, err, c, d, locals, locals')
    ensures locals' == locals || (err.None? && local && locals' == locals + {tx.sender})
  {
  }

  /** From `s` to `t` one transaction was added, or not, after `drop` had made room for it. */
  ghost predicate HandledBy(r: Rules, tx: Tx, local: bool, err: Option<PoolError>, replaced: bool, s: Holding, t: Holding,
                            heap: seq<Tx>, drop: seq<Tx>, room: Content) {
    && RoomFor(r, s, tx, local, heap, drop, room, t.noncer)
    && Decided(r, s, tx, local, room, err)
    && TakenIn(tx, local, err, room, t.content, s.locals, t.locals)
    && replaced == (err.None? && Holder(room, tx).Some?)
  }

  ghost predicate Handled(r: Rules, tx: Tx, local: bool, err: Option<PoolError>, replaced: bool, s: Holding, t: Holding) {
    exists heap, drop, room :: HandledBy(r, tx, local, err, replaced, s, t, heap, drop, room)
  }

  lemma HandledSo(r: Rules, tx: Tx, local: bool, err: Option<PoolError>, replaced: bool, s: Holding, t: Holding,
                  heap: seq<Tx>, drop: seq<Tx>, room: Content)
    requires HandledBy(r, tx, local, err, replaced, s, t, heap, drop, room)
    ensures Handled(r, tx, local, err, replaced, s, t)
  {
  }

  lemma NoRoomNeeded(r: Rules, s: Holding, tx: Tx, local: bool)
    requires !(Admitted(r, s, tx, local) && Full(r, s.content.all))
    ensures RoomFor(r, s, tx, local, [], [], s.content, s.noncer)
  {
    hide Admitted, Sifted, SlotSum;
    NoHashesOf();
    assert s.content.all - {} == s.content.all;
    forall a ensures Sifted(a, {}, s.content, s.content, s.noncer, s.noncer) { NoneGone(a, s.content, s.noncer); }
  }

  /** Refused before any room is made: nothing changes. */
  lemma Refused(r: Rules, tx: Tx, local: bool, e: PoolError, s: Holding)
    requires !Admitted(r, s, tx, local) && Decided(r, s, tx, local, s.content, Some(e))
    ensures HandledBy(r, tx, local, Some(e), false, s, s, [], [], s.content)
  {
    hide Admitted, Decided, Sifted;
    NoRoomNeeded(r, s, tx, local);
  }

  lemma GoneNotClear(p: TxMap, gone: set<TxHash>, n: uint64)
    ensures n in p && p[n].Hash() in gone ==> !Clear(p, gone, n)
  {
  }

  lemma RoomLeft(r: Rules, s: Holding, tx: Tx, local: bool, heap: seq<Tx>, drop: seq<Tx>, room: Content, noncer: Noncer)
    requires RoomFor(r, s, tx, local, heap, drop, room, noncer)
    ensures forall a :: Sifted(a, HashesOf(drop), s.content, room, s.noncer, noncer)
    ensures drop == [] ==> room == s.content && noncer == s.noncer
  {
    hide Sifted, HashesOf, SlotSum, NumSlots, Evicted, Covered;
  }

  /** Making room leaves a nonce to its holder, in whichever list, unless the holder is dropped. */
  lemma HolderLeft(c: Content, room: Content, tx: Tx, gone: set<TxHash>, n: Noncer, n': Noncer)
    requires Acct(c, {}, tx.sender) && Sifted(tx.sender, gone, c, room, n, n')
    ensures Holder(room, tx) == if Holder(c, tx).Some? && Holder(c, tx).value.Hash() in gone then None else Holder(c, tx)
  {
    hide Clear, NonceLeft;
    var p := Items(c.pending, tx.sender);
    assert tx.nonce in p && p[tx.nonce].Hash() in gone ==> !Clear(p, gone, tx.nonce) by { GoneNotClear(p, gone, tx.nonce); }
  }

  /** A full pool is one with as many transactions as both limits allow together; only something cheaper
      in it, or being local, lets a transaction into it. */
  lemma AdmittedExactly(r: Rules, s: Holding, tx: Tx, local: bool)
    ensures Admitted(r, s, tx, local) <==>
              && tx.Hash() !in s.content.all && Acceptable(r, s.locals, tx, local)
              && (|| local || tx.sender in s.locals || |s.content.all| < r.config.globalSlots + r.config.globalQueue
                  || exists h :: h in s.content.all && s.content.all[h].gasPrice < tx.gasPrice)
  {
    assert Acceptable(r, s.locals, tx, local) ==> tx.signed by { if Acceptable(r, s.locals, tx, local) { AcceptedTx(r, s.locals, tx, local); } }
    hide Acceptable;
    assert |s.content.all| > 0 ==> s.content.all != map[];
  }

  /** What is dropped to make room costs less than what stays, or as much with no lower nonce, and is not
      more than needed. */
  lemma DroppedExactly(r: Rules, s: Holding, tx: Tx, local: bool, heap: seq<Tx>, drop: seq<Tx>, room: Content, noncer: Noncer)
    requires RoomFor(r, s, tx, local, heap, drop, room, noncer) && Keyed(s.content.all) && Consistent(s.content, {})
    ensures forall d :: d in drop ==> Live(s.content.all, d) && d.sender !in s.locals
    ensures forall d, k :: d in drop && Live(s.content.all, k) && !Local(s.locals, k) && k !in drop ==>
              d.gasPrice < k.gasPrice || (d.gasPrice == k.gasPrice && d.nonce >= k.nonce)
    ensures drop != [] ==>
              && |s.content.all| >= r.config.globalSlots + r.config.globalQueue
              && TotalSlots(drop[..|drop| - 1]) < SlotSum(s.content.all) - (r.config.globalSlots + r.config.globalQueue) + NumSlots(tx)
  {
    hide Admitted, Sifted, HashesOf, SlotSum, NumSlots, Evicted, Covered, TotalSlots, Keyed, Consistent;
    if drop != [] {
      var slots := SlotSum(s.content.all) - Capacity(r.config) + NumSlots(tx);
      NoneTooMany(s.content.all, s.locals, slots, heap, drop);
      forall d | d in drop ensures Live(s.content.all, d) && d.sender !in s.locals {
        OnlyRemote(s.content.all, s.locals, slots, heap, drop, d);
        LiveSigned(s.content, d);
      }
      EvictsCheapest(s.content.all, s.locals, slots, heap, drop);
    }
  }

  /** A transaction is taken in exactly if it is new, passes all checks, is local or dearer than
      something in a full pool, and outbids the holder of its nonce unless that was dropped. */
  lemma TakenExactly(r: Rules, tx: Tx, local: bool, err: Option<PoolError>, replaced: bool, s: Holding, t: Holding,
                     heap: seq<Tx>, drop: seq<Tx>, room: Content)
    requires Acct(s.content, {}, tx.sender) && HandledBy(r, tx, local, err, replaced, s, t, heap, drop, room)
    ensures var prev := Holder(s.content, tx);
            err.None? <==>
              && tx.Hash() !in s.content.all
              && tx.size <= 4 * 32768 && tx.value >= 0 && tx.gas <= r.maxGas && tx.signed
              && (local || tx.sender in s.locals || tx.gasPrice >= r.gasPrice)
              && tx.nonce >= r.state.nonce(tx.sender)
              && tx.value + tx.gasPrice * tx.gas <= r.state.balance(tx.sender)
              && Gas.IntrinsicCost(tx.data, tx.creation, true, r.istanbul) <= tx.gas
              && (|| local || tx.sender in s.locals || |s.content.all| < r.config.globalSlots + r.config.globalQueue
                  || exists h :: h in s.content.all && s.content.all[h].gasPrice < tx.gasPrice)
              && (prev.Some? && prev.value !in drop ==>
                    prev.value.gasPrice < tx.gasPrice && (100 + r.config.priceBump) * prev.value.gasPrice < 100 * (tx.gasPrice + 1))
    ensures err.None? ==> Live(t.content.all, tx)
    ensures err.Some? && drop == [] ==> t == s
  {
    hide Acceptable, Outbids, Sifted, Fault, HashesOf, Admitted, Acct, RoomFor, Gas.IntrinsicCost, Tx.Cost;
    RoomLeft(r, s, tx, local, heap, drop, room, t.noncer);
    AdmittedExactly(r, s, tx, local);
    AcceptableExactly(r, s.locals, tx, local);
    assert Sifted(tx.sender, HashesOf(drop), s.content, room, s.noncer, t.noncer);
    HolderLeft(s.content, room, tx, HashesOf(drop), s.noncer, t.noncer);
    var prev := Holder(s.content, tx);
    if prev.Some? {
      HashIn(drop, prev.value);
      OutbidsExactly(tx, prev.value, r.config.priceBump);
    }
  }

  /** A batch of transactions, one after the other. */
  ghost predicate Batched(r: Rules, txs: seq<Tx>, local: bool, errs: seq<Option<PoolError>>, replaced: seq<bool>, trace: seq<Holding>) {
    && |errs| == |replaced| == |txs| && |trace| == |txs| + 1
    && forall i :: 0 <= i < |txs| ==> Handled(r, txs[i], local, errs[i], replaced[i], trace[i], trace[i + 1])
  }

  lemma BatchMore(r: Rules, txs: seq<Tx>, k: nat, local: bool, errs: seq<Option<PoolError>>, replaced: seq<bool>, trace: seq<Holding>,
                  err: Option<PoolError>, rep: bool, t: Holding)
    requires k < |txs| && Batched(r, txs[..k], local, errs, replaced, trace)
    requires Handled(r, txs[k], local, err, rep, trace[k], t)
    ensures Batched(r, txs[..k + 1], local, errs + [err], replaced + [rep], trace + [t])
  {
    hide Handled;
  }

  /** The senders of what was accepted without replacing anything. */
  ghost function Newcomers(txs: seq<Tx>, errs: seq<Option<PoolError>>, replaced: seq<bool>): set<Address>
    requires |errs| == |replaced| == |txs|
  {
    set i | 0 <= i < |txs| && errs[i].None? && !replaced[i] :: txs[i].sender
  }

  lemma NewcomersMore(txs: seq<Tx>, k: nat, errs: seq<Option<PoolError>>, replaced: seq<bool>, err: Option<PoolError>, r: bool)
    requires k < |txs| && |errs| == |replaced| == k
    ensures Newcomers(txs[..k + 1], errs + [err], replaced + [r]) ==
            Newcomers(txs[..k], errs, replaced) + if err.None? && !r then {txs[k].sender} else {}
  {
    var more := Newcomers(txs[..k + 1], errs + [err], replaced + [r]);
    forall a | a in Newcomers(txs[..k], errs, replaced) ensures a in more {
      var i :| 0 <= i < k && errs[i].None? && !replaced[i] && txs[..k][i].sender == a;
      assert (errs + [err])[i].None? && !(replaced + [r])[i] && txs[..k + 1][i].sender == a;
    }
    if err.None? && !r {
      assert (errs + [err])[k].None? && !(replaced + [r])[k] && txs[..k + 1][k] == txs[k];
    }
    forall a | a in more ensures a in Newcomers(txs[..k], errs, replaced) || (err.None? && !r && a == txs[k].sender) {
      var i :| 0 <= i < k + 1 && (errs + [err])[i].None? && !(replaced + [r])[i] && txs[..k + 1][i].sender == a;
      assert i < k ==> txs[..k][i].sender == a && errs[i].None? && !replaced[i];
    }
  }

  lemma NoNewcomers()
    ensures Newcomers([], [], []) == {}
  {
  }
}
