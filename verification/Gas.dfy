/** core/state_transition.go, core/gaspool.go and the transaction loop of core/state_processor.go:
    buying gas, running a message and refunding what is left, over a whole block. */
module Gas {
  import opened Transactions

  const TX_GAS: nat := 21000
  const TX_GAS_CONTRACT_CREATION: nat := 53000
  const TX_DATA_ZERO_GAS: nat := 4
  const TX_DATA_NON_ZERO_GAS_FRONTIER: nat := 68
  const TX_DATA_NON_ZERO_GAS_EIP2028: nat := 16

  function NonZero(data: seq<byte>): (n: nat)
    ensures n <= |data|
  {
    if data == [] then 0 else NonZero(data[..|data| - 1]) + if data[|data| - 1] != 0 then 1 else 0
  }

  /** The cost of a message before it runs, without any machine limit. */
  function IntrinsicCost(data: seq<byte>, creation: bool, homestead: bool, istanbul: bool): nat {
    (if creation && homestead then TX_GAS_CONTRACT_CREATION else TX_GAS)
    + NonZero(data) * (if istanbul then TX_DATA_NON_ZERO_GAS_EIP2028 else TX_DATA_NON_ZERO_GAS_FRONTIER)
    + (|data| - NonZero(data)) * TX_DATA_ZERO_GAS
  }

  /** Without data a message costs 21000, a creation 53000 since Homestead; every zero byte costs 4 more,
      every other byte 68, or 16 since Istanbul. */
  lemma IntrinsicBytes(data: seq<byte>, b: byte, creation: bool, homestead: bool, istanbul: bool)
    ensures IntrinsicCost([], creation, homestead, istanbul) == if creation && homestead then 53000 else 21000
    ensures IntrinsicCost(data + [b], creation, homestead, istanbul) ==
              IntrinsicCost(data, creation, homestead, istanbul) + if b == 0 then 4 else if istanbul then 16 else 68
  {
    assert (data + [b])[..|data|] == data;
    var each := if istanbul then TX_DATA_NON_ZERO_GAS_EIP2028 else TX_DATA_NON_ZERO_GAS_FRONTIER;
    assert (NonZero(data) + 1) * each == NonZero(data) * each + each;
  }

  lemma Times(a: nat, b: nat, price: nat)
    requires a <= b
    ensures a * price <= b * price && (a < b ==> a * price + price <= b * price)
  {
    var d := b - a;
    assert b * price == a * price + d * price;
    if d > 0 {
      assert d * price == (d - 1) * price + price;
    }
  }

  lemma Fits(room: nat, price: nat, n: nat)
    requires price > 0
    ensures room / price < n <==> room < n * price
  {
    var q := room / price;
    var product, bound := q * price, n * price;
    assert product <= room < product + price;
    if q < n {
      Times(q, n, price);
    } else {
      Times(n, q, price);
    }
  }

  /** The two overflow checks reject exactly the costs that do not fit 64 bits. */
  method IntrinsicGas(data: seq<byte>, creation: bool, homestead: bool, istanbul: bool) returns (r: Option<uint64>)
    ensures r == if IntrinsicCost(data, creation, homestead, istanbul) <= MAX_UINT64
                 then Some(IntrinsicCost(data, creation, homestead, istanbul)) else None
  {
    var gas := if creation && homestead then TX_GAS_CONTRACT_CREATION else TX_GAS;
    if |data| > 0 {
      var nz := 0;
      for i := 0 to |data|
        invariant nz == NonZero(data[..i])
      {
        assert data[..i + 1][..i] == data[..i];
        if data[i] != 0 {
          nz := nz + 1;
        }
      }
      assert data[..|data|] == data;
      var nonZeroGas := if istanbul then TX_DATA_NON_ZERO_GAS_EIP2028 else TX_DATA_NON_ZERO_GAS_FRONTIER;
      Fits(MAX_UINT64 - gas, nonZeroGas, nz);
      if (MAX_UINT64 - gas) / nonZeroGas < nz {
        return None;
      }
      gas := gas + nz * nonZeroGas;
      var z := |data| - nz;
      Fits(MAX_UINT64 - gas, TX_DATA_ZERO_GAS, z);
      if (MAX_UINT64 - gas) / TX_DATA_ZERO_GAS < z {
        return None;
      }
      gas := gas + z * TX_DATA_ZERO_GAS;
    }
    return Some(gas);
  }

  class GasPool {
    var gas: uint64

    /** The source panics when the pool would leave 64 bits: no caller may let that happen. */
    method AddGas(amount: uint64)
      requires gas + amount <= MAX_UINT64
      modifies this
      ensures gas == old(gas) + amount
    {
      gas := gas + amount;
    }

    method SubGas(amount: uint64) returns (ok: bool)
      modifies this
      ensures ok <==> amount <= old(gas)
      ensures gas == if ok then old(gas) - amount else old(gas)
    {
      ok := amount <= gas;
      if ok {
        gas := gas - amount;
      }
    }

    constructor ()
      ensures gas == 0
    {
      gas := 0;
    }
  }

  type Balances = map<Address, nat>

  /** Accounts, and the refund counter of the running transaction. */
  datatype World = World(balances: Balances, nonces: map<Address, uint64>, refund: uint64) {
    function Nonce(a: Address): uint64 { if a in nonces then nonces[a] else 0 }
  }

  function Balance(b: Balances, a: Address): nat { if a in b then b[a] else 0 }

  function Credit(b: Balances, a: Address, v: nat): Balances { b[a := Balance(b, a) + v] }

  function Debit(b: Balances, a: Address, v: nat): Balances
    requires v <= Balance(b, a)
  {
    b[a := Balance(b, a) - v]
  }

  /** All ether there is. */
  ghost function Supply(b: Balances): nat
    decreases |b|
  {
    if b.Keys == {} then 0
    else
      var a :| a in b.Keys;
      assert b.Keys == (b - {a}).Keys + {a};
      b[a] + Supply(b - {a})
  }

  lemma SupplyPick(b: Balances) returns (c: Address)
    requires b.Keys != {}
    ensures c in b && Supply(b) == b[c] + Supply(b - {c})
  {
    c :| c in b.Keys && Supply(b) == b[c] + Supply(b - {c});
  }

  lemma {:induction false} SupplyMinus(b: Balances, a: Address)
    requires a in b
    ensures Supply(b) == b[a] + Supply(b - {a})
    decreases |b|
  {
    hide Supply;
    var c := SupplyPick(b);
    if c != a {
      assert b.Keys == (b - {c}).Keys + {c};
      SupplyMinus(b - {c}, a);
      assert b.Keys == (b - {a}).Keys + {a};
      SupplyMinus(b - {a}, c);
      assert b - {a} - {c} == b - {c} - {a};
    }
  }

  lemma SupplySet(b: Balances, a: Address, v: nat)
    ensures Supply(b[a := v]) == Supply(b) - Balance(b, a) + v
  {
    SupplyMinus(b[a := v], a);
    assert b[a := v] - {a} == b - {a};
    if a in b {
      SupplyMinus(b, a);
    } else {
      assert b - {a} == b;
    }
  }

  datatype Message = Message(from: Address, creation: bool, nonce: uint64, checkNonce: bool, gas: uint64,
                             gasPrice: nat, value: int, data: seq<byte>)

  /** What running a message leaves behind. */
  datatype Outcome = Outcome(world: World, gasLeft: uint64, failed: bool)

  /** The virtual machine is any function that gives back at most the gas it got and makes no ether. */
  datatype Env = Env(run: (World, Message, uint64) -> Outcome, coinbase: Address, homestead: bool, istanbul: bool) {
    ghost predicate Honest() {
      forall w, m, g :: run(w, m, g).gasLeft <= g && Supply(run(w, m, g).world.balances) == Supply(w.balances)
    }
    function Intrinsic(m: Message): nat { IntrinsicCost(m.data, m.creation, homestead, istanbul) }
  }

  /** The price of some gas of a message. */
  function Fee(gas: nat, m: Message): nat { gas * m.gasPrice }

  datatype Error = NonceTooHigh | NonceTooLow | InsufficientFunds | GasLimitReached | GasUintOverflow
                 | IntrinsicGasTooLow | InsufficientFundsForTransfer

  /** The world once the sender has paid for all the gas of the message. */
  function Bought(w: World, m: Message): World
    requires Fee(m.gas, m) <= Balance(w.balances, m.from)
  {
    w.(balances := Debit(w.balances, m.from, Fee(m.gas, m)))
  }

  /** The checks made before any gas is bought. */
  ghost predicate Affordable(w: World, pool: nat, m: Message) {
    && (m.checkNonce ==> w.Nonce(m.from) == m.nonce)
    && Fee(m.gas, m) <= Balance(w.balances, m.from)
    && m.gas <= pool
  }

  /** The consensus rules a message has to meet to be in a block. */
  ghost predicate Admissible(env: Env, w: World, pool: nat, m: Message) {
    && Affordable(w, pool, m)
    && env.Intrinsic(m) <= m.gas
    && (m.value > 0 ==> m.value <= Balance(Bought(w, m).balances, m.from))
  }

  /** The world the message runs in: a call has its sender's nonce counted first, a creation counts
      it itself. */
  ghost function Entered(w: World, m: Message): World {
    if m.creation then w else w.(nonces := w.nonces[m.from := NextNonce(w.Nonce(m.from))])
  }

  ghost function Ran(env: Env, w: World, m: Message): Outcome
    requires Fee(m.gas, m) <= Balance(w.balances, m.from) && env.Intrinsic(m) <= m.gas
  {
    env.run(Entered(Bought(w, m), m), m, m.gas - env.Intrinsic(m))
  }

  function Lesser(x: nat, y: nat): nat { if x <= y then x else y }

  /** Gas used in the end: the refund is capped by half of what was used without it. */
  ghost function Used(env: Env, w: World, m: Message): int
    requires Fee(m.gas, m) <= Balance(w.balances, m.from) && env.Intrinsic(m) <= m.gas
  {
    var gross := m.gas - Ran(env, w, m).gasLeft;
    gross - if gross >= 0 then Lesser(gross / 2, Ran(env, w, m).world.refund) else 0
  }

  /** The sender gets the price of the gas that is left, the coinbase that of the gas used. */
  ghost predicate Settles(env: Env, w: World, m: Message, w': World)
    requires Fee(m.gas, m) <= Balance(w.balances, m.from) && env.Intrinsic(m) <= m.gas
  {
    var used := Used(env, w, m);
    var ran := Ran(env, w, m).world;
    && 0 <= used <= m.gas
    && w' == ran.(balances := Credit(Credit(ran.balances, m.from, Fee(m.gas - used, m)),
                                     env.coinbase, Fee(used, m)))
  }

  /** What a message has to meet, with the price of its gas and its value spelled out. */
  lemma AdmissibleExactly(env: Env, w: World, pool: nat, m: Message)
    ensures Admissible(env, w, pool, m) <==>
              && (m.checkNonce ==> w.Nonce(m.from) == m.nonce)
              && m.gas <= pool && env.Intrinsic(m) <= m.gas
              && m.gas * m.gasPrice + (if m.value > 0 then m.value else 0) <= Balance(w.balances, m.from)
  {
    hide IntrinsicCost;
  }

  /** The machine finds the sender without the price of all the gas, and everybody else as before. A
      call has counted the sender's nonce. */
  lemma EnteredExactly(w: World, m: Message, a: Address)
    requires m.gas * m.gasPrice <= Balance(w.balances, m.from)
    ensures Fee(m.gas, m) <= Balance(w.balances, m.from)
    ensures var e := Entered(Bought(w, m), m);
            && Balance(e.balances, a) == Balance(w.balances, a) - (if a == m.from then m.gas * m.gasPrice else 0)
            && e.Nonce(a) == (if a == m.from && !m.creation then NextNonce(w.Nonce(a)) else w.Nonce(a)) && e.refund == w.refund
  {
  }

  /** The gas used: what the machine took, less a refund that is as large as the refund counter and half
      of what was taken allow. */
  lemma UsedExactly(env: Env, w: World, m: Message)
    requires env.Honest() && Fee(m.gas, m) <= Balance(w.balances, m.from) && env.Intrinsic(m) <= m.gas
    ensures var gross := m.gas - Ran(env, w, m).gasLeft;
            var refund := gross - Used(env, w, m);
            && 0 <= refund <= Ran(env, w, m).world.refund && 2 * refund <= gross
            && (refund == Ran(env, w, m).world.refund || 2 * (refund + 1) > gross)
  {
    hide Fee, IntrinsicCost;
  }

  /** In the end the sender has the price of the gas that is left on top of what the machine left, the
      coinbase that of the gas used, and nobody else anything. */
  lemma SettledExactly(env: Env, w: World, m: Message, w': World, a: Address)
    requires Fee(m.gas, m) <= Balance(w.balances, m.from) && env.Intrinsic(m) <= m.gas && Settles(env, w, m, w')
    ensures var used := Used(env, w, m);
            Balance(w'.balances, a) == Balance(Ran(env, w, m).world.balances, a)
                                       + (if a == m.from then (m.gas - used) * m.gasPrice else 0)
                                       + (if a == env.coinbase then used * m.gasPrice else 0)
    ensures w'.nonces == Ran(env, w, m).world.nonces
  {
    hide Used, Ran, IntrinsicCost;
  }

  /** What running the machine gave to, or took from, an account. */
  ghost function Machine(env: Env, w: World, m: Message, a: Address): int {
    if Fee(m.gas, m) <= Balance(w.balances, m.from) && env.Intrinsic(m) <= m.gas then
      Balance(Ran(env, w, m).world.balances, a) - Balance(Entered(Bought(w, m), m).balances, a)
    else 0
  }

  lemma FeeIs(gas: nat, m: Message)
    ensures Fee(gas, m) == gas * m.gasPrice
  {
  }

  lemma Split(gas: int, used: int, price: int)
    ensures (gas - used) * price + used * price == gas * price
  {
  }

  /** Over a message the sender is out by exactly the price of the gas used, which the coinbase gets. */
  lemma MessageFees(env: Env, w: World, m: Message, w': World, a: Address)
    requires Fee(m.gas, m) <= Balance(w.balances, m.from) && env.Intrinsic(m) <= m.gas && Settles(env, w, m, w')
    ensures var fee := Used(env, w, m) * m.gasPrice;
            Balance(w'.balances, a) == Balance(w.balances, a) + Machine(env, w, m, a)
                                       - (if a == m.from then fee else 0) + (if a == env.coinbase then fee else 0)
  {
    hide Used, Ran, IntrinsicCost, Balance, Entered, Bought;
    FeeIs(m.gas, m);
    EnteredExactly(w, m, a);
    SettledExactly(env, w, m, w', a);
    Split(m.gas, Used(env, w, m), m.gasPrice);
  }

  lemma UsedBounds(env: Env, w: World, m: Message)
    requires env.Honest() && Fee(m.gas, m) <= Balance(w.balances, m.from) && env.Intrinsic(m) <= m.gas
    ensures var gross := m.gas - Ran(env, w, m).gasLeft;
            env.Intrinsic(m) <= gross <= m.gas && gross <= 2 * Used(env, w, m) && Used(env, w, m) <= gross
  {
  }

  lemma SupplyCredit(b: Balances, a: Address, v: nat)
    ensures Supply(Credit(b, a, v)) == Supply(b) + v
  {
    SupplySet(b, a, Balance(b, a) + v);
  }

  lemma SupplyDebit(b: Balances, a: Address, v: nat)
    requires v <= Balance(b, a)
    ensures Supply(Debit(b, a, v)) == Supply(b) - v
  {
    SupplySet(b, a, Balance(b, a) - v);
  }

  lemma Distribute(m: Message, used: nat)
    requires used <= m.gas
    ensures Fee(m.gas - used, m) + Fee(used, m) == Fee(m.gas, m)
  {
  }

  /** No ether appears or vanishes over a message. */
  lemma SupplyKept(env: Env, w: World, m: Message, w': World)
    requires env.Honest() && Fee(m.gas, m) <= Balance(w.balances, m.from) && env.Intrinsic(m) <= m.gas
    requires Settles(env, w, m, w')
    ensures Supply(w'.balances) == Supply(w.balances)
  {
    hide Supply, Credit, Debit, Fee, Used;
    var used := Used(env, w, m);
    var ran := Ran(env, w, m).world.balances;
    SupplyDebit(w.balances, m.from, Fee(m.gas, m));
    var left := Credit(ran, m.from, Fee(m.gas - used, m));
    SupplyCredit(ran, m.from, Fee(m.gas - used, m));
    SupplyCredit(left, env.coinbase, Fee(used, m));
    Distribute(m, used);
  }

  class StateTransition {
    const gp: GasPool
    const msg: Message
    const env: Env
    var gas: uint64
    var initialGas: uint64
    var world: World

    constructor (env: Env, msg: Message, gp: GasPool, world: World)
      ensures this.env == env && this.msg == msg && this.gp == gp && this.world == world && gas == initialGas == 0
    {
      this.env, this.msg, this.gp, this.world := env, msg, gp, world;
      gas, initialGas := 0, 0;
    }

    function GasUsed(): int reads this { initialGas - gas }

    method BuyGas() returns (err: Option<Error>)
      requires gas == initialGas == 0
      modifies this, gp
      ensures err.None? <==> msg.gas * msg.gasPrice <= Balance(old(world).balances, msg.from) && msg.gas <= old(gp.gas)
      ensures err == Some(InsufficientFunds) <==> msg.gas * msg.gasPrice > Balance(old(world).balances, msg.from)
      ensures err.None? ==>
                forall a :: Balance(world.balances, a) ==
                            Balance(old(world).balances, a) - if a == msg.from then msg.gas * msg.gasPrice else 0
      ensures err.None? ==> world == Bought(old(world), msg) && gp.gas == old(gp.gas) - msg.gas
                            && gas == initialGas == msg.gas
      ensures err.Some? ==> world == old(world) && gp.gas == old(gp.gas)
    {
      var mgval := Fee(msg.gas, msg);
      if Balance(world.balances, msg.from) < mgval {
        return Some(InsufficientFunds);
      }
      var ok := gp.SubGas(msg.gas);
      if !ok {
        return Some(GasLimitReached);
      }
      gas := gas + msg.gas;
      initialGas := msg.gas;
      world := world.(balances := Debit(world.balances, msg.from, mgval));
      return None;
    }

    method PreCheck() returns (err: Option<Error>)
      requires gas == initialGas == 0
      modifies this, gp
      ensures err.None? <==> Affordable(old(world), old(gp.gas), msg)
      ensures err.None? ==> world == Bought(old(world), msg) && gp.gas == old(gp.gas) - msg.gas
                            && gas == initialGas == msg.gas
      ensures err.Some? ==> world == old(world) && gp.gas == old(gp.gas)
    {
      if msg.checkNonce {
        var nonce := world.Nonce(msg.from);
        if nonce < msg.nonce {
          return Some(NonceTooHigh);
        } else if nonce > msg.nonce {
          return Some(NonceTooLow);
        }
      }
      err := BuyGas();
    }

    /** The gas left over goes back to the sender at its price and to the block's pool. */
    method RefundGas()
      requires gas <= initialGas && gp.gas + initialGas <= MAX_UINT64
      modifies this, gp
      ensures initialGas == old(initialGas)
      ensures var gross := old(initialGas) - old(gas);
              && gas == old(gas) + Lesser(gross / 2, old(world).refund)
              && gp.gas == old(gp.gas) + gas
              && world == old(world).(balances := Credit(old(world).balances, msg.from, Fee(gas, msg)))
      ensures forall a :: Balance(world.balances, a) == Balance(old(world).balances, a) + if a == msg.from then gas * msg.gasPrice else 0
    {
      var refund := GasUsed() / 2;
      if refund > world.refund {
        refund := world.refund;
      }
      gas := gas + refund;
      var remaining := Fee(gas, msg);
      world := world.(balances := Credit(world.balances, msg.from, remaining));
      gp.AddGas(gas);
    }

    /** Refunds what is left and pays the coinbase for the rest. */
    method Settle() returns (used: uint64)
      requires gas <= initialGas && gp.gas + initialGas <= MAX_UINT64
      modifies this, gp
      ensures var gross := old(initialGas) - old(gas);
              && used == gross - Lesser(gross / 2, old(world).refund)
              && gp.gas == old(gp.gas) + old(initialGas) - used
              && world == old(world).(balances := Credit(Credit(old(world).balances, msg.from, Fee(old(initialGas) - used, msg)),
                                                         env.coinbase, Fee(used, msg)))
    {
      hide Fee, Credit;
      RefundGas();
      world := world.(balances := Credit(world.balances, env.coinbase, Fee(GasUsed(), msg)));
      used := GasUsed();
    }

    /** Runs a message that has passed all checks. */
    method Execute(ghost w: World, ghost pool: nat) returns (used: uint64, failed: bool)
      requires env.Honest() && Fee(msg.gas, msg) <= Balance(w.balances, msg.from) && world == Bought(w, msg)
      requires env.Intrinsic(msg) <= msg.gas == initialGas && gas == initialGas - env.Intrinsic(msg)
      requires gp.gas + msg.gas == pool <= MAX_UINT64
      modifies this, gp
      ensures Settles(env, w, msg, world) && used == Used(env, w, msg) && failed == Ran(env, w, msg).failed
      ensures gp.gas + used == pool
    {
      hide Supply, Fee, Credit, Debit, IntrinsicCost, Lesser, Bought;
      if !msg.creation {
        world := world.(nonces := world.nonces[msg.from := NextNonce(world.Nonce(msg.from))]);
      }
      var out := env.run(world, msg, gas);
      assert out == Ran(env, w, msg);
      world, gas, failed := out.world, out.gasLeft, out.failed;
      used := Settle();
    }

    /** A message is run exactly when it is admissible; then the pool is short of the gas used, and
        the ether for it is the coinbase's. A message turned away after it had bought its gas keeps
        what it bought: the block is invalid then. */
    method TransitionDb() returns (used: uint64, failed: bool, err: Option<Error>)
      requires gas == initialGas == 0 && env.Honest()
      modifies this, gp
      ensures err.None? <==> Admissible(env, old(world), old(gp.gas), msg)
      ensures err.None? ==> Settles(env, old(world), msg, world) && used == Used(env, old(world), msg)
                            && failed == Ran(env, old(world), msg).failed
      ensures err.None? ==> gp.gas + used == old(gp.gas)
      ensures err.None? <==>
                && (msg.checkNonce ==> old(world).Nonce(msg.from) == msg.nonce)
                && msg.gas <= old(gp.gas) && env.Intrinsic(msg) <= msg.gas
                && msg.gas * msg.gasPrice + (if msg.value > 0 then msg.value else 0) <= Balance(old(world).balances, msg.from)
      ensures err.None? ==>
                forall a :: Balance(world.balances, a) == Balance(Ran(env, old(world), msg).world.balances, a)
                                                          + (if a == msg.from then (msg.gas - used) * msg.gasPrice else 0)
                                                          + (if a == env.coinbase then used * msg.gasPrice else 0)
      ensures err.Some? ==> if Affordable(old(world), old(gp.gas), msg)
                            then world == Bought(old(world), msg) && gp.gas == old(gp.gas) - msg.gas
                            else world == old(world) && gp.gas == old(gp.gas)
    {
      hide Supply, Fee, Credit, Debit, IntrinsicCost, Lesser;
      AdmissibleExactly(env, world, gp.gas, msg);
      used, failed := 0, false;
      err := PreCheck();
      if err.Some? {
        return;
      }
      var intrinsic := IntrinsicGas(msg.data, msg.creation, env.homestead, env.istanbul);
      if intrinsic.None? {
        err := Some(GasUintOverflow);
        return;
      }
      if gas < intrinsic.value {
        err := Some(IntrinsicGasTooLow);
        return;
      }
      gas := gas - intrinsic.value;
      if msg.value > 0 && Balance(world.balances, msg.from) < msg.value {
        err := Some(InsufficientFundsForTransfer);
        return;
      }
      used, failed := Execute(old(world), old(gp.gas));
      forall a ensures Balance(world.balances, a) == Balance(Ran(env, old(world), msg).world.balances, a)
                                                     + (if a == msg.from then (msg.gas - used) * msg.gasPrice else 0)
                                                     + (if a == env.coinbase then used * msg.gasPrice else 0)
      {
        SettledExactly(env, old(world), msg, world, a);
      }
    }
  }

  datatype Receipt = Receipt(gasUsed: uint64, cumulativeGasUsed: uint64, failed: bool)

  ghost function GasSum(receipts: seq<Receipt>): nat {
    if receipts == [] then 0 else GasSum(receipts[..|receipts| - 1]) + receipts[|receipts| - 1].gasUsed
  }

  /** One message finds in the pool what its predecessors left of the block's gas. */
  ghost predicate Step(env: Env, limit: nat, m: Message, w: World, w': World, before: seq<Receipt>, r: Receipt) {
    && GasSum(before) <= limit
    && Admissible(env, w, limit - GasSum(before), m)
    && Settles(env, w, m, w')
    && r.gasUsed == Used(env, w, m) && r.failed == Ran(env, w, m).failed
    && r.cumulativeGasUsed == GasSum(before) + r.gasUsed
  }

  /** `worlds` are the states between the messages of a valid block with `limit` gas. */
  ghost predicate Trace(env: Env, limit: nat, msgs: seq<Message>, worlds: seq<World>, receipts: seq<Receipt>) {
    && |worlds| == |msgs| + 1 && |receipts| == |msgs|
    && GasSum(receipts) <= limit
    && forall i :: 0 <= i < |msgs| ==> Step(env, limit, msgs[i], worlds[i], worlds[i + 1], receipts[..i], receipts[i])
  }

  lemma Extend(env: Env, limit: nat, msgs: seq<Message>, i: nat, worlds: seq<World>, receipts: seq<Receipt>, w: World, r: Receipt)
    requires i < |msgs| && Trace(env, limit, msgs[..i], worlds, receipts)
    requires Step(env, limit, msgs[i], worlds[i], w, receipts, r) && GasSum(receipts) + r.gasUsed <= limit
    ensures Trace(env, limit, msgs[..i + 1], worlds + [w], receipts + [r])
    ensures GasSum(receipts + [r]) == GasSum(receipts) + r.gasUsed
  {
    hide Step;
    var rs, ws := receipts + [r], worlds + [w];
    assert rs[..i] == receipts;
    forall j | 0 <= j < i + 1 ensures Step(env, limit, msgs[..i + 1][j], ws[j], ws[j + 1], rs[..j], rs[j]) {
      if j < i {
        assert rs[..j] == receipts[..j];
        assert Step(env, limit, msgs[..i][j], worlds[j], worlds[j + 1], receipts[..j], receipts[j]);
      }
    }
  }

  /** The transaction loop of Process. Either every message is admissible in turn, or one is not and
      the block is rejected. */
  method Process(env: Env, limit: uint64, msgs: seq<Message>, start: World)
    returns (ok: bool, receipts: seq<Receipt>, usedGas: uint64, world: World, left: uint64, ghost worlds: seq<World>)
    requires env.Honest()
    ensures ok ==> Trace(env, limit, msgs, worlds, receipts) && worlds[0] == start && worlds[|msgs|] == world
    ensures ok ==> usedGas == GasSum(receipts) && usedGas + left == limit
    ensures !ok ==> |receipts| < |msgs| && Trace(env, limit, msgs[..|receipts|], worlds, receipts) && worlds[0] == start
                    && !Admissible(env, worlds[|receipts|], limit - GasSum(receipts), msgs[|receipts|])
  {
    hide Admissible, Settles, Ran, Used;
    var gp := new GasPool();
    gp.AddGas(limit);
    world, receipts, usedGas, worlds := start, [], 0, [start];
    for i := 0 to |msgs|
      invariant fresh(gp)
      invariant |receipts| == i && |worlds| == i + 1 && worlds[0] == start && worlds[i] == world
      invariant Trace(env, limit, msgs[..i], worlds, receipts)
      invariant usedGas == GasSum(receipts) && usedGas + gp.gas == limit
    {
      var st := new StateTransition(env, msgs[i], gp, world);
      var used, failed, err := st.TransitionDb();
      if err.Some? {
        ok, left := false, gp.gas;
        return;
      }
      usedGas := usedGas + used;
      var r := Receipt(used, usedGas, failed);
      assert Step(env, limit, msgs[i], world, st.world, receipts, r);
      Extend(env, limit, msgs, i, worlds, receipts, st.world, r);
      world := st.world;
      receipts := receipts + [r];
      worlds := worlds + [world];
    }
    assert msgs[..|msgs|] == msgs;
    ok, left := true, gp.gas;
  }

  lemma StepConserves(env: Env, limit: nat, m: Message, w: World, w': World, before: seq<Receipt>, r: Receipt)
    requires env.Honest() && Step(env, limit, m, w, w', before, r)
    ensures Supply(w'.balances) == Supply(w.balances) && r.cumulativeGasUsed == GasSum(before + [r])
  {
    hide Supply, Settles, Ran, Used;
    SupplyKept(env, w, m, w');
    assert (before + [r])[..|before|] == before;
  }

  lemma Shorten(env: Env, limit: nat, msgs: seq<Message>, worlds: seq<World>, receipts: seq<Receipt>)
    requires |msgs| > 0 && Trace(env, limit, msgs, worlds, receipts)
    ensures var n := |msgs| - 1;
            && Trace(env, limit, msgs[..n], worlds[..n + 1], receipts[..n])
            && receipts[..n] + [receipts[n]] == receipts
  {
    hide Step;
    var n := |msgs| - 1;
    forall j | 0 <= j < n
      ensures Step(env, limit, msgs[..n][j], worlds[..n + 1][j], worlds[..n + 1][j + 1], receipts[..n][..j], receipts[..n][j])
    {
      assert receipts[..n][..j] == receipts[..j];
      assert Step(env, limit, msgs[j], worlds[j], worlds[j + 1], receipts[..j], receipts[j]);
    }
  }

  /** Over a whole block no ether appears or vanishes, and every receipt accumulates the gas of its
      predecessors. */
  lemma {:induction false} BlockConserves(env: Env, limit: nat, msgs: seq<Message>, worlds: seq<World>, receipts: seq<Receipt>)
    requires env.Honest() && Trace(env, limit, msgs, worlds, receipts)
    ensures Supply(worlds[|msgs|].balances) == Supply(worlds[0].balances)
    ensures forall i :: 0 <= i < |msgs| ==> receipts[i].cumulativeGasUsed == GasSum(receipts[..i + 1])
    decreases |msgs|
  {
    hide Supply, GasSum, Step;
    if |msgs| > 0 {
      var n := |msgs| - 1;
      StepConserves(env, limit, msgs[n], worlds[n], worlds[n + 1], receipts[..n], receipts[n]);
      assert receipts[..n + 1] == receipts;
      Shorten(env, limit, msgs, worlds, receipts);
      BlockConserves(env, limit, msgs[..n], worlds[..n + 1], receipts[..n]);
      forall i | 0 <= i < n ensures receipts[i].cumulativeGasUsed == GasSum(receipts[..i + 1]) {
        assert receipts[..n][..i + 1] == receipts[..i + 1];
        assert receipts[..n][i].cumulativeGasUsed == GasSum(receipts[..n][..i + 1]);
      }
    }
  }

  /** The price of the gas that was used over a block, and the part of it that `a` pays. */
  ghost function Fees(msgs: seq<Message>, receipts: seq<Receipt>): nat
    requires |receipts| == |msgs|
  {
    if msgs == [] then 0
    else Fees(msgs[..|msgs| - 1], receipts[..|msgs| - 1]) + receipts[|msgs| - 1].gasUsed * msgs[|msgs| - 1].gasPrice
  }

  ghost function FeesOf(a: Address, msgs: seq<Message>, receipts: seq<Receipt>): nat
    requires |receipts| == |msgs|
  {
    if msgs == [] then 0
    else
      var n := |msgs| - 1;
      FeesOf(a, msgs[..n], receipts[..n]) + if msgs[n].from == a then receipts[n].gasUsed * msgs[n].gasPrice else 0
  }

  /** What the machine gave to `a` over a block. */
  ghost function Machines(env: Env, msgs: seq<Message>, worlds: seq<World>, a: Address): int
    requires |worlds| == |msgs| + 1
  {
    if msgs == [] then 0
    else
      var n := |msgs| - 1;
      Machines(env, msgs[..n], worlds[..n + 1], a) + Machine(env, worlds[n], msgs[n], a)
  }

  /** Apart from what the machine does, over a block every account pays exactly for the gas its messages
      used, and the coinbase gets all of that. */
  lemma {:induction false} BlockFees(env: Env, limit: nat, msgs: seq<Message>, worlds: seq<World>, receipts: seq<Receipt>, a: Address)
    requires Trace(env, limit, msgs, worlds, receipts)
    ensures Balance(worlds[|msgs|].balances, a) ==
              Balance(worlds[0].balances, a) + Machines(env, msgs, worlds, a)
              - FeesOf(a, msgs, receipts) + if a == env.coinbase then Fees(msgs, receipts) else 0
    decreases |msgs|
  {
    if msgs != [] {
      hide Settles, Ran, Used, Machine, Balance, IntrinsicCost;
      var n := |msgs| - 1;
      Shorten(env, limit, msgs, worlds, receipts);
      BlockFees(env, limit, msgs[..n], worlds[..n + 1], receipts[..n], a);
      assert Step(env, limit, msgs[n], worlds[n], worlds[n + 1], receipts[..n], receipts[n]);
      MessageFees(env, worlds[n], msgs[n], worlds[n + 1], a);
    }
  }
}
