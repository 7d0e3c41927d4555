/** core/tx_noncer.go: virtual nonces of the pool, falling back to the account state. */
module TxNoncers {
  import opened Transactions

  datatype Noncer = Noncer(fallback: Address -> uint64, nonces: map<Address, uint64>) {
    function Get(a: Address): uint64 { if a in nonces then nonces[a] else fallback(a) }
    function Set(a: Address, n: uint64): Noncer { this.(nonces := nonces[a := n]) }
    function SetIfLower(a: Address, n: uint64): Noncer {
      if Get(a) <= n then this.(nonces := nonces[a := Get(a)]) else Set(a, n)
    }
  }

  /** Two noncers that give every account the same nonce. */
  ghost predicate Alike(m: Noncer, n: Noncer) { forall a :: m.Get(a) == n.Get(a) }

  class TxNoncer {
    const fallback: Address -> uint64
    var nonces: map<Address, uint64>

    ghost function Value(): Noncer reads this { Noncer(fallback, nonces) }

    constructor (state: Address -> uint64)
      ensures Value() == Noncer(state, map[])
    {
      fallback, nonces := state, map[];
    }

    /** Reading an unknown account fills the cache; that cannot be told from outside. */
    method Get(a: Address) returns (n: uint64)
      modifies this
      ensures n == old(Value()).Get(a) && a in nonces && Alike(Value(), old(Value()))
    {
      if a !in nonces {
        nonces := nonces[a := fallback(a)];
      }
      return nonces[a];
    }

    method Set(a: Address, n: uint64)
      modifies this
      ensures Value() == old(Value()).Set(a, n) && Value().Get(a) == n
      ensures forall b :: b != a ==> Value().Get(b) == old(Value()).Get(b)
    {
      nonces := nonces[a := n];
    }

    method SetIfLower(a: Address, n: uint64)
      modifies this
      ensures Value() == old(Value()).SetIfLower(a, n)
      ensures Value().Get(a) == if old(Value()).Get(a) <= n then old(Value()).Get(a) else n
      ensures forall b :: b != a ==> Value().Get(b) == old(Value()).Get(b)
    {
      if a !in nonces {
        nonces := nonces[a := fallback(a)];
      }
      if nonces[a] <= n {
        assert nonces[a := nonces[a]] == nonces;
        return;
      }
      assert old(nonces)[a := fallback(a)][a := n] == old(nonces)[a := n];
      nonces := nonces[a := n];
    }
  }
}
