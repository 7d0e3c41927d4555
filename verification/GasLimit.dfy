/** core/block_validator.go, CalcGasLimit: the gas limit a miner gives the next block. */
module GasLimits {
  import opened Transactions

  const TWO_64 := 0x1_0000_0000_0000_0000
  const GAS_LIMIT_BOUND_DIVISOR := 1024
  const MIN_GAS_LIMIT := 5000

  /** 64-bit arithmetic wraps around. */
  function Wrap(n: int): uint64 { n % TWO_64 }

  function Quota(limit: nat): nat { limit / GAS_LIMIT_BOUND_DIVISOR }

  function Contrib(used: uint64): nat { Quota(Wrap(used + used / 2)) }

  function CalcGasLimit(used: uint64, limit: uint64, floor: uint64, ceil: uint64): uint64 {
    var contrib := Contrib(used);
    var decay := Wrap(Quota(limit) - 1);
    var aim := Wrap(Wrap(limit - decay) + contrib);
    var aim := if aim < MIN_GAS_LIMIT then MIN_GAS_LIMIT else aim;
    if aim < floor then
      var up := Wrap(limit + decay);
      if up > floor then floor else up
    else if aim > ceil then
      var down := Wrap(limit - decay);
      if down < ceil then ceil else down
    else aim
  }

  /** Limits for which one step cannot leave 64 bits: all up to about 2^64 - 2^54, and so all that a
      valid header can have. */
  predicate Roomy(limit: nat) { limit + Quota(limit) <= MAX_UINT64 }

  function Distance(a: int, b: int): nat { if a <= b then b - a else a - b }

  /** How far a limit is from the range. */
  function Outside(limit: nat, floor: nat, ceil: nat): nat {
    if limit < floor then floor - limit else if limit > ceil then limit - ceil else 0
  }

  lemma Small(n: int)
    ensures 0 <= n <= MAX_UINT64 ==> Wrap(n) == n
  {
  }

  lemma Contribution(used: uint64, limit: uint64)
    requires used <= limit
    ensures Contrib(used) <= Quota(limit) + Quota(limit) / 2 + 1
  {
    var sum := used + used / 2;
    assert Wrap(sum) <= sum <= limit + limit / 2;
  }

  /** What the next limit aims for, where nothing wraps around. */
  function Aim(used: uint64, limit: uint64): int {
    var raw := limit - (Quota(limit) - 1) + Contrib(used);
    if raw < MIN_GAS_LIMIT then MIN_GAS_LIMIT else raw
  }

  /** The next limit, where nothing wraps around. */
  lemma Plain(used: uint64, limit: uint64, floor: uint64, ceil: uint64)
    requires used <= limit && GAS_LIMIT_BOUND_DIVISOR <= limit && Roomy(limit)
    ensures var step := Quota(limit) - 1;
            var aim := Aim(used, limit);
            CalcGasLimit(used, limit, floor, ceil) ==
              if aim < floor then (if limit + step > floor then floor else limit + step)
              else if aim > ceil then (if limit - step < ceil then ceil else limit - step)
              else aim
    ensures 0 <= Quota(limit) - 1 <= limit
  {
    hide Wrap, Contrib;
    var step := Quota(limit) - 1;
    Contribution(used, limit);
    Small(step);
    Small(limit - step);
    Small(limit + step);
    Small(limit - step + Contrib(used));
  }

  /** Section 4.3.4, Block Header Validity, of the Ethereum Yellow Paper: the limit moves by less than
      a 1024th of the parent's. */
  lemma BoundedChange(used: uint64, limit: uint64, floor: uint64, ceil: uint64)
    requires used <= limit && floor <= ceil && 5 * GAS_LIMIT_BOUND_DIVISOR <= limit && Roomy(limit)
    ensures Distance(CalcGasLimit(used, limit, floor, ceil), limit) < Quota(limit)
  {
    hide CalcGasLimit, Contrib;
    Plain(used, limit, floor, ceil);
    Contribution(used, limit);
  }

  lemma FullBlock(limit: uint64)
    requires MIN_GAS_LIMIT <= limit < 5 * GAS_LIMIT_BOUND_DIVISOR
    ensures CalcGasLimit(limit, limit, 0, MAX_UINT64) == limit + 4 && Quota(limit) == 4
  {
    assert Contrib(limit) == 7;
    Small(3);
    Small(limit - 3);
    Small(limit + 4);
  }

  /** Below five times the divisor a full block moves the limit by a whole 1024th; so the bound holds
      for all uses and ranges exactly from there on. */
  lemma BoundedExactly(limit: uint64)
    requires MIN_GAS_LIMIT <= limit && Roomy(limit)
    ensures 5 * GAS_LIMIT_BOUND_DIVISOR <= limit <==>
              forall used: uint64, floor: uint64, ceil: uint64 :: used <= limit && floor <= ceil ==>
                Distance(CalcGasLimit(used, limit, floor, ceil), limit) < Quota(limit)
  {
    if 5 * GAS_LIMIT_BOUND_DIVISOR <= limit {
      forall used: uint64, floor: uint64, ceil: uint64 | used <= limit && floor <= ceil
        ensures Distance(CalcGasLimit(used, limit, floor, ceil), limit) < Quota(limit)
      {
        BoundedChange(used, limit, floor, ceil);
      }
    } else {
      FullBlock(limit);
      assert 0 <= 0 <= MAX_UINT64 && limit <= limit;
    }
  }

  /** Inside the range the limit stays inside; outside it enters the range or comes closer by exactly
      one step. */
  lemma Approach(used: uint64, limit: uint64, floor: uint64, ceil: uint64)
    requires used <= limit && floor <= ceil && GAS_LIMIT_BOUND_DIVISOR <= limit && Roomy(limit)
    ensures var next := CalcGasLimit(used, limit, floor, ceil);
            && (floor <= limit <= ceil ==> floor <= next <= ceil)
            && (floor <= next <= ceil
                || (limit < floor && next == limit + (Quota(limit) - 1) && next < floor)
                || (limit > ceil && next == limit - (Quota(limit) - 1) && next > ceil))
  {
    hide CalcGasLimit, Aim;
    Plain(used, limit, floor, ceil);
  }

  /** The limit after a number of blocks that used the given gas. */
  function LimitAfter(limit: uint64, used: seq<uint64>, floor: uint64, ceil: uint64): uint64
    decreases |used|
  {
    if used == [] then limit else LimitAfter(CalcGasLimit(used[0], limit, floor, ceil), used[1..], floor, ceil)
  }

  /** No block uses more gas than its limit. */
  ghost predicate Feasible(limit: uint64, used: seq<uint64>, floor: uint64, ceil: uint64)
    decreases |used|
  {
    used == [] || (used[0] <= limit && Feasible(CalcGasLimit(used[0], limit, floor, ceil), used[1..], floor, ceil))
  }

  /** Every run reaches the range, in no more blocks than the limit is outside, and stays there. */
  lemma {:induction false} Converges(limit: uint64, used: seq<uint64>, floor: uint64, ceil: uint64)
    requires Feasible(limit, used, floor, ceil) && floor <= ceil && 2 * GAS_LIMIT_BOUND_DIVISOR - 1 <= ceil
    requires 2 * GAS_LIMIT_BOUND_DIVISOR <= limit || (GAS_LIMIT_BOUND_DIVISOR <= limit && floor <= limit <= ceil)
    requires Roomy(limit) && Roomy(ceil)
    requires |used| >= Outside(limit, floor, ceil)
    ensures floor <= LimitAfter(limit, used, floor, ceil) <= ceil
    decreases |used|
  {
    hide CalcGasLimit;
    if used != [] {
      var next := CalcGasLimit(used[0], limit, floor, ceil);
      Approach(used[0], limit, floor, ceil);
      Plain(used[0], limit, floor, ceil);
      assert Outside(next, floor, ceil) <= |used| - 1;
      assert Roomy(next);
      Converges(next, used[1..], floor, ceil);
    }
  }

  /** With a ceiling any lower, no run that comes from above gets down to it. */
  lemma {:induction false} StopsShort(limit: uint64, used: seq<uint64>, floor: uint64, ceil: uint64)
    requires Feasible(limit, used, floor, ceil) && floor <= ceil < 2 * GAS_LIMIT_BOUND_DIVISOR - 1
    requires 2 * GAS_LIMIT_BOUND_DIVISOR - 1 <= limit && Roomy(limit)
    ensures LimitAfter(limit, used, floor, ceil) > ceil
    decreases |used|
  {
    hide CalcGasLimit, Contrib;
    if used != [] {
      Plain(used[0], limit, floor, ceil);
      assert CalcGasLimit(used[0], limit, floor, ceil) == limit - (Quota(limit) - 1);
      StopsShort(CalcGasLimit(used[0], limit, floor, ceil), used[1..], floor, ceil);
    }
  }

  /** A number of empty blocks. */
  function Empty(n: nat): seq<uint64> { if n == 0 then [] else [0] + Empty(n - 1) }

  lemma {:induction false} EmptyFeasible(limit: uint64, n: nat, floor: uint64, ceil: uint64)
    ensures Feasible(limit, Empty(n), floor, ceil) && |Empty(n)| == n
    decreases n
  {
    if n > 0 {
      assert Empty(n)[1..] == Empty(n - 1);
      EmptyFeasible(CalcGasLimit(0, limit, floor, ceil), n - 1, floor, ceil);
    }
  }

  /** Every long enough run of blocks ends in the range. */
  ghost predicate AlwaysConverges(limit: uint64, floor: uint64, ceil: uint64) {
    forall used :: Feasible(limit, used, floor, ceil) && |used| >= Outside(limit, floor, ceil) ==>
      floor <= LimitAfter(limit, used, floor, ceil) <= ceil
  }

  /** From any limit of at least 2048, which all valid headers after the genesis have, the range is
      reached for certain exactly if its ceiling is at least 2047. */
  lemma ConvergesExactly(limit: uint64, floor: uint64, ceil: uint64)
    requires 2 * GAS_LIMIT_BOUND_DIVISOR <= limit && floor <= ceil && Roomy(limit) && Roomy(ceil)
    ensures AlwaysConverges(limit, floor, ceil) <==> 2 * GAS_LIMIT_BOUND_DIVISOR - 1 <= ceil
  {
    hide CalcGasLimit, Feasible, LimitAfter;
    if 2 * GAS_LIMIT_BOUND_DIVISOR - 1 <= ceil {
      forall used | Feasible(limit, used, floor, ceil) && |used| >= Outside(limit, floor, ceil)
        ensures floor <= LimitAfter(limit, used, floor, ceil) <= ceil
      {
        Converges(limit, used, floor, ceil);
      }
    } else {
      var used := Empty(Outside(limit, floor, ceil));
      EmptyFeasible(limit, Outside(limit, floor, ceil), floor, ceil);
      StopsShort(limit, used, floor, ceil);
    }
  }

  /** Where the range leaves it free, the limit changes by the difference between a 1024th of one and a
      half times the gas used and a 1024th of the limit, less one. So it rises from two thirds on, and
      falls 1366 or more below two thirds. */
  lemma FollowsUse(used: uint64, limit: uint64, floor: uint64, ceil: uint64)
    requires used <= limit && 1024 <= limit && Roomy(limit) && used + used / 2 <= MAX_UINT64
    requires var aim := limit + (used + used / 2) / 1024 - limit / 1024 + 1; 5000 <= aim && floor <= aim <= ceil
    ensures var next := CalcGasLimit(used, limit, floor, ceil);
            && next - limit == (used + used / 2) / 1024 - (limit / 1024 - 1)
            && (3 * used >= 2 * limit ==> next > limit)
            && (3 * used + 2 * 2048 <= 2 * limit ==> next < limit)
  {
    hide CalcGasLimit;
    Small(used + used / 2);
    Plain(used, limit, floor, ceil);
  }

  /** Right at two thirds the limit does not stay, it rises by one. */
  lemma TwoThirds(k: nat)
    requires 2 <= k && 3 * 1024 * k <= 0x7FFF_FFFF_FFFF_FFFF
    ensures CalcGasLimit(2 * 1024 * k, 3 * 1024 * k, 0, MAX_UINT64) == 3 * 1024 * k + 1
  {
    var limit: uint64 := 3 * 1024 * k;
    var used: uint64 := 2 * 1024 * k;
    FollowsUse(used, limit, 0, MAX_UINT64);
  }

  /** The limit stays exactly if the two 1024ths differ by one. */
  lemma StaysExactly(used: uint64, limit: uint64)
    requires used <= limit && 5 * 1024 <= limit && Roomy(limit) && used + used / 2 <= MAX_UINT64
    ensures CalcGasLimit(used, limit, 0, MAX_UINT64) == limit <==> (used + used / 2) / 1024 == limit / 1024 - 1
  {
    hide CalcGasLimit;
    Small(used + used / 2);
    Plain(used, limit, 0, MAX_UINT64);
  }

  /** What would fall below the minimum of 5000 stops there. */
  lemma StopsAtMinimum(used: uint64, limit: uint64, floor: uint64, ceil: uint64)
    requires used <= limit && 1024 <= limit && Roomy(limit) && used + used / 2 <= MAX_UINT64 && floor <= 5000 <= ceil
    requires limit + (used + used / 2) / 1024 - limit / 1024 + 1 <= 5000
    ensures CalcGasLimit(used, limit, floor, ceil) == 5000
  {
    hide CalcGasLimit;
    Small(used + used / 2);
    Plain(used, limit, floor, ceil);
  }
}
