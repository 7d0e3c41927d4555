/** eth/handler.go: the loop that answers GetBlockHeaders of the devp2p Ethereum Wire Protocol. */
module HeaderQueries {
  import opened Transactions
  import opened Blocks
  import opened ChainTree
  import opened HeaderChains

  const TWO_64 := 0x1_0000_0000_0000_0000
  const SOFT_RESPONSE_LIMIT := 2 * 1024 * 1024
  const EST_HEADER_RLP_SIZE := 500
  const MAX_HEADER_FETCH := 192
  const MAX_NON_CANONICAL := 100

  /** The origin is a hash unless that is zero; then it is a number. */
  datatype Query = Query(hash: Hash, number: uint64, amount: uint64, skip: uint64, reverse: bool) {
    /** The distance between two headers, in 64-bit arithmetic. */
    function Step(): uint64 { if skip == MAX_UINT64 then 0 else skip + 1 }

    /** How many headers may be sent: the amount converts to a signed number. */
    function Limit(): int {
      if amount >= TWO_64 / 2 then 0 else if amount < MAX_HEADER_FETCH then amount else MAX_HEADER_FETCH
    }
  }

  /** Generations between the origin and the `i`-th header. */
  function Gen(i: nat, step: nat): nat { i * step }

  /** Off-chain steps it takes to get `k` generations up; single generations cost nothing. */
  ghost function Spent(canon: map<nat, Hash>, b: Block, step: nat, k: nat): nat {
    if step == 1 then 0 else Fewest(OffCanon(canon, b), k)
  }

  ghost predicate Canonical(canon: map<nat, Hash>, b: Block) { b.number in canon && canon[b.number] == b.Hash() }

  /** The `i`-th header of the answer, if there were no limit on how many are sent. */
  ghost function Answer(stored: set<Block>, canon: map<nat, Hash>, head: Block, q: Query, i: nat): Option<Block> {
    var step := q.Step();
    if q.hash.Id? then
      var b := q.hash.block;
      if b !in stored then None
      else if i == 0 then Some(b)
      else if step == 0 then None
      else if q.reverse then
        if Gen(i, step) <= b.number && Spent(canon, b, step, Gen(i, step)) <= MAX_NON_CANONICAL then Up(b, Gen(i, step)) else None
      else
        if Canonical(canon, b) && b.number + Gen(i, step) <= MAX_UINT64 then AtNumber(head, b.number + Gen(i, step)) else None
    else if q.reverse then
      if Gen(i, step) <= q.number then AtNumber(head, q.number - Gen(i, step)) else None
    else AtNumber(head, (q.number + Gen(i, step)) % TWO_64)
  }

  /** Where the loop stands after `i` headers. */
  ghost predicate Standing(stored: set<Block>, canon: map<nat, Hash>, head: Block, q: Query, i: nat,
                           hash: Hash, number: int, left: nat, unknown: bool) {
    if unknown then Answer(stored, canon, head, q, i) == None
    else if q.hash.Id? then
      && Answer(stored, canon, head, q, i) == Some(if hash.Id? then hash.block else q.hash.block)
      && hash.Id? && hash.block in stored && number == hash.block.number
      && (q.reverse ==> left == MAX_NON_CANONICAL - Spent(canon, q.hash.block, q.Step(), Gen(i, q.Step())))
    else
      && 0 <= number <= MAX_UINT64 && Answer(stored, canon, head, q, i) == AtNumber(head, number)
      && if q.reverse then number == q.number - Gen(i, q.Step()) else number == (q.number + Gen(i, q.Step())) % TWO_64
  }

  lemma UpNone(b: Block)
    ensures Up(b, 0) == Some(b)
  {
  }

  lemma More(i: nat, step: nat)
    ensures Gen(i + 1, step) == Gen(i, step) + step && Gen(0, step) == 0 && (step == 0 ==> Gen(i, step) == 0)
  {
  }

  /** Going up, the way to the canonical chain gets shorter until it is reached. */
  lemma {:induction false} OffCanonUp(genesis: Block, stored: set<Block>, head: Block, b: Block, k: nat)
    requires Tree(genesis, stored) && head in stored && b in stored && k <= b.number
    ensures Up(b, k).Some?
    ensures var off := OffCanon(PathTo(head), b);
            OffCanon(PathTo(head), Up(b, k).value) == if k <= off then off - k else 0
    decreases k
  {
    TreeUp(genesis, stored, b, k);
    if k > 0 {
      OffCanonUp(genesis, stored, head, b.parent.block, k - 1);
      if Canonical(PathTo(head), b) {
        CanonAncestor(genesis, stored, head, b, 1);
        assert Up(b, 1) == Some(b.parent.block) by { OneUp(genesis, stored, b); }
      }
    }
  }

  lemma SpentMore(genesis: Block, stored: set<Block>, head: Block, b: Block, step: nat, k: nat)
    requires Tree(genesis, stored) && head in stored && b in stored && k <= b.number
    ensures Up(b, k).Some?
    ensures Spent(PathTo(head), b, step, k) + (if step == 1 then 0 else Fewest(OffCanon(PathTo(head), Up(b, k).value), step))
            == Spent(PathTo(head), b, step, k + step)
  {
    OffCanonUp(genesis, stored, head, b, k);
  }

  lemma WrapMore(n: nat, k: nat, step: nat)
    ensures (n + (k + step)) % TWO_64 == ((n + k) % TWO_64 + step) % TWO_64
  {
  }

  /** The header `i` steps up from the origin, and what going one further takes. */
  lemma UpFurther(genesis: Block, stored: set<Block>, head: Block, q: Query, i: nat, hash: Hash, number: int, left: nat)
    requires Tree(genesis, stored) && head in stored && q.hash.Id? && q.reverse
    requires Standing(stored, PathTo(head), head, q, i, hash, number, left, false)
    ensures q.hash.block in stored && Answer(stored, PathTo(head), head, q, i) == Some(hash.block)
    ensures q.Step() == 0 ==> Answer(stored, PathTo(head), head, q, i + 1) == None
    ensures q.Step() > 0 ==>
              var steps := if q.Step() == 1 then 0 else Fewest(OffCanon(PathTo(head), hash.block), q.Step());
              && Answer(stored, PathTo(head), head, q, i + 1) ==
                   (if q.Step() <= number && steps <= left then Up(hash.block, q.Step()) else None)
              && left - steps == MAX_NON_CANONICAL - Spent(PathTo(head), q.hash.block, q.Step(), Gen(i + 1, q.Step()))
    ensures q.Step() <= number ==> Up(hash.block, q.Step()).Some? && Up(hash.block, q.Step()).value in stored
                                   && Up(hash.block, q.Step()).value.number == number - q.Step()
  {
    hide PathTo, OffCanon, Gen, Up;
    var b, step := q.hash.block, q.Step();
    More(i, step);
    if step > 0 {
      assert Gen(i, step) <= b.number && Up(b, Gen(i, step)) == Some(hash.block) by { UpNone(b); }
      TreeUp(genesis, stored, b, Gen(i, step));
      SpentMore(genesis, stored, head, b, step, Gen(i, step));
      UpTwice(b, Gen(i, step), step);
    }
    if step <= number {
      TreeUp(genesis, stored, hash.block, step);
    }
  }

  /** Hash based traversal towards the genesis block. */
  method UpByHash(hc: HeaderChain, q: Query, ghost i: nat, hash0: Hash, number0: nat, left0: nat)
    returns (hash: Hash, number: nat, left: nat, unknown: bool)
    requires hc.Valid() && q.hash.Id? && q.reverse
    requires Standing(hc.stored, hc.canon, hc.current, q, i, hash0, number0, left0, false)
    modifies hc`headerCache
    ensures hc.Valid() && Standing(hc.stored, hc.canon, hc.current, q, i + 1, hash, number, left, unknown)
  {
    hide PathTo, OffCanon, Tree, Weighed, Known, Numbered, Cached, Up, Answer, Spent;
    UpFurther(hc.genesis, hc.stored, hc.current, q, i, hash0, number0, left0);
    var ancestor := q.Step();
    if ancestor == 0 {
      return hash0, number0, left0, true;
    }
    hash, number, left := hc.GetAncestor(hash0, number0, ancestor, left0);
    unknown := hash == Zero;
  }

  lemma InPath(genesis: Block, stored: set<Block>, head: Block, n: nat)
    requires Tree(genesis, stored) && head in stored && n <= head.number && AtNumber(head, n).Some? && AtNumber(head, n).value.number == n
    ensures Canonical(PathTo(head), AtNumber(head, n).value)
  {
  }

  lemma DownHere(genesis: Block, stored: set<Block>, head: Block, q: Query, i: nat, hash: Hash, number: int, left: nat)
    requires Tree(genesis, stored) && head in stored && q.hash.Id? && !q.reverse && q.Step() > 0 && q.hash.block.number <= MAX_UINT64
    requires Standing(stored, PathTo(head), head, q, i, hash, number, left, false)
    ensures number == q.hash.block.number + Gen(i, q.Step()) <= MAX_UINT64
    ensures Canonical(PathTo(head), hash.block) <==> Canonical(PathTo(head), q.hash.block)
  {
    hide PathTo, OffCanon, HashAt, Gen, Up, Canonical;
    More(0, q.Step());
    if i > 0 {
      var n := q.hash.block.number + Gen(i, q.Step());
      assert AtNumber(head, n) == Some(hash.block);
      TreeUp(genesis, stored, head, head.number - n);
      InPath(genesis, stored, head, n);
    }
  }

  /** The header `i` steps down from the origin, and the one that follows it. */
  lemma DownFurther(genesis: Block, stored: set<Block>, head: Block, q: Query, i: nat, hash: Hash, number: int, left: nat)
    requires Tree(genesis, stored) && head in stored && q.hash.Id? && !q.reverse && q.hash.block.number <= MAX_UINT64
    requires Standing(stored, PathTo(head), head, q, i, hash, number, left, false)
    ensures q.Step() == 0 ==> Answer(stored, PathTo(head), head, q, i + 1) == None
    ensures q.Step() > 0 ==>
              (Answer(stored, PathTo(head), head, q, i + 1) ==
               if Canonical(PathTo(head), hash.block) && number + q.Step() <= MAX_UINT64 then AtNumber(head, number + q.Step()) else None)
    ensures number <= MAX_UINT64
  {
    hide PathTo, OffCanon, HashAt, Gen, Up, AtNumber, Canonical;
    More(i, q.Step());
    if q.Step() > 0 {
      DownHere(genesis, stored, head, q, i, hash, number, left);
    }
  }

  /** Following a canonical header down the index, its distant ancestor is the origin exactly when
      the origin is canonical too. */
  lemma DownCheck(genesis: Block, stored: set<Block>, head: Block, b: Block, next: nat, step: nat)
    requires Tree(genesis, stored) && head in stored && b in stored && 0 < step == next - b.number && next <= head.number
    ensures AtNumber(head, next).Some?
    ensures var c := AtNumber(head, next).value;
            && c in stored && c.number == next && OffCanon(PathTo(head), c) == 0
            && Up(c, step).Some? && (Up(c, step).value == b <==> Canonical(PathTo(head), b))
  {
    hide Tree, OffCanon, HashAt;
    CanonStored(genesis, stored, head, next);
    PathDefined(genesis, stored, head);
    var c := HashAt(head, next).block;
    CanonAncestor(genesis, stored, head, c, step);
  }

  lemma AtMost(b: Block, n: nat)
    ensures AtNumber(b, n).Some? ==> n <= b.number
  {
  }

  /** Hash based traversal towards the leaf block. */
  method DownByHash(hc: HeaderChain, q: Query, ghost i: nat, hash0: Hash, number0: nat, left0: nat)
    returns (hash: Hash, number: nat, left: nat, unknown: bool)
    requires hc.Valid() && q.hash.Id? && !q.reverse && q.hash.block.number <= MAX_UINT64
    requires Standing(hc.stored, hc.canon, hc.current, q, i, hash0, number0, left0, false)
    modifies hc`headerCache
    ensures hc.Valid() && Standing(hc.stored, hc.canon, hc.current, q, i + 1, hash, number, left, unknown)
  {
    hide PathTo, OffCanon, Tree, Weighed, Known, Numbered, Cached, Up, Answer, Spent, Canonical, AtNumber;
    DownFurther(hc.genesis, hc.stored, hc.current, q, i, hash0, number0, left0);
    hash, number, left, unknown := hash0, number0, left0, true;
    var next := (number0 + q.skip + 1) % TWO_64;
    if next > number0 {
      var header := hc.GetHeaderByNumber(next);
      AtMost(hc.current, next);
      if header.Some? {
        DownCheck(hc.genesis, hc.stored, hc.current, hash0.block, next, q.Step());
        var nextHash := header.value.Hash();
        var expOldHash, at;
        expOldHash, at, left := hc.GetAncestor(nextHash, next, q.Step(), left);
        if expOldHash == hash0 {
          hash, number, unknown := nextHash, next, false;
        }
      }
    }
  }

  lemma Starting(stored: set<Block>, canon: map<nat, Hash>, head: Block, q: Query)
    ensures !q.hash.Id? ==> Standing(stored, canon, head, q, 0, q.hash, q.number, MAX_NON_CANONICAL, false)
    ensures q.hash.Id? && q.hash.block in stored ==>
              Standing(stored, canon, head, q, 0, q.hash, q.hash.block.number, MAX_NON_CANONICAL, false)
    ensures q.hash.Id? && q.hash.block !in stored ==> Answer(stored, canon, head, q, 0) == None
  {
    assert Gen(0, q.Step()) == 0;
  }

  lemma StandingAt(stored: set<Block>, canon: map<nat, Hash>, head: Block, q: Query, i: nat, hash: Hash, number: int, left: nat, unknown: bool)
    requires Standing(stored, canon, head, q, i, hash, number, left, unknown)
    ensures unknown ==> Answer(stored, canon, head, q, i) == None
    ensures !unknown && q.hash.Id? ==> hash.Id? && hash.block in stored && number == hash.block.number
                                       && Answer(stored, canon, head, q, i) == Some(hash.block)
    ensures !unknown && !q.hash.Id? ==> 0 <= number <= MAX_UINT64 && Answer(stored, canon, head, q, i) == AtNumber(head, number)
  {
  }

  lemma ByNumber(stored: set<Block>, canon: map<nat, Hash>, head: Block, q: Query, i: nat, hash: Hash, number: int, left: nat)
    requires !q.hash.Id? && Standing(stored, canon, head, q, i, hash, number, left, false)
    ensures q.reverse && number >= q.Step() ==>
              Standing(stored, canon, head, q, i + 1, hash, number - q.Step(), left, false)
    ensures q.reverse && number < q.Step() ==> Standing(stored, canon, head, q, i + 1, hash, number, left, true)
    ensures !q.reverse ==>
              Standing(stored, canon, head, q, i + 1, hash, (number + q.Step()) % TWO_64, left, false)
  {
    More(i, q.Step());
    WrapMore(q.number, Gen(i, q.Step()), q.Step());
  }

  /** The answer is exactly what the query describes, up to the limit or the first header that is not
      there. */
  method GetBlockHeaders(hc: HeaderChain, q: Query) returns (headers: seq<Block>)
    requires hc.Valid() && forall b :: b in hc.stored ==> b.number <= MAX_UINT64
    modifies hc`headerCache
    ensures hc.Valid() && |headers| <= q.Limit()
    ensures forall i :: 0 <= i < |headers| ==> Answer(hc.stored, hc.canon, hc.current, q, i) == Some(headers[i])
    ensures |headers| == q.Limit() || Answer(hc.stored, hc.canon, hc.current, q, |headers|) == None
    ensures |headers| <= 192 && |headers| <= q.amount
    ensures q.amount < 0x8000_0000_0000_0000 ==>
              |headers| == 192 || |headers| == q.amount || Answer(hc.stored, hc.canon, hc.current, q, |headers|) == None
  {
    hide PathTo, OffCanon, Tree, Weighed, Known, Numbered, Cached, Up, Answer, Spent, Canonical, AtNumber, Standing, Gen;
    headers := [];
    var hashMode := q.hash != Zero;
    var hash, number: nat, left: nat := q.hash, q.number, MAX_NON_CANONICAL;
    var first, unknown, bytes := true, false, 0;
    var amount := if q.amount >= TWO_64 / 2 then q.amount - TWO_64 else q.amount;
    Starting(hc.stored, hc.canon, hc.current, q);
    while !unknown && |headers| < amount && bytes < SOFT_RESPONSE_LIMIT && |headers| < MAX_HEADER_FETCH
      invariant hc.Valid() && |headers| <= q.Limit() && bytes == EST_HEADER_RLP_SIZE * |headers|
      invariant forall i :: 0 <= i < |headers| ==> Answer(hc.stored, hc.canon, hc.current, q, i) == Some(headers[i])
      invariant unknown ==> Answer(hc.stored, hc.canon, hc.current, q, |headers|) == None
      invariant if first && hashMode then headers == [] && hash == q.hash && left == MAX_NON_CANONICAL && !unknown
                else Standing(hc.stored, hc.canon, hc.current, q, |headers|, hash, number, left, unknown)
      decreases MAX_HEADER_FETCH - |headers|
    {
      var origin: Option<Block>;
      if !(first && hashMode) {
        StandingAt(hc.stored, hc.canon, hc.current, q, |headers|, hash, number, left, unknown);
      }
      if hashMode {
        if first {
          first := false;
          origin := GetBlock(hc.stored, hash, hash.block.number);
          if origin.Some? {
            number := origin.value.number;
          }
        } else {
          origin := hc.GetHeader(hash, number);
        }
      } else {
        origin := hc.GetHeaderByNumber(number);
      }
      if origin.None? {
        break;
      }
      headers := headers + [origin.value];
      bytes := bytes + EST_HEADER_RLP_SIZE;
      ghost var i := |headers| - 1;
      if hashMode && q.reverse {
        hash, number, left, unknown := UpByHash(hc, q, i, hash, number, left);
      } else if hashMode {
        hash, number, left, unknown := DownByHash(hc, q, i, hash, number, left);
      } else {
        ByNumber(hc.stored, hc.canon, hc.current, q, i, hash, number, left);
        if q.reverse {
          if number >= q.Step() {
            number := number - q.Step();
          } else {
            unknown := true;
          }
        } else {
          number := (number + q.Step()) % TWO_64;
        }
      }
      StandingAt(hc.stored, hc.canon, hc.current, q, i + 1, hash, number, left, unknown);
    }
  }

  lemma CanonicalAt(genesis: Block, stored: set<Block>, head: Block, b: Block)
    requires Tree(genesis, stored) && head in stored && Canonical(PathTo(head), b)
    ensures AtNumber(head, b.number) == Some(b)
  {
    hide Tree, HashAt;
    PathDefined(genesis, stored, head);
    CanonStored(genesis, stored, head, b.number);
  }

  lemma HeadUp(head: Block, n: nat, m: nat)
    requires n <= m && AtNumber(head, m).Some?
    ensures Up(AtNumber(head, m).value, m - n) == AtNumber(head, n)
  {
    UpTwice(head, head.number - m, m - n);
  }

  lemma DownApart(genesis: Block, stored: set<Block>, head: Block, q: Query, i: nat)
    requires Tree(genesis, stored) && head in stored && q.hash.Id? && !q.reverse
    requires Answer(stored, PathTo(head), head, q, i).Some? && Answer(stored, PathTo(head), head, q, i + 1).Some?
    ensures var x, y := Answer(stored, PathTo(head), head, q, i).value, Answer(stored, PathTo(head), head, q, i + 1).value;
            Up(y, q.skip + 1) == Some(x)
  {
    hide PathTo, OffCanon, Gen, Up, HashAt, AtNumber;
    var b, step := q.hash.block, q.Step();
    More(i, step);
    More(0, step);
    var n, m := b.number + Gen(i, step), b.number + Gen(i + 1, step);
    CanonicalAt(genesis, stored, head, b);
    HeadUp(head, n, m);
  }

  /** By hash, any two consecutive headers of an answer are exactly skip + 1 generations apart. */
  lemma GenerationsApart(genesis: Block, stored: set<Block>, head: Block, q: Query, i: nat)
    requires Tree(genesis, stored) && head in stored && q.hash.Id?
    requires Answer(stored, PathTo(head), head, q, i).Some? && Answer(stored, PathTo(head), head, q, i + 1).Some?
    ensures var x, y := Answer(stored, PathTo(head), head, q, i).value, Answer(stored, PathTo(head), head, q, i + 1).value;
            if q.reverse then Up(x, q.skip + 1) == Some(y) else Up(y, q.skip + 1) == Some(x)
  {
    hide PathTo, OffCanon, HashAt, Gen, Up;
    var b, step := q.hash.block, q.Step();
    More(i, step);
    if q.reverse {
      UpNone(b);
      UpTwice(b, Gen(i, step), step);
    } else {
      DownApart(genesis, stored, head, q, i);
    }
  }

  lemma NoGen(step: nat)
    ensures Gen(0, step) == 0
  {
  }

  lemma NumberAt(genesis: Block, stored: set<Block>, head: Block, n: nat)
    requires Tree(genesis, stored) && head in stored
    ensures AtNumber(head, n).Some? ==> AtNumber(head, n).value.number == n
  {
    hide Tree;
    if n <= head.number { TreeUp(genesis, stored, head, head.number - n); }
  }

  /** By number, the first header is the canonical one at the origin, and numbers are skip + 1 apart. */
  lemma NumbersApart(genesis: Block, stored: set<Block>, head: Block, q: Query, i: nat)
    requires Tree(genesis, stored) && head in stored && q.hash == Zero
    requires Answer(stored, PathTo(head), head, q, i).Some? && Answer(stored, PathTo(head), head, q, i + 1).Some?
    ensures Answer(stored, PathTo(head), head, q, 0) == AtNumber(head, q.number)
    ensures var x, y := Answer(stored, PathTo(head), head, q, i).value, Answer(stored, PathTo(head), head, q, i + 1).value;
            && AtNumber(head, x.number) == Some(x) && AtNumber(head, y.number) == Some(y)
            && if q.reverse then y.number == x.number - (q.skip + 1) % 0x1_0000_0000_0000_0000
               else y.number == (x.number + q.skip + 1) % 0x1_0000_0000_0000_0000
  {
    hide PathTo, OffCanon, HashAt, Gen, Up, Tree, AtNumber;
    var step := q.Step();
    More(i, step);
    NoGen(step);
    if q.reverse {
      NumberAt(genesis, stored, head, q.number - Gen(i, step));
      NumberAt(genesis, stored, head, q.number - Gen(i + 1, step));
    } else {
      NumberAt(genesis, stored, head, (q.number + Gen(i, step)) % TWO_64);
      NumberAt(genesis, stored, head, (q.number + Gen(i + 1, step)) % TWO_64);
      WrapMore(q.number, Gen(i, step), step);
    }
  }

  /** By hash and towards the genesis, header `i` is the ancestor by i * (skip + 1) generations, if there
      is one, and, unless single generations are asked for, if no more than 100 of them are off the
      canonical chain. */
  lemma BackwardExactly(stored: set<Block>, canon: map<nat, Hash>, head: Block, q: Query, i: nat)
    requires q.hash.Id? && q.hash.block in stored && q.reverse && q.skip < MAX_UINT64
    ensures Answer(stored, canon, head, q, i) ==
              var b, k := q.hash.block, i * (q.skip + 1);
              if i == 0 || (k <= b.number && (q.skip == 0 || OffCanon(canon, b) <= 100 || k <= 100)) then Up(b, k) else None
  {
    hide Up, OffCanon;
    UpNone(q.hash.block);
  }
}
