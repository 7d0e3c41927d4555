/** core/headerchain.go: the canonical chain of headers by total difficulty. */
module HeaderChains {
  import opened Transactions
  import opened Blocks
  import opened ChainTree

  datatype Status = NonStatTy | CanonStatTy | SideStatTy

  type Cache<V> = map<Hash, V>

  /** Adding to a bounded cache may push out any other entries. */
  method Remember<V>(cache: Cache<V>, h: Hash, v: V) returns (r: Cache<V>)
    ensures h in r && r[h] == v && forall k :: k in r && k != h ==> k in cache && r[k] == cache[k]
  {
    var keep: set<Hash> :| keep <= cache.Keys;
    r := (map k | k in cache && k in keep :: cache[k])[h := v];
  }

  ghost predicate Weighed(genesis: Block, stored: set<Block>, tds: map<Hash, nat>) {
    && (forall h :: h in tds <==> h.Id? && h.block in stored)
    && (forall h :: h in tds ==> h.Id? && tds[h] == Weight(genesis, h.block))
  }

  // What is cached is what is stored.

  ghost predicate Known(stored: set<Block>, cache: Cache<Block>) {
    forall h :: h in cache ==> h.Id? && h.block in stored && cache[h] == h.block
  }

  ghost predicate Numbered(stored: set<Block>, cache: Cache<nat>) {
    forall h :: h in cache ==> h.Id? && h.block in stored && cache[h] == h.block.number
  }

  ghost predicate Cached(tds: map<Hash, nat>, cache: Cache<nat>) {
    forall h :: h in cache ==> h in tds && cache[h] == tds[h]
  }

  lemma WeighedMore(genesis: Block, stored: set<Block>, tds: map<Hash, nat>, b: Block)
    requires Weighed(genesis, stored, tds)
    ensures Weighed(genesis, stored + {b}, tds[b.Hash() := Weight(genesis, b)])
    ensures b in stored ==> tds[b.Hash() := Weight(genesis, b)] == tds
    ensures forall h :: h in tds ==> tds[b.Hash() := Weight(genesis, b)][h] == tds[h]
  {
    hide Weight;
    assert b in stored ==> b.Hash() in tds;
  }

  datatype InsertError = Aborted | UnknownAncestor

  /** The order that ValidateHeaderChain insists on. */
  ghost predicate Linked(chain: seq<Block>) {
    forall i :: 0 < i < |chain| ==> chain[i].parent == chain[i - 1].Hash() && chain[i].number == chain[i - 1].number + 1
  }

  /** The first `n` headers of a chain. */
  ghost function FirstOf(chain: seq<Block>, n: nat): set<Block>
    requires n <= |chain|
  {
    set b | b in chain[..n]
  }

  lemma NoneOf(chain: seq<Block>)
    ensures FirstOf(chain, 0) == {}
  {
  }

  lemma OneMoreOf(chain: seq<Block>, i: nat)
    requires i < |chain|
    ensures FirstOf(chain, i + 1) == FirstOf(chain, i) + {chain[i]}
  {
    assert chain[..i + 1] == chain[..i] + [chain[i]];
  }

  lemma NextLinked(chain: seq<Block>, i: nat, stored: set<Block>)
    requires i < |chain| && Linked(chain) && FirstOf(chain, i) <= stored
    ensures i > 0 ==> Child(stored, chain[i])
  {
    if i > 0 {
      assert chain[..i][i - 1] == chain[i - 1];
      assert chain[i - 1] in FirstOf(chain, i);
    }
  }

  lemma {:induction false} GenesisLightest(genesis: Block, stored: set<Block>, b: Block)
    requires Tree(genesis, stored) && b in stored
    ensures Weight(genesis, genesis) <= Weight(genesis, b)
    decreases b
  {
    if b != genesis {
      GenesisLightest(genesis, stored, b.parent.block);
    }
  }

  function UpTo(stored: set<Block>, n: nat): set<Block> { set b | b in stored && b.number <= n }

  function TdsWithout(tds: map<Hash, nat>, dead: set<Block>): map<Hash, nat> {
    map h | h in tds && h.Id? && h.block !in dead :: tds[h]
  }

  function TdsWithin(tds: map<Hash, nat>, stored: set<Block>): map<Hash, nat> {
    map h | h in tds && h.Id? && h.block in stored :: tds[h]
  }

  function MarksWithout(canon: map<nat, Hash>, unmarked: set<nat>): map<nat, Hash> {
    map n | n in canon && n !in unmarked :: canon[n]
  }

  function MarksUpTo(canon: map<nat, Hash>, n: nat): map<nat, Hash> { map k | k in canon && k <= n :: canon[k] }

  /** All hashes at a number, on whatever fork. */
  function ReadAllHashes(stored: set<Block>, n: nat): set<Block> { set b | b in stored && b.number == n }

  function From(stored: set<Block>, n: nat): set<Block> { set b | b in stored && b.number >= n }

  lemma InUse(genesis: Block, stored: set<Block>, b: Block, n: nat)
    requires Tree(genesis, stored) && b in stored && ReadAllHashes(stored, n) == {}
    ensures b.number < n
  {
    assert forall c :: c in stored && c.number == n ==> c in ReadAllHashes(stored, n);
    if b.number >= n {
      NoGaps(genesis, stored, b, n);
    }
  }

  lemma FewerFrom(stored: set<Block>, n: nat)
    requires ReadAllHashes(stored, n) != {}
    ensures |From(stored, n + 1)| < |From(stored, n)|
  {
    assert From(stored, n) == From(stored, n + 1) + ReadAllHashes(stored, n);
  }

  /** Numbers in use above `num`, highest first. */
  method Leftovers(ghost genesis: Block, stored: set<Block>, num: nat) returns (nums: seq<nat>)
    requires Tree(genesis, stored)
    ensures forall b :: b in stored && b.number > num ==> b.number in nums
    ensures forall n :: n in nums ==> n > num && ReadAllHashes(stored, n) != {}
  {
    hide From, ReadAllHashes, Tree;
    nums := [];
    var n := num + 1;
    while ReadAllHashes(stored, n) != {}
      invariant n > num && forall k :: k in nums <==> num < k < n
      invariant forall k :: k in nums ==> ReadAllHashes(stored, k) != {}
      decreases |From(stored, n)|
    {
      FewerFrom(stored, n);
      nums := [n] + nums;
      n := n + 1;
    }
    forall b | b in stored && b.number > num ensures b.number < n { InUse(genesis, stored, b, n); }
  }

  /** Deletes everything at the given numbers. */
  method Wipe(stored: set<Block>, nums: seq<nat>, hdr: Block, dead0: set<Block>, unmarked0: set<nat>)
    returns (dead: set<Block>, unmarked: set<nat>)
    requires forall n :: n in nums ==> ReadAllHashes(stored, n) != {}
    ensures dead == dead0 + set b | b in stored && b.number in nums
    ensures unmarked == unmarked0 + set n | n in nums
  {
    dead, unmarked := dead0, unmarked0;
    for i := 0 to |nums|
      invariant dead == dead0 + set b | b in stored && b.number in nums[..i]
      invariant unmarked == unmarked0 + set n | n in nums[..i]
    {
      assert nums[..i + 1] == nums[..i] + [nums[i]];
      var hashes := ReadAllHashes(stored, nums[i]);
      if hashes == {} {
        hashes := {hdr};
      }
      assert nums[i] in nums;
      dead := dead + hashes;
      unmarked := unmarked + {nums[i]};
    }
    assert nums[..|nums|] == nums;
  }

  /** Exactly what is above number `n` goes. */
  ghost predicate Wiped(stored: set<Block>, n: nat, dead: set<Block>, unmarked: set<nat>, top: Block) {
    && (forall b :: b in dead <==> b in stored && b.number > n)
    && (forall k: nat :: k in unmarked && k <= top.number ==> k > n)
    && (forall k: nat :: n < k <= top.number ==> k in unmarked)
  }

  lemma NothingCached(stored: set<Block>, tds: map<Hash, nat>)
    ensures Known(stored, map[]) && Numbered(stored, map[]) && Cached(tds, map[])
  {
  }

  /** One round of SetHead: the number of `hdr`, and in the first round everything above it too. */
  method WipeLevel(ghost genesis: Block, stored: set<Block>, hdr: Block, origin: bool, dead0: set<Block>, unmarked0: set<nat>,
                   ghost top: Block)
    returns (dead: set<Block>, unmarked: set<nat>)
    requires Tree(genesis, stored) && hdr in stored && 0 < hdr.number <= top.number
    requires if origin then hdr == top && dead0 == {} && unmarked0 == {} else Wiped(stored, hdr.number, dead0, unmarked0, top)
    ensures Wiped(stored, hdr.number - 1, dead, unmarked, top)
  {
    hide Tree;
    var num := hdr.number;
    var nums: seq<nat> := [];
    if origin {
      nums := Leftovers(genesis, stored, num);
    }
    assert hdr in ReadAllHashes(stored, num);
    nums := nums + [num];
    dead, unmarked := Wipe(stored, nums, hdr, dead0, unmarked0);
  }

  lemma Rewound(genesis: Block, stored: set<Block>, tds: map<Hash, nat>, canon: map<nat, Hash>, top: Block, current: Block,
                dead: set<Block>, unmarked: set<nat>, origin: bool, head: nat)
    requires Tree(genesis, stored) && Weighed(genesis, stored, tds) && canon == PathTo(top) && top in stored && current in stored
    requires current.number <= top.number && HashAt(top, current.number) == current.Hash()
    requires if origin then current == top && dead == {} && unmarked == {} && top.number <= head
             else Wiped(stored, current.number, dead, unmarked, top) && current.number == head < top.number
    ensures Tree(genesis, stored - dead) && current in stored - dead
    ensures stored - dead == if origin then stored else UpTo(stored, head)
    ensures Weighed(genesis, stored - dead, TdsWithout(tds, dead))
    ensures TdsWithout(tds, dead) == TdsWithin(tds, stored - dead)
    ensures MarksWithout(canon, unmarked) == PathTo(current)
    ensures MarksWithout(canon, unmarked) == MarksUpTo(canon, head)
  {
    hide Weight, HashAt, Tree;
    assert stored - dead == if origin then stored else UpTo(stored, current.number);
    Prune(genesis, stored, current.number);
    PathEnds(genesis, stored, current);
    forall n: nat | n <= current.number ensures HashAt(top, n) == HashAt(current, n) {
      SamePath(genesis, stored, top, current, current.number, n);
    }
  }

  lemma {:induction false} AncestorLighter(genesis: Block, stored: set<Block>, b: Block, k: nat)
    requires Tree(genesis, stored) && b in stored && k <= b.number
    ensures Up(b, k).Some? && Weight(genesis, Up(b, k).value) <= Weight(genesis, b)
    decreases k
  {
    if k > 0 {
      assert b != genesis;
      AncestorLighter(genesis, stored, b.parent.block, k - 1);
    }
  }

  /** Up to a canonical header the canonical ones weigh less, so only the others matter. */
  lemma SideDecides(genesis: Block, stored: set<Block>, top: Block, current: Block, head: nat)
    requires Tree(genesis, stored) && top in stored && current in stored
    requires current.number == head <= top.number && HashAt(top, head) == current.Hash()
    ensures (forall b :: b in UpTo(stored, head) ==> Weight(genesis, b) <= Weight(genesis, current)) <==>
            (forall b :: b in stored && b.number <= head && HashAt(top, b.number) != b.Hash() ==> Weight(genesis, b) <= Weight(genesis, current))
  {
    hide Weight, Tree, Up;
    forall b | b in stored && b.number <= head && HashAt(top, b.number) == b.Hash() ensures Weight(genesis, b) <= Weight(genesis, current) {
      PathEnds(genesis, stored, current);
      SamePath(genesis, stored, top, current, head, b.number);
      AncestorLighter(genesis, stored, current, head - b.number);
    }
  }

  lemma WeightMore(genesis: Block, stored: set<Block>, b: Block)
    requires Tree(genesis, stored) && Child(stored, b)
    ensures Weight(genesis, b) == b.difficulty + Weight(genesis, b.parent.block)
  {
  }

  /** An index between two paths: up to number `n` it still is the path to `current`, above it and
      below `b` it is the path to `b`. */
  ghost predicate Marked(marks: map<nat, Hash>, b: Block, current: Block, n: nat) {
    forall k: nat :: if n < k < b.number then k in marks && marks[k] == HashAt(b, k)
                     else if k > b.number then k !in marks
                     else k < b.number ==> (k in marks <==> k <= current.number) && (k in marks ==> marks[k] == HashAt(current, k))
  }

  lemma MarkOne(marks: map<nat, Hash>, b: Block, current: Block, n: nat)
    requires Marked(marks, b, current, n) && 0 < n < b.number
    ensures Marked(marks[n := HashAt(b, n)], b, current, n - 1)
  {
    hide HashAt;
  }

  lemma MarkedAll(genesis: Block, stored: set<Block>, marks: map<nat, Hash>, b: Block, current: Block, n: nat)
    requires Tree(genesis, stored) && b in stored && current in stored && n < b.number
    requires Marked(marks, b, current, n)
    requires n <= current.number && HashAt(current, n) == HashAt(b, n)
    ensures marks[b.number := b.Hash()] == PathTo(b)
  {
    hide Tree, HashAt;
    PathEnds(genesis, stored, b);
    forall k: nat | k <= n ensures HashAt(current, k) == HashAt(b, k) { SamePath(genesis, stored, current, b, n, k); }
  }

  lemma PathDefined(genesis: Block, stored: set<Block>, b: Block)
    requires Tree(genesis, stored) && b in stored
    ensures forall n: nat :: n in PathTo(b) <==> n <= b.number
    ensures forall n: nat :: n <= b.number ==> PathTo(b)[n] == HashAt(b, n) && HashAt(b, n).Id?
  {
    forall n: nat | n <= b.number ensures HashAt(b, n).Id? { TreeUp(genesis, stored, b, b.number - n); }
  }

  /** Takes the canonical numbers above `b` out of the index, reading up to the first gap. */
  method Unmark(ghost genesis: Block, ghost stored: set<Block>, canon: map<nat, Hash>, ghost current: Block, b: Block)
    returns (marks: map<nat, Hash>)
    requires Tree(genesis, stored) && current in stored && canon == PathTo(current) && b.number > 0
    ensures Marked(marks, b, current, b.number - 1)
  {
    hide Tree, HashAt;
    PathDefined(genesis, stored, current);
    marks := canon;
    var i: nat := b.number + 1;
    while i in canon && canon[i] != Zero
      invariant i > b.number
      invariant marks == map n | n in canon && !(b.number < n < i) :: canon[n]
      decreases current.number + 1 - i
    {
      marks := marks - {i};
      i := i + 1;
    }
  }

  lemma NotGenesis(genesis: Block, stored: set<Block>, a: Block, b: Block)
    requires Tree(genesis, stored) && a in stored && b in stored
    ensures HashAt(a, 0) == HashAt(b, 0) && 0 in PathTo(b) && PathTo(b)[0] == HashAt(b, 0)
  {
    PathEnds(genesis, stored, a);
    PathEnds(genesis, stored, b);
  }

  function Fewest(x: nat, y: nat): nat { if x <= y then x else y }

  /** How many steps lead from `b` to the canonical chain. */
  ghost function OffCanon(canon: map<nat, Hash>, b: Block): nat {
    if (b.number in canon && canon[b.number] == b.Hash()) || !b.parent.Id? then 0
    else 1 + OffCanon(canon, b.parent.block)
  }

  /** `k` steps off the canonical chain lead from `b` to `c`. */
  ghost predicate Descended(canon: map<nat, Hash>, b: Block, k: nat, c: Block) {
    Up(b, k) == Some(c) && OffCanon(canon, b) == k + OffCanon(canon, c)
  }

  lemma AtStart(canon: map<nat, Hash>, b: Block)
    ensures Descended(canon, b, 0, b)
  {
  }

  lemma CanonStored(genesis: Block, stored: set<Block>, current: Block, n: nat)
    requires Tree(genesis, stored) && current in stored && n <= current.number
    ensures HashAt(current, n).Id? && HashAt(current, n).block in stored && HashAt(current, n).block.number == n
    ensures AtNumber(current, n) == Some(HashAt(current, n).block)
  {
    TreeUp(genesis, stored, current, current.number - n);
  }

  lemma OneUp(genesis: Block, stored: set<Block>, b: Block)
    requires Tree(genesis, stored) && b in stored && b.number > 0
    ensures Child(stored, b) && Up(b, 1) == Some(b.parent.block)
  {
    assert Up(b.parent.block, 0) == Some(b.parent.block);
  }

  /** Below a canonical header the index holds its ancestors. */
  lemma CanonAncestor(genesis: Block, stored: set<Block>, current: Block, b: Block, k: nat)
    requires Tree(genesis, stored) && current in stored && b in stored && k <= b.number
    requires b.number in PathTo(current) && PathTo(current)[b.number] == b.Hash()
    ensures b.number - k in PathTo(current) && Up(b, k).Some? && PathTo(current)[b.number - k] == Up(b, k).value.Hash()
    ensures OffCanon(PathTo(current), b) == 0
  {
    hide Tree;
    PathEnds(genesis, stored, b);
    SamePath(genesis, stored, current, b, b.number, b.number - k);
    TreeUp(genesis, stored, b, k);
  }

  lemma DescendedAll(canon: map<nat, Hash>, b: Block, k: nat, c: Block, j: nat)
    requires Descended(canon, b, k, c) && Up(c, j).Some?
    ensures Up(b, k + j) == Up(c, j)
  {
    UpTwice(b, k, j);
  }

  lemma OffGenesis(genesis: Block, stored: set<Block>, current: Block, c: Block)
    requires Tree(genesis, stored) && current in stored && c in stored
    requires !(c.number in PathTo(current) && PathTo(current)[c.number] == c.Hash())
    ensures c != genesis && c.number > 0
  {
    hide HashAt;
    PathEnds(genesis, stored, current);
  }

  lemma OffPath(genesis: Block, stored: set<Block>, current: Block, b: Block, k: nat, c: Block)
    requires Tree(genesis, stored) && current in stored && b in stored && c in stored
    requires !(c.number in PathTo(current) && PathTo(current)[c.number] == c.Hash())
    requires Descended(PathTo(current), b, k, c)
    ensures Child(stored, c) && OffCanon(PathTo(current), c) > 0 && Descended(PathTo(current), b, k + 1, c.parent.block)
  {
    hide PathTo, HashAt, Tree, Up;
    OffGenesis(genesis, stored, current, c);
    OneUp(genesis, stored, c);
    UpTwice(b, k, 1);
  }

  class HeaderChain {
    const genesis: Block
    // The database: headers and total difficulties by number and hash, canonical hashes by number,
    // and the head header's hash.
    var stored: set<Block>
    var tds: map<Hash, nat>
    var canon: map<nat, Hash>
    var headHeaderHash: Hash
    var current: Block
    var headerCache: Cache<Block>
    var tdCache: Cache<nat>
    var numberCache: Cache<nat>

    /** The tree, its weights, and the number index that is the path to the current header. */
    ghost predicate Sound() reads `stored, `tds, `canon, `current, `headHeaderHash {
      && Tree(genesis, stored) && Weighed(genesis, stored, tds) && current in stored && headHeaderHash == current.Hash()
      && canon == PathTo(current)
    }

    ghost predicate Valid() reads this {
      Sound() && Known(stored, headerCache) && Numbered(stored, numberCache) && Cached(tds, tdCache)
    }

    /** No stored header is heavier than the current one. */
    ghost predicate Heaviest() reads `stored, `current {
      forall b :: b in stored ==> Weight(genesis, b) <= Weight(genesis, current)
    }

    constructor (genesis: Block)
      requires genesis.number == 0
      ensures Valid() && Heaviest() && this.genesis == genesis && stored == {genesis} && current == genesis
    {
      this.genesis, stored, tds := genesis, {genesis}, map[genesis.Hash() := genesis.difficulty];
      canon, current, headHeaderHash := map[0 := genesis.Hash()], genesis, genesis.Hash();
      headerCache, tdCache, numberCache := map[], map[], map[];
      new;
      assert PathTo(genesis) == map[0 := genesis.Hash()];
    }

    function ReadCanonicalHash(n: nat): Hash reads `canon { if n in canon then canon[n] else Zero }

    // The caches go by hash alone, so a cached header is found under any number.

    method GetTd(h: Hash, number: int) returns (td: Option<nat>)
      requires Valid()
      modifies `tdCache
      ensures Valid()
      ensures td == if h.Id? && h.block in stored && (h.block.number == number || h in old(tdCache)) then Some(Weight(genesis, h.block)) else None
    {
      if h in tdCache {
        return Some(tdCache[h]);
      }
      if h in tds && h.Id? && h.block.number == number {
        tdCache := Remember(tdCache, h, tds[h]);
        return Some(tds[h]);
      }
      return None;
    }

    method GetHeader(h: Hash, number: int) returns (b: Option<Block>)
      requires Known(stored, headerCache)
      modifies `headerCache
      ensures Known(stored, headerCache)
      ensures b == if h.Id? && h.block in stored && (h.block.number == number || h in old(headerCache)) then Some(h.block) else None
    {
      if h in headerCache {
        return Some(headerCache[h]);
      }
      b := GetBlock(stored, h, number);
      if b.Some? {
        headerCache := Remember(headerCache, h, b.value);
      }
    }

    method HasHeader(h: Hash, number: int) returns (yes: bool)
      requires Valid()
      ensures yes <==> h.Id? && h.block in stored && (h.block.number == number || h in numberCache || h in headerCache)
    {
      if h in numberCache || h in headerCache {
        return true;
      }
      yes := GetBlock(stored, h, number).Some?;
    }

    /** Whether `b` takes over from the current header; `coin` decides between equals. */
    ghost predicate Wins(b: Block, coin: bool) reads `current {
      var mine, other := Weight(genesis, b), Weight(genesis, current);
      mine > other || (mine == other && (b.number < current.number || (b.number == current.number && coin)))
    }

    /** Goes down from `b` until the path to it is canonical. */
    method Overwrite(b: Block, unmarked: map<nat, Hash>) returns (marks: map<nat, Hash>)
      requires Valid() && Child(stored, b) && b in stored && Marked(unmarked, b, current, b.number - 1)
      modifies `headerCache
      ensures Valid() && marks[b.number := b.Hash()] == PathTo(b)
    {
      hide Weight, Weighed, Tree, Known, Numbered, Cached, Marked, PathTo;
      marks := unmarked;
      var headHash, headNumber := b.parent, b.number - 1;
      PathEnds(genesis, stored, b);
      PathParent(genesis, stored, b, b.number);
      var headHeader := GetHeader(headHash, headNumber);
      while ReadCanonicalHash(headNumber) != headHash
        invariant Valid()
        invariant 0 <= headNumber < b.number && headHash == HashAt(b, headNumber) && headHash.Id? && headHeader == Some(headHash.block)
        invariant headHash.block in stored && headHash.block.number == headNumber
        invariant Marked(marks, b, current, headNumber)
        decreases headNumber
      {
        NotGenesis(genesis, stored, b, current);
        PathParent(genesis, stored, b, headNumber);
        MarkOne(marks, b, current, headNumber);
        marks := marks[headNumber := headHash];
        headHash := headHeader.value.parent;
        headNumber := headHeader.value.number - 1;
        headHeader := GetHeader(headHash, headNumber);
      }
      PathDefined(genesis, stored, current);
      MarkedAll(genesis, stored, marks, b, current, headNumber);
    }

    /** Points the number index and the head markers to `b`. Both loops read the index as it was; the
        changes are written together at the end. */
    method Reroute(b: Block)
      requires Valid() && Child(stored, b) && b in stored
      modifies `canon, `current, `headHeaderHash, `headerCache
      ensures Valid() && current == b
    {
      hide Weight, Weighed, Tree, Known, Numbered, Cached, PathTo, Marked;
      var marks := Unmark(genesis, stored, canon, current, b);
      marks := Overwrite(b, marks);
      marks := marks[b.number := b.Hash()];
      canon, headHeaderHash, current := marks, b.Hash(), b;
    }

    method CurrentTd() returns (td: Option<nat>)
      requires Valid()
      modifies `tdCache
      ensures Valid() && td == Some(Weight(genesis, current))
    {
      hide Weight, Known, Numbered, Cached, Weighed, Tree, PathTo;
      td := GetTd(headHeaderHash, current.number);
    }

    /** Writes a header and its total difficulty to the database. */
    method Store(b: Block, td: nat)
      requires Valid() && Child(stored, b) && td == b.difficulty + Weight(genesis, b.parent.block)
      modifies `stored, `tds
      ensures Valid() && stored == old(stored) + {b} && td == Weight(genesis, b)
    {
      hide Weight, PathTo, Tree, Weighed;
      Grow(genesis, stored, b);
      WeightMore(genesis, stored, b);
      WeighedMore(genesis, stored, tds, b);
      stored := stored + {b};
      tds := tds[b.Hash() := td];
    }

    method CacheHeader(b: Block, td: nat)
      requires Valid() && b in stored && td == Weight(genesis, b)
      modifies `headerCache, `tdCache, `numberCache
      ensures Valid()
    {
      hide Weight, PathTo, Tree;
      assert b.Hash() in tds;
      tdCache := Remember(tdCache, b.Hash(), td);
      headerCache := Remember(headerCache, b.Hash(), b);
      numberCache := Remember(numberCache, b.Hash(), b.number);
    }

    /** WriteHeader. Headers come verified: if the parent is known, the number is the next one. */
    method WriteHeader(b: Block, coin: bool) returns (status: Status, ok: bool)
      requires Valid() && (b.parent.Id? && b.parent.block in stored ==> b.number == b.parent.block.number + 1)
      modifies this
      ensures Valid() && (old(Heaviest()) ==> Heaviest())
      ensures ok <==> b.parent.Id? && b.parent.block in old(stored)
      ensures !ok ==> status == NonStatTy && stored == old(stored) && current == old(current)
      ensures ok ==> stored == old(stored) + {b}
      ensures ok ==> if old(Wins(b, coin)) then current == b && status == CanonStatTy
                     else current == old(current) && status == SideStatTy
      ensures ok ==>
                var mine, other := Weight(genesis, b), Weight(genesis, old(current));
                && (mine > other ==> current == b) && (mine < other ==> current == old(current))
                && (mine == other && b.number < old(current).number ==> current == b)
                && (mine == other && b.number > old(current).number ==> current == old(current))
                && (mine == other && b.number == old(current).number ==> current == if coin then b else old(current))
    {
      hide Sound, Known, Numbered, Cached, Weight;
      var h := b.Hash();
      var ptd := GetTd(b.parent, b.number - 1);
      if ptd.None? {
        return NonStatTy, false;
      }
      var localTd := CurrentTd();
      var externTd := b.difficulty + ptd.value;
      Store(b, externTd);
      var reorg := externTd > localTd.value;
      if !reorg && externTd == localTd.value {
        if b.number < current.number {
          reorg := true;
        } else if b.number == current.number {
          reorg := coin;
        }
      }
      if reorg {
        Reroute(b);
        status := CanonStatTy;
      } else {
        status := SideStatTy;
      }
      CacheHeader(b, externTd);
      ok := true;
    }

    /** Whether a header is known and would not become the head. */
    method Ignored(b: Block) returns (yes: bool)
      requires Valid()
      modifies `tdCache
      ensures Valid() && (yes ==> b in stored) && (!yes && b in stored ==> Child(stored, b))
    {
      hide Weight, Known, Numbered, Cached, Weighed, PathTo;
      var has := HasHeader(b.Hash(), b.number);
      if !has {
        return false;
      }
      var externTd := GetTd(b.Hash(), b.number);
      var localTd := CurrentTd();
      GenesisLightest(genesis, stored, current);
      return externTd.None? || externTd.value <= localTd.value;
    }

    /** InsertHeaderChain, for headers that were checked to be linked. It can only fail on the first
        one, before anything was written, or stop early. */
    method InsertHeaderChain(chain: seq<Block>, coins: seq<bool>, stop: nat) returns (n: nat, err: Option<InsertError>)
      requires Valid() && chain != [] && |coins| == |chain| && Linked(chain)
      requires chain[0].parent.Id? && chain[0].parent.block in stored ==> chain[0].number == chain[0].parent.block.number + 1
      modifies this
      ensures Valid() && (old(Heaviest()) ==> Heaviest())
      ensures err.None? ==> n == 0 && stored == old(stored) + FirstOf(chain, |chain|)
      ensures err == Some(UnknownAncestor) <==> stop > 0 && chain[0] !in old(stored) && !Child(old(stored), chain[0])
      ensures err == Some(UnknownAncestor) ==> n == 0 && stored == old(stored) && current == old(current)
      ensures err == Some(Aborted) ==> n == stop < |chain| && stored == old(stored) + FirstOf(chain, n)
    {
      hide Valid, Heaviest, Weight, FirstOf, Linked;
      NoneOf(chain);
      for i := 0 to |chain|
        invariant Valid() && (old(Heaviest()) ==> Heaviest()) && i <= stop
        invariant stored == old(stored) + FirstOf(chain, i)
        invariant i > 0 ==> chain[0] in old(stored) || Child(old(stored), chain[0])
        invariant i == 0 ==> current == old(current)
      {
        if i == stop {
          return i, Some(Aborted);
        }
        var b := chain[i];
        NextLinked(chain, i, stored);
        OneMoreOf(chain, i);
        var skip := Ignored(b);
        if !skip {
          var status, ok := WriteHeader(b, coins[i]);
          if !ok {
            return i, Some(UnknownAncestor);
          }
        }
      }
      return 0, None;
    }

    /** Header-only SetHead. Above `head` nothing is left on any fork; up to `head` nothing changes, and
        the canonical header there is the new head. That still is the heaviest exactly if no header that
        was off the canonical chain, up to `head`, is heavier. */
    method SetHead(head: nat)
      requires Valid()
      modifies this
      ensures Valid()
      ensures stored == if old(current).number <= head then old(stored) else UpTo(old(stored), head)
      ensures tds == TdsWithin(old(tds), stored)
      ensures canon == MarksUpTo(old(canon), head)
      ensures current.Hash() == if old(current).number <= head then old(current).Hash() else HashAt(old(current), head)
      ensures head < old(current).number ==> HashAt(old(current), head).Id?
      ensures head < old(current).number ==>
                (Heaviest() <==> forall b :: b in old(stored) && b.number <= head && HashAt(old(current), b.number) != b.Hash() ==>
                                   Weight(genesis, b) <= Weight(genesis, HashAt(old(current), head).block))
    {
      hide Weight, Weighed, Tree, PathTo, Wiped, Known, Numbered, Cached, TdsWithin, TdsWithout, MarksWithout, MarksUpTo, HashAt;
      var dead: set<Block>, unmarked: set<nat> := {}, {};
      ghost var top := current;
      var origin := true;
      PathEnds(genesis, stored, top);
      while current.number > head
        invariant Tree(genesis, stored) && top in stored && Known(stored, headerCache)
        invariant current in stored && current.number <= top.number && HashAt(top, current.number) == current.Hash()
        invariant headHeaderHash == current.Hash() && stored == old(stored) && canon == old(canon) && tds == old(tds)
        invariant if origin then current == top && dead == {} && unmarked == {}
                  else Wiped(stored, current.number, dead, unmarked, top) && head <= current.number < top.number
        decreases current.number
      {
        var hdr := current;
        var num := hdr.number;
        PathParent(genesis, stored, top, num);
        var parent := GetHeader(hdr.parent, num - 1);
        current := if parent.None? then genesis else parent.value;
        headHeaderHash := hdr.parent;
        dead, unmarked := WipeLevel(genesis, stored, hdr, origin, dead, unmarked, top);
        origin := false;
      }
      Rewound(genesis, stored, tds, canon, top, current, dead, unmarked, origin, head);
      if !origin {
        SideDecides(genesis, stored, top, current, head);
      }
      stored := stored - dead;
      tds := TdsWithout(tds, dead);
      canon := MarksWithout(canon, unmarked);
      headerCache, tdCache, numberCache := map[], map[], map[];
      NothingCached(stored, tds);
    }

    method GetHeaderByNumber(n: nat) returns (b: Option<Block>)
      requires Valid()
      modifies `headerCache
      ensures Valid()
      ensures b == AtNumber(current, n)
      ensures b.Some? ==> b.value in stored && b.value.number == n
    {
      hide Weight, Weighed, Tree, Known, Numbered, Cached;
      PathDefined(genesis, stored, current);
      var h := ReadCanonicalHash(n);
      if h == Zero {
        return None;
      }
      CanonStored(genesis, stored, current, n);
      b := GetHeader(h, n);
    }

    /** GetAncestor. The ancestor is found unless there is none, or leaving the side branch takes more
        steps than allowed; asking for the parent is free. */
    method GetAncestor(h: Hash, number: nat, ancestor: nat, maxNonCanonical: nat) returns (found: Hash, at: nat, left: nat)
      requires Valid() && h.Id? && h.block in stored && number == h.block.number
      modifies `headerCache
      ensures Valid()
      ensures var steps := if ancestor == 1 then 0 else Fewest(OffCanon(canon, h.block), ancestor);
              if ancestor <= number && steps <= maxNonCanonical then
                && Up(h.block, ancestor).Some? && found == Up(h.block, ancestor).value.Hash()
                && at == number - ancestor && left == maxNonCanonical - steps
              else found == Zero && at == 0 && left == if ancestor > number then maxNonCanonical else 0
    {
      hide Weight, Weighed, Tree, Known, Numbered, Cached, Up, OffCanon, HashAt, PathTo;
      left := maxNonCanonical;
      if ancestor > number {
        return Zero, 0, left;
      }
      if ancestor == 1 {
        var header := GetHeader(h, number);
        OneUp(genesis, stored, h.block);
        return header.value.parent, number - 1, left;
      }
      var hash, num: nat, rest: nat := h, number, ancestor;
      AtStart(canon, h.block);
      while rest != 0
        invariant Valid() && rest <= num && rest <= ancestor && hash.Id? && hash.block in stored && hash.block.number == num
        invariant num == number - (ancestor - rest) && left == maxNonCanonical - (ancestor - rest)
        invariant Descended(canon, h.block, ancestor - rest, hash.block)
        decreases rest
      {
        if ReadCanonicalHash(num) == hash {
          CanonAncestor(genesis, stored, current, hash.block, rest);
          DescendedAll(canon, h.block, ancestor - rest, hash.block, rest);
          return ReadCanonicalHash(num - rest), num - rest, left;
        }
        OffPath(genesis, stored, current, h.block, ancestor - rest, hash.block);
        if left == 0 {
          return Zero, 0, left;
        }
        left := left - 1;
        rest := rest - 1;
        var header := GetHeader(hash, num);
        hash := header.value.parent;
        num := num - 1;
      }
      return hash, num, left;
    }
  }

  datatype HeaderOp = Write(header: Block, coin: bool) | Rewind(head: nat)

  /** Any run of writes and rewinds keeps the chain valid; writes alone keep the heaviest head. */
  method RunHeaders(hc: HeaderChain, ops: seq<HeaderOp>)
    requires hc.Valid()
    requires forall op :: op in ops && op.Write? && op.header.parent.Id? ==> op.header.number == op.header.parent.block.number + 1
    modifies hc
    ensures hc.Valid()
    ensures old(hc.Heaviest()) && (forall op :: op in ops ==> op.Write?) ==> hc.Heaviest()
  {
    hide HeaderChain.Valid, HeaderChain.Heaviest;
    for i := 0 to |ops|
      invariant hc.Valid()
      invariant old(hc.Heaviest()) && (forall op :: op in ops ==> op.Write?) ==> hc.Heaviest()
    {
      assert ops[i] in ops;
      match ops[i] {
        case Write(b, coin) => var status, ok := hc.WriteHeader(b, coin);
        case Rewind(head) => hc.SetHead(head);
      }
    }
  }

  /** A rewind can leave a heavier header than the head: a light header with a heavy child, and a
      sibling in between. */
  method HeavierLeftBehind() returns (hc: HeaderChain)
    ensures fresh(hc) && hc.Valid() && !hc.Heaviest()
  {
    var g := Block(Zero, 0, 1, [], 0);
    var a := Block(g.Hash(), 1, 1, [], 0);
    var b := Block(g.Hash(), 1, 5, [], 0);
    var c := Block(a.Hash(), 2, 9, [], 0);
    assert Weight(g, g) == 1 && Weight(g, a) == 2 && Weight(g, b) == 6 && Weight(g, c) == 11;
    hc := new HeaderChain(g);
    var status, ok := hc.WriteHeader(a, false);
    assert hc.current == a && a in hc.stored;
    status, ok := hc.WriteHeader(c, false);
    assert hc.current == c && g in hc.stored;
    status, ok := hc.WriteHeader(b, false);
    assert hc.current == c && b in hc.stored;
    hc.SetHead(1);
    assert HashAt(c, 1) == a.Hash() by { assert Up(c, 1) == Up(a, 0); }
    assert b in hc.stored;
  }
}
