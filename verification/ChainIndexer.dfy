/** core/chain_indexer.go: the section indexer as a state machine. Head events, queries, checkpoints and
    changes of the canonical hashes come in between the blocks of a section that is being processed. */
module ChainIndexers {
  import opened Transactions
  import opened Blocks
  import opened ChainTree

  /** The hash `k` generations before the block that `h` stands for. */
  function Back(h: Hash, k: nat): Hash {
    if k == 0 then h else if h.Id? then Back(h.block.parent, k - 1) else Zero
  }

  /** A chain whose numbers go down to 0 one by one. */
  ghost predicate Numbered(b: Block) {
    b.number > 0 ==> b.parent.Id? && b.parent.block.number == b.number - 1 && Numbered(b.parent.block)
  }

  lemma {:induction false} BackTwice(h: Hash, j: nat, k: nat)
    ensures Back(Back(h, j), k) == Back(h, j + k)
    decreases j
  {
    if j > 0 && h.Id? {
      BackTwice(h.block.parent, j - 1, k);
    }
  }

  lemma {:induction false} NumberedUp(b: Block, k: nat)
    requires Numbered(b) && k <= b.number
    ensures Up(b, k).Some? && Up(b, k).value.number == b.number - k && Numbered(Up(b, k).value)
    ensures Back(b.Hash(), k) == Up(b, k).value.Hash()
    decreases k
  {
    if k > 0 {
      NumberedUp(b.parent.block, k - 1);
    }
  }

  /** Canonical hashes are linked. */
  lemma CanonBack(head: Block, n: nat, k: nat)
    requires Numbered(head) && k <= n <= head.number
    ensures HashAt(head, n).Id? && HashAt(head, n).block.number == n && Numbered(HashAt(head, n).block)
    ensures Back(HashAt(head, n), k) == HashAt(head, n - k)
  {
    NumberedUp(head, head.number - n);
    NumberedUp(head, head.number - (n - k));
    BackTwice(head.Hash(), head.number - n, k);
  }

  /** The number of the last block of section `k`. */
  function LastBlock(k: nat, size: Positive): nat { (k + 1) * size - 1 }

  /** The number of blocks in `k` sections. */
  function Length(k: nat, size: Positive): nat { k * size }

  lemma LengthNext(k: nat, size: Positive)
    ensures Length(0, size) == 0 && Length(k + 1, size) == Length(k, size) + size
  {
  }

  /** Canonical hashes by number, as they are in the chain database. Nothing says that they are linked. */
  type Numbers = map<nat, Hash>

  function ReadCanonicalHash(canon: Numbers, n: nat): Hash { if n in canon then canon[n] else Zero }

  type Heads = map<nat, Hash>

  function SectionHead(heads: Heads, k: int): Hash { if k in heads then heads[k] else Zero }

  ghost predicate Joined(heads: Heads, k: nat, size: Positive) {
    && k > 0 && k in heads && k - 1 in heads
    && heads[k].Id? && heads[k].block.number == LastBlock(k, size)
    && heads[k - 1] == Back(heads[k], size)
  }

  /** From `floor` on, below `stored`, every section has a head, and each head is one section before
      the next. */
  ghost predicate Chained(heads: Heads, floor: nat, stored: nat, size: Positive) {
    && (forall k :: k in heads ==> k < stored && heads[k].Id?)
    && (forall k: nat :: floor <= k < stored ==> k in heads)
    && (forall k: nat :: floor < k < stored ==> Joined(heads, k, size))
  }

  lemma NoneBack(h: Hash)
    ensures Back(h, 0) == h
  {
  }

  lemma {:induction false} HeadsLinked(heads: Heads, floor: nat, stored: nat, size: Positive, k: nat)
    requires Chained(heads, floor, stored, size) && floor <= k < stored
    ensures heads[k] == Back(heads[stored - 1], Length(stored - 1 - k, size))
    decreases stored - k
  {
    hide Back, Length;
    LengthNext(if k < stored - 1 then stored - 2 - k else 0, size);
    if k < stored - 1 {
      HeadsLinked(heads, floor, stored, size, k + 1);
      assert Joined(heads, k + 1, size);
      BackTwice(heads[stored - 1], Length(stored - 2 - k, size), size);
    } else {
      NoneBack(heads[k]);
    }
  }

  /** Section `k` ends in the canonical block. */
  ghost predicate Correct(heads: Heads, canon: Numbers, k: nat, size: Positive) {
    k in heads && heads[k] == ReadCanonicalHash(canon, LastBlock(k, size))
  }

  /** The canonical hashes at the ends of sections are linked to the one at the end of the last section. */
  ghost predicate LinkedEnds(canon: Numbers, from: nat, stored: nat, size: Positive) {
    forall k: nat :: from <= k < stored ==>
      ReadCanonicalHash(canon, LastBlock(k, size)) == Back(ReadCanonicalHash(canon, LastBlock(stored - 1, size)), Length(stored - 1 - k, size))
  }

  /** If the last section is correct then all are, exactly if the canonical hashes are linked. */
  lemma AllCorrect(heads: Heads, floor: nat, stored: nat, size: Positive, canon: Numbers, from: nat)
    requires Chained(heads, floor, stored, size) && floor <= from < stored && Correct(heads, canon, stored - 1, size)
    ensures (forall k: nat :: from <= k < stored ==> Correct(heads, canon, k, size)) <==> LinkedEnds(canon, from, stored, size)
  {
    hide Back, ReadCanonicalHash, LastBlock, Length;
    forall k: nat | from <= k < stored
      ensures k in heads && heads[k] == Back(ReadCanonicalHash(canon, LastBlock(stored - 1, size)), Length(stored - 1 - k, size))
    {
      HeadsLinked(heads, floor, stored, size, k);
    }
    if forall k: nat :: from <= k < stored ==> Correct(heads, canon, k, size) {
      forall k: nat | from <= k < stored
        ensures ReadCanonicalHash(canon, LastBlock(k, size)) == Back(ReadCanonicalHash(canon, LastBlock(stored - 1, size)), Length(stored - 1 - k, size))
      {
        assert Correct(heads, canon, k, size);
      }
    }
  }

  lemma Between(k: nat, last: nat, size: Positive)
    requires k <= last
    ensures LastBlock(last, size) - Length(last - k, size) == LastBlock(k, size)
  {
  }

  /** An index that is the path to some block is linked, as far as it goes. */
  lemma PathLinked(head: Block, from: nat, stored: nat, size: Positive)
    requires Numbered(head) && (stored > 0 ==> LastBlock(stored - 1, size) <= head.number)
    ensures LinkedEnds(PathTo(head), from, stored, size)
  {
    hide Back, HashAt, LastBlock, Numbered, Length;
    forall k: nat | from <= k < stored
      ensures ReadCanonicalHash(PathTo(head), LastBlock(k, size)) ==
              Back(ReadCanonicalHash(PathTo(head), LastBlock(stored - 1, size)), Length(stored - 1 - k, size))
    {
      Between(k, stored - 1, size);
      CanonBack(head, LastBlock(stored - 1, size), Length(stored - 1 - k, size));
    }
  }

  /** A section in the making: `lastHead` is the block before `number`. */
  datatype Job = Job(section: nat, oldHead: Hash, lastHead: Hash, number: nat, failed: bool)

  ghost predicate Underway(j: Job, size: Positive) {
    && j.section * size <= j.number <= (j.section + 1) * size
    && (j.section > 0 ==> j.oldHead.Id?)
    && if j.number == j.section * size then j.lastHead == j.oldHead
       else
         && j.lastHead.Id? && j.lastHead.block.number == j.number - 1
         && j.oldHead == Back(j.lastHead, j.number - j.section * size)
  }

  /** One more block that fits onto the last one. */
  lemma NextBlock(j: Job, size: Positive, h: Hash)
    requires Underway(j, size) && j.number < (j.section + 1) * size
    requires h.Id? && h.block.number == j.number && h.block.parent == j.lastHead
    ensures Underway(j.(lastHead := h, number := j.number + 1), size)
  {
    assert Back(h, j.number + 1 - j.section * size) == Back(j.lastHead, j.number - j.section * size);
    NoneBack(j.lastHead);
  }

  lemma Full(k: nat, size: Positive)
    ensures (k + 1) * size == k * size + size && (k + 1) * size - 1 == LastBlock(k, size)
    ensures k > 0 ==> k * size > 0
  {
  }

  function Min(x: nat, y: nat): nat { if x <= y then x else y }

  function Until(heads: Heads, n: nat): Heads { map k | k in heads && k < n :: heads[k] }

  /** A finished section joins the one before it. What is beyond it, if a checkpoint was set meanwhile,
      goes. */
  lemma Finished(j: Job, heads: Heads, floor: nat, stored: nat, size: Positive)
    requires Underway(j, size) && j.number == (j.section + 1) * size && Chained(heads, floor, stored, size)
    requires j.section == 0 || j.oldHead == SectionHead(heads, j.section - 1)
    ensures stored >= j.section && j.lastHead.Id?
    ensures Chained(Until(heads, j.section)[j.section := j.lastHead], Min(floor, j.section), j.section + 1, size)
  {
    hide Back;
    Full(j.section, size);
    var heads' := Until(heads, j.section)[j.section := j.lastHead];
    assert j.section > 0 ==> Joined(heads', j.section, size);
    forall k: nat | floor < k < j.section ensures Joined(heads', k, size) { assert Joined(heads, k, size); }
  }

  lemma Truncated(heads: Heads, floor: nat, stored: nat, fewer: nat, size: Positive)
    requires Chained(heads, floor, stored, size) && fewer <= stored
    ensures Chained(Until(heads, fewer), floor, fewer, size)
  {
    hide Back;
    forall k: nat | floor < k < fewer ensures Joined(Until(heads, fewer), k, size) { assert Joined(heads, k, size); }
  }

  lemma Checkpointed(heads: Heads, floor: nat, stored: nat, section: nat, shead: Hash, size: Positive)
    requires Chained(heads, floor, stored, size) && stored <= section && shead.Id?
    ensures Chained(heads[section := shead], section, section + 1, size)
  {
  }

  function Cut(heads: Heads, from: nat, to: nat): Heads { map k | k in heads && !(from <= k < to) :: heads[k] }

  /** What can happen, in any order. */
  datatype Event = Canon(index: Numbers) | ChainHead(header: Block, ancestor: Option<nat>) | Head(number: nat, reorg: bool)
                 | Query | Checkpoint(section: nat, hash: Hash) | Update | BadReset | Next(ok: bool) | Finish(commit: bool)

  lemma AllBelow(heads: Heads, floor: nat, stored: nat, size: Positive)
    requires Chained(heads, floor, stored, size)
    ensures Until(heads, stored) == heads && forall k :: k in heads ==> k < stored && heads[k].Id?
    ensures forall k: nat :: floor <= k < stored ==> k in heads
  {
  }

  lemma LengthGrows(j: nat, k: nat, size: Positive)
    requires j <= k
    ensures Length(j, size) <= Length(k, size)
  {
    assert k * size == j * size + (k - j) * size;
  }

  /** A section is among the whole ones exactly if its last block is. */
  lemma WholeSections(n: nat, size: Positive)
    ensures n / size * size <= n < (n / size + 1) * size
    ensures forall k: nat :: k < n / size <==> LastBlock(k, size) < n
  {
    var q := n / size;
    assert Length(q, size) <= n < Length(q + 1, size);
    forall k: nat ensures k < q <==> LastBlock(k, size) < n {
      if k < q { LengthGrows(k + 1, q, size); } else { LengthGrows(q + 1, k + 1, size); }
      assert LastBlock(k, size) == Length(k + 1, size) - 1;
    }
  }

  lemma CheckpointEnd(k: nat, size: Positive)
    ensures k > 0 ==> k * size >= 1
  {
  }

  lemma FirstBlock(k: nat, size: Positive)
    ensures k * size <= (k + 1) * size
  {
  }

  /** What was dropped from the end, down to `stored`, are sections that do not end in canonical blocks. */
  ghost predicate OnlyWrongGone(heads: Heads, stored0: nat, stored: nat, checkpoint: nat, size: Positive, canon: Numbers) {
    stored <= stored0
    && forall k: nat :: stored <= k < stored0 ==> k >= checkpoint && SectionHead(heads, k) != ReadCanonicalHash(canon, LastBlock(k, size))
  }

  /** Exactly the sections are left that are below the checkpoint or do not reach beyond `number`. */
  ghost predicate StoredOnRollback(stored: nat, stored': nat, checkpoint: nat, number: nat, size: Positive) {
    forall k: nat :: k < stored' <==> k < stored && (k < checkpoint || LastBlock(k, size) <= number)
  }

  /** Exactly the sections stay known that do not reach beyond `number`, if the last one below the
      checkpoint does not. */
  ghost predicate KnownOnRollback(known: nat, known': nat, checkpoint: nat, number: nat, size: Positive) {
    forall k: nat :: k < known' <==>
      k < known && LastBlock(k, size) <= number && (checkpoint == 0 || LastBlock(checkpoint - 1, size) <= number)
  }

  /** Exactly the sections become known whose last block has enough confirmations, if the last one below
      the checkpoint has too and the chain matches the checkpoint. */
  ghost predicate KnownOnHead(known: nat, known': nat, checkpoint: nat, synced: bool, confirms: nat, number: nat, size: Positive) {
    forall k: nat :: k < known' <==>
      || k < known
      || (&& synced && LastBlock(k, size) + confirms <= number
          && (checkpoint == 0 || LastBlock(checkpoint - 1, size) + confirms <= number))
  }

  function Max(x: nat, y: nat): nat { if x <= y then y else x }

  lemma HeadKnows(known: nat, checkpoint: nat, synced: bool, confirms: nat, number: nat, size: Positive)
    ensures var whole := if number >= confirms then (number + 1 - confirms) / size else 0;
            var known' := if synced && whole >= checkpoint then Max(known, whole) else known;
            && KnownOnHead(known, known', checkpoint, synced, confirms, number, size)
            && (known' != known ==> known' * size + confirms <= number + 1 < (known' + 1) * size + confirms)
  {
    hide LastBlock;
    if number >= confirms {
      WholeSections(number + 1 - confirms, size);
    }
  }

  lemma RollbackKnows(known: nat, stored: nat, checkpoint: nat, number: nat, size: Positive)
    ensures var whole := (number + 1) / size;
            && KnownOnRollback(known, Min(known, if whole < checkpoint then 0 else whole), checkpoint, number, size)
            && StoredOnRollback(stored, Min(stored, Max(whole, checkpoint)), checkpoint, number, size)
  {
    hide LastBlock;
    WholeSections(number + 1, size);
  }

  class ChainIndexer {
    const sectionSize: Positive
    const confirmsReq: nat
    var canon: Numbers            // The canonical hashes in the chain database, changed by others
    var prev: Block               // The last header the event loop has seen
    var sectionHeads: Heads
    var storedSections: nat
    var knownSections: nat
    var cascadedHead: int
    var checkpointSections: nat
    var checkpointHead: Hash
    var job: Option<Job>
    ghost var floor: nat          // The first section of the linked ones

    ghost predicate Valid() reads this {
      && Chained(sectionHeads, floor, storedSections, sectionSize)
      && (floor > 0 ==> floor < storedSections && floor < checkpointSections)
      && (job.Some? ==> Underway(job.value, sectionSize))
    }

    /** All sections from the checkpoint on end in canonical blocks. */
    ghost predicate Verified() reads this {
      forall k: nat :: checkpointSections <= k < storedSections ==> Correct(sectionHeads, canon, k, sectionSize)
    }

    /** The last section ends in the canonical block, unless it is not beyond the checkpoint; and so do
        all the others exactly if the canonical hashes at their ends are linked. */
    ghost predicate LastVerified() reads this {
      && (storedSections > checkpointSections ==> Correct(sectionHeads, canon, storedSections - 1, sectionSize))
      && (Verified() <==> LinkedEnds(canon, checkpointSections, storedSections, sectionSize))
    }

    constructor (sectionSize: Positive, confirmsReq: nat, canon: Numbers, header: Block)
      ensures Valid() && Verified() && job.None? && storedSections == knownSections == checkpointSections == 0
      ensures this.sectionSize == sectionSize && this.confirmsReq == confirmsReq && this.canon == canon && prev == header
      ensures sectionHeads == map[]
    {
      this.sectionSize, this.confirmsReq, this.canon, prev := sectionSize, confirmsReq, canon, header;
      sectionHeads, storedSections, knownSections, cascadedHead := map[], 0, 0, 0;
      checkpointSections, checkpointHead, job, floor := 0, Zero, None, 0;
    }

    method SetValidSections(sections: nat)
      modifies `storedSections, `sectionHeads
      ensures storedSections == sections && sectionHeads == Cut(old(sectionHeads), sections, old(storedSections))
    {
      while storedSections > sections
        invariant storedSections <= old(storedSections) && (storedSections < old(storedSections) ==> sections <= storedSections)
        invariant sectionHeads == Cut(old(sectionHeads), storedSections, old(storedSections))
      {
        storedSections := storedSections - 1;
        sectionHeads := sectionHeads - {storedSections};
      }
      assert storedSections < sections ==>
               Cut(old(sectionHeads), storedSections, old(storedSections)) == Cut(old(sectionHeads), sections, old(storedSections));
      storedSections := sections;
    }

    /** Rolls back to `sections`, keeping what is linked. */
    method RollBack(sections: nat)
      requires Valid() && sections <= storedSections && (floor > 0 ==> floor < sections)
      modifies `storedSections, `sectionHeads
      ensures Valid() && storedSections == sections
      ensures sectionHeads == Until(old(sectionHeads), sections)
    {
      hide Back, Joined;
      Truncated(sectionHeads, floor, storedSections, sections, sectionSize);
      assert Cut(sectionHeads, sections, storedSections) == Until(sectionHeads, sections);
      SetValidSections(sections);
    }

    /** verifyLastHead. It looks at the last section only. */
    method VerifyLastHead()
      requires Valid()
      modifies `storedSections, `sectionHeads
      ensures Valid() && LastVerified()
      ensures OnlyWrongGone(old(sectionHeads), old(storedSections), storedSections, checkpointSections, sectionSize, canon)
      ensures sectionHeads == Until(old(sectionHeads), storedSections)
    {
      hide Back, Joined, Chained, LastBlock;
      AllBelow(sectionHeads, floor, storedSections, sectionSize);
      while storedSections > 0 && storedSections > checkpointSections
        invariant Valid() && sectionHeads == Until(old(sectionHeads), storedSections)
        invariant OnlyWrongGone(old(sectionHeads), old(storedSections), storedSections, checkpointSections, sectionSize, canon)
        decreases storedSections
      {
        Full(storedSections - 1, sectionSize);
        if SectionHead(sectionHeads, storedSections - 1) == ReadCanonicalHash(canon, storedSections * sectionSize - 1) {
          AllBelow(sectionHeads, floor, storedSections, sectionSize);
          AllCorrect(sectionHeads, floor, storedSections, sectionSize, canon, checkpointSections);
          return;
        }
        RollBack(storedSections - 1);
      }
    }

    /** As long as the canonical hashes are the path to some block, all sections are correct. */
    lemma CoherentIndex(head: Block)
      requires Valid() && LastVerified() && Numbered(head) && canon == PathTo(head)
      ensures Verified()
    {
      hide Back, Joined, LinkedEnds, LastBlock, HashAt;
      if storedSections > checkpointSections {
        assert sectionHeads[storedSections - 1].Id?;
        PathLinked(head, checkpointSections, storedSections, sectionSize);
      }
    }

    /** The canonical hashes change, whatever the indexer is doing and whatever they are. */
    method CanonChange(index: Numbers)
      requires Valid()
      modifies `canon
      ensures Valid() && canon == index
    {
      canon := index;
    }

    /** newHead. After a rollback exactly those sections are left that are below the checkpoint or do not
        reach beyond `number`. A new head makes exactly those sections known whose last block has enough
        confirmations, once they reach the checkpoint and the chain matches it. */
    method NewHead(number: nat, reorg: bool)
      requires Valid()
      modifies `storedSections, `sectionHeads, `knownSections, `cascadedHead
      ensures Valid() && storedSections <= old(storedSections) && sectionHeads == Until(old(sectionHeads), storedSections)
      ensures !reorg ==> storedSections == old(storedSections) && sectionHeads == old(sectionHeads)
      ensures !reorg ==>
                var synced := old(knownSections) >= checkpointSections
                              || ReadCanonicalHash(canon, checkpointSections * sectionSize - 1) == checkpointHead;
                KnownOnHead(old(knownSections), knownSections, checkpointSections, synced, confirmsReq, number, sectionSize)
      ensures !reorg && knownSections != old(knownSections) ==>
                && knownSections > old(knownSections) && knownSections >= checkpointSections
                && knownSections * sectionSize + confirmsReq <= number + 1 < (knownSections + 1) * sectionSize + confirmsReq
      ensures !reorg ==> cascadedHead == old(cascadedHead)
      ensures reorg ==>
                var whole := (number + 1) / sectionSize;
                var end := if whole < checkpointSections then 0 else whole * sectionSize;
                cascadedHead == if end < old(cascadedHead) then end else old(cascadedHead)
      ensures reorg ==> KnownOnRollback(old(knownSections), knownSections, checkpointSections, number, sectionSize)
      ensures reorg ==> StoredOnRollback(old(storedSections), storedSections, checkpointSections, number, sectionSize)
    {
      hide Back, Joined, Chained, LastBlock, KnownOnHead, KnownOnRollback, StoredOnRollback;
      AllBelow(sectionHeads, floor, storedSections, sectionSize);
      if reorg {
        var known := (number + 1) / sectionSize;
        var stored := known;
        RollbackKnows(knownSections, storedSections, checkpointSections, number, sectionSize);
        if known < checkpointSections {
          known := 0;
        }
        if stored < checkpointSections {
          stored := checkpointSections;
        }
        if known < knownSections {
          knownSections := known;
        }
        if stored < storedSections {
          RollBack(stored);
        }
        var end := known * sectionSize;
        if end < cascadedHead {
          cascadedHead := end;
        }
        return;
      }
      CheckpointEnd(checkpointSections, sectionSize);
      HeadKnows(knownSections, checkpointSections, knownSections >= checkpointSections
                || ReadCanonicalHash(canon, checkpointSections * sectionSize - 1) == checkpointHead, confirmsReq, number, sectionSize);
      if number >= confirmsReq {
        var sections := (number + 1 - confirmsReq) / sectionSize;
        if sections < checkpointSections {
          sections := 0;
        }
        if sections > knownSections {
          if knownSections < checkpointSections {
            var syncedHead := ReadCanonicalHash(canon, checkpointSections * sectionSize - 1);
            if syncedHead != checkpointHead {
              return;
            }
          }
          knownSections := sections;
        }
      }
    }

    /** The event loop gets a new head. Only if the header before it is no longer canonical is there a
        rollback, to the number of the common ancestor, if that is found. */
    method OnChainHead(header: Block, ancestor: Option<nat>)
      requires Valid()
      modifies `storedSections, `sectionHeads, `knownSections, `cascadedHead, `prev
      ensures Valid() && prev == header && storedSections <= old(storedSections) && sectionHeads == Until(old(sectionHeads), storedSections)
      ensures header.parent == old(prev).Hash() || ReadCanonicalHash(canon, old(prev).number) == old(prev).Hash() || ancestor.None? ==>
                storedSections == old(storedSections)
      ensures header.parent != old(prev).Hash() && ReadCanonicalHash(canon, old(prev).number) != old(prev).Hash() && ancestor.Some? ==>
                StoredOnRollback(old(storedSections), storedSections, checkpointSections, ancestor.value, sectionSize)
    {
      hide Back, Joined, Chained, LastBlock, StoredOnRollback;
      AllBelow(sectionHeads, floor, storedSections, sectionSize);
      if header.parent != prev.Hash() {
        if ReadCanonicalHash(canon, prev.number) != prev.Hash() {
          if ancestor.Some? {
            NewHead(ancestor.value, true);
          }
        }
      }
      NewHead(header.number, false);
      prev := header;
    }

    /** The update loop takes up the next section, holding the lock. */
    method UpdateStart()
      requires Valid() && job.None?
      modifies `storedSections, `sectionHeads, `job
      ensures Valid() && OnlyWrongGone(old(sectionHeads), old(storedSections), storedSections, checkpointSections, sectionSize, canon)
      ensures job.Some? <==> knownSections > old(storedSections)
      ensures if job.Some? then
                && LastVerified() && sectionHeads == Until(old(sectionHeads), storedSections)
                && job.value == Job(storedSections, SectionHead(sectionHeads, storedSections - 1), SectionHead(sectionHeads, storedSections - 1),
                                    storedSections * sectionSize, false)
              else storedSections == old(storedSections) && sectionHeads == old(sectionHeads)
    {
      hide Back, Joined, Chained, Correct, LinkedEnds, LastBlock;
      if knownSections > storedSections {
        VerifyLastHead();
        var section := storedSections;
        var oldHead := if section > 0 then SectionHead(sectionHeads, section - 1) else Zero;
        AllBelow(sectionHeads, floor, storedSections, sectionSize);
        FirstBlock(section, sectionSize);
        job := Some(Job(section, oldHead, oldHead, section * sectionSize, false));
      }
    }

    /** The backend cannot be reset: everything is dropped, without the lock. */
    method ResetFailed()
      requires Valid() && job.Some? && !job.value.failed && job.value.number == job.value.section * sectionSize
      modifies `storedSections, `sectionHeads, `job, `floor
      ensures Valid() && job.Some? && job.value.failed && storedSections == 0 && sectionHeads == map[]
    {
      hide Back, Joined;
      SetValidSections(0);
      assert sectionHeads == map[];
      floor := 0;
      job := Some(job.value.(failed := true));
    }

    static lemma Unfinished(j: Job, size: Positive)
      requires Underway(j, size)
      ensures Underway(j.(failed := true), size)
    {
    }

    /** The next block of the section. `ok` is whether its header is there and the backend takes it. */
    method ProcessBlock(ok: bool)
      requires Valid() && job.Some? && !job.value.failed && job.value.number < (job.value.section + 1) * sectionSize
      modifies `job
      ensures Valid() && job.Some? && job.value.section == old(job).value.section && job.value.oldHead == old(job).value.oldHead
      ensures var j, h := old(job).value, ReadCanonicalHash(canon, old(job).value.number);
              && (!job.value.failed <==> ok && h.Id? && h.block.number == j.number && h.block.parent == j.lastHead)
              && (!job.value.failed ==> job.value.lastHead == h && job.value.number == j.number + 1)
    {
      hide Back, Joined, Chained, Underway;
      var j := job.value;
      var hash := ReadCanonicalHash(canon, j.number);
      if !ok || hash == Zero || hash.block.number != j.number || hash.block.parent != j.lastHead {
        Unfinished(j, sectionSize);
        job := Some(j.(failed := true));
        return;
      }
      NextBlock(j, sectionSize, hash);
      job := Some(j.(lastHead := hash, number := j.number + 1));
    }

    /** The update loop takes the lock again and records the section, if the one before it is still
        there. If a checkpoint beyond it was set meanwhile, the sections up to that are dropped. */
    method UpdateFinish(commit: bool)
      requires Valid() && job.Some? && (job.value.failed || job.value.number == (job.value.section + 1) * sectionSize)
      modifies `storedSections, `sectionHeads, `knownSections, `cascadedHead, `job, `floor
      ensures Valid() && job.None?
      ensures var j := old(job).value;
              if commit && !j.failed && (j.section == 0 || j.oldHead == SectionHead(old(sectionHeads), j.section - 1)) then
                && old(storedSections) >= j.section && storedSections == j.section + 1
                && sectionHeads == Until(old(sectionHeads), j.section)[j.section := j.lastHead] && knownSections == old(knownSections)
                && cascadedHead == (j.section + 1) * sectionSize - 1
              else
                && LastVerified() && knownSections == storedSections && sectionHeads == Until(old(sectionHeads), storedSections)
                && cascadedHead == old(cascadedHead)
                && OnlyWrongGone(old(sectionHeads), old(storedSections), storedSections, checkpointSections, sectionSize, canon)
    {
      hide Back, Joined, Chained, Underway, Correct, LinkedEnds, LastBlock;
      var j := job.value;
      job := None;
      if commit && !j.failed && (j.section == 0 || j.oldHead == SectionHead(sectionHeads, j.section - 1)) {
        Finished(j, sectionHeads, floor, storedSections, sectionSize);
        AllBelow(sectionHeads, floor, storedSections, sectionSize);
        floor := Min(floor, j.section);
        sectionHeads := sectionHeads[j.section := j.lastHead];
        SetValidSections(j.section + 1);
        assert sectionHeads == Until(old(sectionHeads), j.section)[j.section := j.lastHead];
        cascadedHead := storedSections * sectionSize - 1;
      } else {
        VerifyLastHead();
        knownSections := storedSections;
      }
    }

    /** Sections, as reported to users of the index. */
    method Sections() returns (count: nat, last: int, hash: Hash)
      requires Valid()
      modifies `storedSections, `sectionHeads
      ensures Valid() && LastVerified() && count == storedSections && sectionHeads == Until(old(sectionHeads), storedSections)
      ensures OnlyWrongGone(old(sectionHeads), old(storedSections), storedSections, checkpointSections, sectionSize, canon)
      ensures last == count * sectionSize - 1 && hash == SectionHead(sectionHeads, count - 1)
      ensures count > checkpointSections ==> last >= 0 && hash == ReadCanonicalHash(canon, last)
    {
      hide Back, Joined, Chained, LinkedEnds, LastBlock;
      VerifyLastHead();
      count, last, hash := storedSections, storedSections * sectionSize - 1, SectionHead(sectionHeads, storedSections - 1);
      if count > checkpointSections {
        Full(count - 1, sectionSize);
      }
    }

    /** AddCheckpoint, at any time. A checkpoint is the hash of a block. */
    method AddCheckpoint(section: nat, shead: Hash)
      requires Valid() && shead.Id?
      modifies `storedSections, `sectionHeads, `checkpointSections, `checkpointHead, `floor
      ensures Valid()
      ensures if old(checkpointSections) <= section && old(storedSections) <= section then
                && checkpointSections == storedSections == section + 1
                && sectionHeads == old(sectionHeads)[section := shead] && checkpointHead == shead
              else
                && storedSections == old(storedSections) && sectionHeads == old(sectionHeads)
                && checkpointSections == old(checkpointSections) && checkpointHead == old(checkpointHead)
    {
      hide Back, Joined, Chained;
      if checkpointSections >= section + 1 || section < storedSections {
        return;
      }
      AllBelow(sectionHeads, floor, storedSections, sectionSize);
      Checkpointed(sectionHeads, floor, storedSections, section, shead, sectionSize);
      checkpointSections, checkpointHead, floor := section + 1, shead, section;
      sectionHeads := sectionHeads[section := shead];
      SetValidSections(section + 1);
      assert sectionHeads == old(sectionHeads)[section := shead];
    }

    /** One step of the indexer or of the world around it. Steps that are not possible do nothing. */
    method Step(e: Event)
      requires Valid() && (e.Checkpoint? ==> e.hash.Id?)
      modifies this
      ensures Valid()
    {
      match e {
        case Canon(index) => CanonChange(index);
        case ChainHead(header, ancestor) => OnChainHead(header, ancestor);
        case Head(number, reorg) => NewHead(number, reorg);
        case Query => var count, last, hash := Sections();
        case Checkpoint(section, shead) => AddCheckpoint(section, shead);
        case Update =>
          if job.None? {
            UpdateStart();
          }
        case BadReset =>
          if job.Some? && !job.value.failed && job.value.number == job.value.section * sectionSize {
            ResetFailed();
          }
        case Next(ok) =>
          if job.Some? && !job.value.failed && job.value.number < (job.value.section + 1) * sectionSize {
            ProcessBlock(ok);
          }
        case Finish(commit) =>
          if job.Some? && (job.value.failed || job.value.number == (job.value.section + 1) * sectionSize) {
            UpdateFinish(commit);
          }
      }
    }

    /** Whatever happens in whatever order, a query finds the last section correct, and all sections
        from the checkpoint on exactly if the canonical hashes at their ends are linked. */
    method Run(events: seq<Event>) returns (count: nat, last: int, hash: Hash)
      requires Valid() && forall e :: e in events && e.Checkpoint? ==> e.hash.Id?
      modifies this
      ensures Valid() && LastVerified() && count == storedSections
      ensures count > checkpointSections ==> last >= 0 && hash == ReadCanonicalHash(canon, last)
    {
      hide Valid, LastVerified;
      for i := 0 to |events|
        invariant Valid()
      {
        assert events[i] in events;
        Step(events[i]);
      }
      count, last, hash := Sections();
    }
  }

  /** With sections of 4096 blocks and 256 confirmations the first section is known from block 4351 on. */
  method FirstConfirmed(canon: Numbers, header: Block) returns (c: ChainIndexer, early: nat)
    ensures fresh(c) && c.Valid() && early == 0 && c.knownSections == 1
  {
    hide ChainIndexer.Valid;
    c := new ChainIndexer(4096, 256, canon, header);
    assert LastBlock(0, 4096) == 4095 && LastBlock(1, 4096) == 8191;
    c.NewHead(4350, false);
    early := c.knownSections;
    c.NewHead(4351, false);
  }

  /** A section of two blocks is processed without anything in between. */
  method IndexPair(c: ChainIndexer, x: Block, y: Block)
    requires c.Valid() && c.job.None? && c.sectionSize == 2 && c.checkpointSections == 0 && c.knownSections > c.storedSections
    requires c.storedSections > 0 ==> Correct(c.sectionHeads, c.canon, c.storedSections - 1, 2)
    requires ReadCanonicalHash(c.canon, 2 * c.storedSections) == x.Hash() && ReadCanonicalHash(c.canon, 2 * c.storedSections + 1) == y.Hash()
    requires x.number == 2 * c.storedSections && y.number == x.number + 1
    requires x.parent == SectionHead(c.sectionHeads, c.storedSections - 1) && y.parent == x.Hash()
    modifies c
    ensures c.Valid() && c.job.None? && c.canon == old(c.canon) && c.prev == old(c.prev)
    ensures c.checkpointSections == 0 && c.knownSections == old(c.knownSections) && c.storedSections == old(c.storedSections) + 1
    ensures c.sectionHeads == old(c.sectionHeads)[old(c.storedSections) := y.Hash()]
  {
    hide Back, Joined, Chained, Underway, LinkedEnds;
    ghost var k := c.storedSections;
    AllBelow(c.sectionHeads, c.floor, k, 2);
    c.UpdateStart();
    assert c.storedSections == k;
    c.ProcessBlock(true);
    c.ProcessBlock(true);
    c.UpdateFinish(true);
  }

  /** The chain of an instance: genesis, `first` on it, and two more blocks. */
  function Instance(first: Block): Numbers {
    var a2 := Block(first.Hash(), 2, 1, [], 0);
    map[0 := first.parent, 1 := first.Hash(), 2 := a2.Hash(), 3 := Block(a2.Hash(), 3, 1, [], 0).Hash()]
  }

  method TwoSections(g: Block, a1: Block) returns (c: ChainIndexer)
    requires g.parent == Zero && g.number == 0 && a1.parent == g.Hash() && a1.number == 1
    ensures fresh(c) && c.Valid() && c.sectionSize == 2 && c.storedSections == 2 && c.checkpointSections == 0
    ensures c.canon == Instance(a1) && c.canon[3].Id? && c.prev == c.canon[3].block && c.prev.number == 3
    ensures c.sectionHeads == map[0 := a1.Hash(), 1 := c.canon[3]]
  {
    hide ChainIndexer.Valid, ChainIndexer.LastVerified, LinkedEnds, Back;
    var canon := Instance(a1);
    c := new ChainIndexer(2, 0, canon, canon[3].block);
    c.NewHead(3, false);
    assert LastBlock(1, 2) == 3;
    IndexPair(c, g, a1);
    IndexPair(c, canon[2].block, canon[3].block);
  }

  /** A stale number hides a wrong section. Two sections of two blocks are stored. Then a single block
      takes over from all but the genesis, and the numbers above it stay. The event loop sees that the
      header before is still canonical, so nothing is rolled back, the last section is found correct,
      and the first one, which is not, is reported too. */
  method StaleSectionLeft(g: Block, a1: Block, b1: Block) returns (c: ChainIndexer, count: nat, last: int, hash: Hash)
    requires g.parent == Zero && g.number == 0 && a1.parent == b1.parent == g.Hash() && a1.number == b1.number == 1 && a1 != b1
    ensures fresh(c) && c.Valid() && c.canon == Instance(a1)[1 := b1.Hash()]
    ensures count == c.storedSections == 2 && c.checkpointSections == 0 && last == 3 && hash == ReadCanonicalHash(c.canon, 3)
    ensures !Correct(c.sectionHeads, c.canon, 0, c.sectionSize)
  {
    hide ChainIndexer.Valid, ChainIndexer.LastVerified, LinkedEnds, Back;
    c := TwoSections(g, a1);
    ghost var heads := c.sectionHeads;
    c.CanonChange(c.canon[1 := b1.Hash()]);
    assert ReadCanonicalHash(c.canon, c.prev.number) == c.prev.Hash();
    c.OnChainHead(b1, Some(0));
    assert c.storedSections == 2 && c.sectionHeads == heads;
    assert SectionHead(heads, 1) == ReadCanonicalHash(c.canon, LastBlock(1, 2));
    count, last, hash := c.Sections();
  }
}
