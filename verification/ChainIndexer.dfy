/** core.ChainIndexer: fixed-size sections of the chain are indexed one after the other, without
    the lock, while the chain may switch branches between any two reads. Each method is one step
    under the lock, or the unlocked work in between; a run is any sequence of them. */
module ChainIndexer {
  import opened Basics
  import opened Headers

  /** The last block number of a section. */
  function LastOf(section: nat, size: nat): int { (section + 1) * size - 1 }

  /** `high` ends a section, and is exactly one section length above `low`; the first section starts at genesis. */
  ghost predicate Ends(t: Tree, low: Hash, high: Hash, section: nat, size: nat) {
    && size > 0 && Rooted(t) && t.Has(high) && t.Number(high) == LastOf(section, size)
    && (section > 0 ==> size <= t.Number(high) && Ancestor(t, high, size) == low)
  }

  lemma Lengths(section: nat, size: nat)
    requires size > 0
    ensures LastOf(section, size) == section * size + size - 1 >= 0
    ensures section > 0 ==> LastOf(section - 1, size) == section * size - 1 == LastOf(section, size) - size >= 0
  {
    assert (section + 1) * size == section * size + size;
    if section > 0 {
      assert section * size == (section - 1) * size + size;
    }
  }

  /** Headers never disappear, so what ends a section goes on ending it. */
  lemma EndsStays(t: Tree, low: Hash, high: Hash, section: nat, size: nat, header: Header)
    requires Ends(t, low, high, section, size) && Rooted(t.With(header)) &&
             (t.Has(header.hash) ==> t.Get(header.hash) == header)
    ensures Ends(t.With(header), low, high, section, size)
  {
    if section > 0 {
      WithAt(t, header, high, t.Number(high) - size);
    }
  }

  datatype Heads = Heads(at: map<nat, Hash>)
  {
    function Get(section: nat): Hash { if section in at then at[section] else NO_HASH }

    /** The head a section has to build on; the first builds on nothing. */
    function Before(section: nat): Hash { if section == 0 then NO_HASH else Get(section - 1) }
  }

  /** Every section from `base` on has its head stored, ending one section above the one before, and no later section
      has one. */
  ghost predicate Stacked(t: Tree, heads: Heads, base: nat, stored: nat, size: nat) {
    size > 0 && Rooted(t) && forall key {:trigger OpenStack(key)} :: OpenStack(key) ==>
      && (forall s: nat :: base <= s < stored ==> s in heads.at)
      && (forall s: nat :: s in heads.at ==> s < stored)
      && (forall s: nat :: s in heads.at ==> heads.at[s] != NO_HASH)
      && (forall s: nat :: base < s < stored ==> Ends(t, heads.Get(s - 1), heads.Get(s), s, size))
  }

  /** Always true; keeps the definition above folded. */
  predicate OpenStack(key: int) { true }

  lemma HeadAt(t: Tree, heads: Heads, base: nat, stored: nat, size: nat, s: nat)
    requires Stacked(t, heads, base, stored, size)
    ensures base <= s < stored ==> heads.Get(s) != NO_HASH
    ensures heads.Get(s) != NO_HASH ==> s < stored
    ensures base < s < stored ==> Ends(t, heads.Get(s - 1), heads.Get(s), s, size)
  {
    assert OpenStack(0);
  }

  /** Dropping the top sections. */
  lemma Unstack(t: Tree, heads: Heads, base: nat, stored: nat, size: nat, n: nat)
    requires Stacked(t, heads, base, stored, size) && base <= n <= stored
    ensures Stacked(t, Heads(heads.at - (set s | s in heads.at && s >= n)), base, n, size)
  {
    assert OpenStack(0);
    var left := Heads(heads.at - (set s | s in heads.at && s >= n));
    forall s: nat | base < s < n
      ensures Ends(t, left.Get(s - 1), left.Get(s), s, size)
    {
      assert heads.Get(s) == left.Get(s) && heads.Get(s - 1) == left.Get(s - 1);
    }
  }

  /** Adding the next section. */
  lemma Stack(t: Tree, heads: Heads, base: nat, stored: nat, size: nat, head: Hash)
    requires Stacked(t, heads, base, stored, size) && base <= stored && (base < stored || stored == 0)
    requires Ends(t, heads.Before(stored), head, stored, size)
    ensures Stacked(t, Heads(heads.at[stored := head]), base, stored + 1, size)
  {
    assert OpenStack(0);
    var more := Heads(heads.at[stored := head]);
    forall s: nat | base < s < stored + 1
      ensures Ends(t, more.Get(s - 1), more.Get(s), s, size)
    {
      assert s < stored ==> heads.Get(s) == more.Get(s);
      assert heads.Get(s - 1) == more.Get(s - 1);
    }
  }

  /** A section overtaken by a checkpoint is stored all the same, and everything above it is dropped. */
  lemma Restack(t: Tree, heads: Heads, base: nat, stored: nat, size: nat, section: nat, head: Hash)
    requires Stacked(t, heads, base, stored, size) && section < stored && head != NO_HASH
    ensures Stacked(t, Without(Heads(heads.at[section := head]), section + 1, stored), section, section + 1, size)
  {
    assert OpenStack(0);
  }

  /** The stored heads below a canonical one are canonical too. */
  lemma {:induction false} CanonicalBelow(t: Tree, index: Index, tip: Hash, heads: Heads, base: nat, stored: nat,
                                          size: nat, top: nat, s: nat)
    requires Stacked(t, heads, base, stored, size) && IsPath(t, index, tip) && base <= s <= top < stored && base < top
    requires LastOf(top, size) >= 0 && heads.Get(top) == index.Read(LastOf(top, size))
    ensures LastOf(s, size) >= 0 && heads.Get(s) == index.Read(LastOf(s, size))
    decreases top - s
  {
    Lengths(top, size);
    if s < top {
      HeadAt(t, heads, base, stored, size, top);
      var last, high := LastOf(top, size), heads.Get(top);
      ReadPath(t, index, tip, last);
      AgreesBelow(t, index, tip, high, last, last - size);
      if base < top - 1 {
        CanonicalBelow(t, index, tip, heads, base, stored, size, top - 1, s);
      }
    }
  }

  /** The heads without those of the sections from `n` up to, not including, `stored`. */
  function Without(heads: Heads, n: nat, stored: nat): Heads {
    Heads(heads.at - (set s | s in heads.at && n <= s < stored))
  }

  /** What the unlocked work sees of one block: the hash the index gives at that moment, which may be
      any, whether the header is there yet, and whether the backend takes it. */
  datatype View = View(hash: Hash, found: bool, taken: bool)

  /** A section handed to the unlocked work, the head it builds on, and the head the work came to once it succeeded. */
  datatype Job = Job(section: nat, oldHead: Hash, result: Option<Hash>)

  /** The i-th read of a section gave the block with the right number, on top of the one before it, and the backend took
      it. */
  ghost predicate Continues(t: Tree, views: seq<View>, section: nat, size: nat, oldHead: Hash, i: nat)
    requires i < |views|
  {
    var view, before := views[i], if i == 0 then oldHead else views[i - 1].hash;
    && view.hash != NO_HASH && view.found && t.Has(view.hash) && t.Number(view.hash) == section * size + i
    && t.Parent(view.hash) == before && view.taken
  }

  class ChainIndexer {
    const sectionSize: nat
    const confirmsReq: nat
    /** The chain: all headers ever seen, and the canonical index as it is now. */
    var tree: Tree
    var index: Index
    var heads: Heads
    var storedSections: nat
    var knownSections: nat
    var checkpointSections: nat
    var checkpointHead: Hash
    /** The section being processed, if any. */
    var job: Option<Job>
    /** The lowest section with a stored head. */
    ghost var base: nat

    /** Stored heads are one section apart, whatever the chain does; a section in process is the next one, or has
        been dropped by a rollback or overtaken by a checkpoint. */
    ghost predicate Valid()
      reads this
    {
      && Stacked(tree, heads, base, storedSections, sectionSize)
      && (base < storedSections || base == storedSections == 0) && (base == 0 || base < checkpointSections)
      && (job.Some? ==>
            && (storedSections <= job.value.section || job.value.section < checkpointSections)
            && (job.value.oldHead == NO_HASH <==> job.value.section == 0)
            && (job.value.result.Some? ==>
                 Ends(tree, job.value.oldHead, job.value.result.value, job.value.section, sectionSize))
            && (storedSections == job.value.section != checkpointSections ==>
                 heads.Before(storedSections) == job.value.oldHead))
    }

    /** Resumes with the sections a database holds, which are none in a new one. */
    constructor (tree: Tree, index: Index, size: nat, confirms: nat, heads: Heads, stored: nat)
      requires Stacked(tree, heads, 0, stored, size)
      ensures Valid() && job.None? && sectionSize == size && confirmsReq == confirms && this.tree == tree &&
              this.index == index
      ensures this.heads == heads && storedSections == stored && knownSections == checkpointSections == 0
    {
      sectionSize, confirmsReq := size, confirms;
      this.tree, this.index := tree, index;
      this.heads, storedSections, knownSections, base := heads, stored, 0, 0;
      checkpointSections, checkpointHead, job := 0, NO_HASH, None;
    }

    // ---- the chain ----

    /** A header arrives. */
    method Import(header: Header)
      requires Valid() && Linked(tree, header) && header.hash != NO_HASH &&
               (tree.Has(header.hash) ==> tree.Get(header.hash) == header)
      modifies this`tree
      ensures Valid() && tree == old(tree.With(header))
    {
      WithRooted(tree, header);
      if job.Some? && job.value.result.Some? {
        EndsStays(tree, job.value.oldHead, job.value.result.value, job.value.section, sectionSize, header);
      }
      StackedStays(tree, heads, base, storedSections, sectionSize, header);
      tree := tree.With(header);
    }

    /** The canonical index becomes anything at all. */
    method Switch(now: Index)
      requires Valid()
      modifies this`index
      ensures Valid() && index == now
    {
      index := now;
    }

    // ---- the stored sections ----

    /** Drops stored sections down to a count, or counts one more. */
    method SetValidSections(sections: nat)
      requires base <= storedSections
      modifies this`heads, this`storedSections
      ensures storedSections == sections
      ensures heads == if sections < old(storedSections) then Without(old(heads), sections, old(storedSections))
              else old(heads)
    {
      assert Without(heads, storedSections, storedSections).at == heads.at;
      while storedSections > sections
        invariant sections <= storedSections <= old(storedSections) || storedSections == old(storedSections)
        invariant heads == Without(old(heads), storedSections, old(storedSections))
        decreases storedSections
      {
        storedSections := storedSections - 1;
        heads := Heads(heads.at - {storedSections});
        assert heads.at == Without(old(heads), storedSections, old(storedSections)).at;
      }
      storedSections := sections;
    }

    /** Drops the sections from `n` on. */
    method Rollback(n: nat)
      requires Valid() && n <= storedSections && (base < n || n == 0) && (checkpointSections <= n || n == 0)
      modifies this`heads, this`storedSections, this`base
      ensures Valid() && storedSections == n && (n > 0 ==> base == old(base))
      ensures forall s: nat :: s < n ==> heads.Get(s) == old(heads).Get(s)
    {
      RollbackStack(tree, heads, base, storedSections, sectionSize, n);
      SetValidSections(n);
      if n == 0 {
        base := 0;
      }
    }

    /** Declares everything up to a section done. */
    method AddCheckpoint(section: nat, head: Hash)
      requires Valid() && head != NO_HASH
      modifies this`heads, this`storedSections, this`base, this`checkpointSections, this`checkpointHead
      ensures Valid()
      ensures if old(checkpointSections) > section || section < old(storedSections) then
              storedSections == old(storedSections) && heads == old(heads)
              else storedSections == checkpointSections == section + 1 && heads.Get(section) == checkpointHead == head
    {
      if checkpointSections >= section + 1 || section < storedSections {
        return;
      }
      checkpointSections, checkpointHead := section + 1, head;
      StackCheckpoint(tree, heads, base, storedSections, section, head, sectionSize);
      heads := Heads(heads.at[section := head]);
      SetValidSections(section + 1);
      base := section;
    }

    // ---- steps of the indexer ----

    /** A head event, or a reorg down to `head`. Only a reorg touches stored sections, and only down to the checkpoint.
        */
    method NewHead(head: nat, reorg: bool)
      requires Valid()
      modifies this`heads, this`storedSections, this`knownSections, this`base
      ensures Valid()
      ensures !reorg ==> storedSections == old(storedSections) && heads == old(heads)
      ensures !reorg ==>
                knownSections == if head < confirmsReq then old(knownSections)
                    else old(Learned((head + 1 - confirmsReq) / sectionSize))
      ensures reorg ==>
                && knownSections == Lesser(old(knownSections),
                                           PastCheckpoint((head + 1) / sectionSize, checkpointSections))
                && storedSections == Lesser(old(storedSections), Greater((head + 1) / sectionSize, checkpointSections))
    {
      if reorg {
        Revert((head + 1) / sectionSize);
      } else if head >= confirmsReq {
        Advance((head + 1 - confirmsReq) / sectionSize);
      }
    }

    /** Forgets sections a reorg left incomplete. */
    method Revert(complete: nat)
      requires Valid()
      modifies this`heads, this`storedSections, this`knownSections, this`base
      ensures Valid() && knownSections == Lesser(old(knownSections), PastCheckpoint(complete, checkpointSections))
      ensures storedSections == Lesser(old(storedSections), Greater(complete, checkpointSections))
    {
      var known, stored := complete, complete;
      if known < checkpointSections {
        known := 0;
      }
      if stored < checkpointSections {
        stored := checkpointSections;
      }
      if known < knownSections {
        knownSections := known;
      }
      if stored < storedSections {
        Rollback(stored);
      }
    }

    /** The number of known sections once so many are complete: more than before, and the first ones past the
        checkpoint only if the canonical chain has the checkpoint's head. */
    function Learned(complete: nat): nat
      requires sectionSize > 0
      reads this
    {
      assert checkpointSections > 0 ==> checkpointSections * sectionSize >= sectionSize;
      var sections := PastCheckpoint(complete, checkpointSections);
      if sections > knownSections &&
          (knownSections < checkpointSections ==> index.Read(checkpointSections * sectionSize - 1) == checkpointHead)
      then sections else knownSections
    }

    method Advance(complete: nat)
      requires Valid()
      modifies this`knownSections
      ensures Valid() && knownSections == old(Learned(complete))
    {
      var sections := PastCheckpoint(complete, checkpointSections);
      if sections > knownSections {
        if knownSections < checkpointSections {
          var synced := index.Read(checkpointSections * sectionSize - 1);
          if synced != checkpointHead {
            return;
          }
        }
        knownSections := sections;
      }
    }

    /** The last stored section is canonical, unless there is none or a checkpoint covers it. */
    ghost predicate LastCanonical()
      reads this
    {
      storedSections == 0 || storedSections <= checkpointSections ||
      (LastOf(storedSections - 1, sectionSize) >= 0 &&
       heads.Get(storedSections - 1) == index.Read(LastOf(storedSections - 1, sectionSize)))
    }

    /** Drops stored sections above the checkpoint until the last one is canonical. With a gap-free index all
        stored sections are canonical then, although only the last one was compared. */
    method VerifyLastHead(ghost tip: Hash)
      requires Valid()
      modifies this`heads, this`storedSections, this`base
      ensures Valid() && storedSections <= old(storedSections)
      ensures forall s: nat :: s < storedSections ==> heads.Get(s) == old(heads).Get(s)
      ensures forall s: nat ::
                storedSections <= s < old(storedSections) ==>
                    LastOf(s, sectionSize) >= 0 && old(heads).Get(s) != index.Read(LastOf(s, sectionSize))
      ensures LastCanonical()
      ensures IsPath(tree, index, tip) && storedSections > checkpointSections ==>
                forall s: nat ::
                    base <= s < storedSections ==>
                        LastOf(s, sectionSize) >= 0 && heads.Get(s) == index.Read(LastOf(s, sectionSize))
    {
      while storedSections > 0 && storedSections > checkpointSections
        invariant Valid() && storedSections <= old(storedSections)
        invariant forall s: nat :: s < storedSections ==> heads.Get(s) == old(heads).Get(s)
        invariant forall s: nat ::
                  storedSections <= s < old(storedSections) ==>
                      LastOf(s, sectionSize) >= 0 && old(heads).Get(s) != index.Read(LastOf(s, sectionSize))
        decreases storedSections
      {
        Lengths(storedSections - 1, sectionSize);
        if heads.Get(storedSections - 1) == index.Read(storedSections * sectionSize - 1) {
          AllCanonical(tree, index, tip, heads, base, storedSections, sectionSize);
          return;
        }
        Rollback(storedSections - 1);
      }
    }

    /** Takes on the next section, on top of a stored one that is still canonical or is covered by a checkpoint. */
    method Begin()
      requires Valid() && job.None? && knownSections > storedSections
      modifies this`heads, this`storedSections, this`base, this`job
      ensures Valid() && job == Some(Job(storedSections, heads.Before(storedSections), None))
      ensures storedSections <= old(storedSections)
      ensures LastCanonical()
      ensures forall s: nat ::
                storedSections <= s < old(storedSections) ==>
                    LastOf(s, sectionSize) >= 0 && old(heads).Get(s) != index.Read(LastOf(s, sectionSize))
    {
      VerifyLastHead(NO_HASH);
      var section := storedSections;
      if section > 0 {
        HeadAt(tree, heads, base, storedSections, sectionSize, section - 1);
      }
      job := Some(Job(section, heads.Before(section), None));
    }

    /** The unlocked work: reads the section's blocks in order, each of which must build on the one before. It succeeds
        exactly if all of them do and the backend takes them, whatever the chain was at each read, and then ends the
        section on top of the old head. */
    method ProcessSection(views: seq<View>, reset: bool, commit: bool)
      requires Valid() && job.Some? && |views| == sectionSize
      modifies this`heads, this`storedSections, this`base, this`job
      ensures Valid() && job.Some? && job.value.section == old(job.value.section) &&
              job.value.oldHead == old(job.value.oldHead)
      ensures reset ==> heads == old(heads) && storedSections == old(storedSections)
      ensures !reset ==> job.value.result.None? && storedSections == 0
      ensures job.value.result.Some? <==>
                reset && commit && forall i :: 0 <= i < |views| ==>
                    Continues(tree, views, job.value.section, sectionSize, job.value.oldHead, i)
      ensures job.value.result.Some? ==>
                && job.value.result.value == views[|views| - 1].hash
                && Ends(tree, job.value.oldHead, job.value.result.value, job.value.section, sectionSize)
    {
      var section, oldHead := job.value.section, job.value.oldHead;
      if !reset {
        Rollback(0);
        job := Some(Job(section, oldHead, None));
        return;
      }
      var r := ReadSection(views, section, oldHead);
      job := Some(Job(section, oldHead, if commit then r else None));
    }

    method ReadSection(views: seq<View>, section: nat, oldHead: Hash) returns (r: Option<Hash>)
      requires Rooted(tree) && sectionSize > 0 && |views| == sectionSize
      ensures r.Some? <==> forall i :: 0 <= i < |views| ==> Continues(tree, views, section, sectionSize, oldHead, i)
      ensures r.Some? ==> r.value == views[|views| - 1].hash && Ends(tree, oldHead, r.value, section, sectionSize)
    {
      var lastHead := oldHead;
      Lengths(section, sectionSize);
      ghost var start: nat := section * sectionSize;
      for i := 0 to |views|
        invariant lastHead == if i == 0 then oldHead else views[i - 1].hash
        invariant forall k :: 0 <= k < i ==> Continues(tree, views, section, sectionSize, oldHead, k)
        invariant i > 0 ==> tree.Has(lastHead) && tree.Number(lastHead) == start + i - 1
        invariant i > 0 && start > 0 ==> At(tree, lastHead, start - 1) == oldHead
      {
        var number: nat := section * sectionSize + i;
        var hash := views[i].hash;
        if hash == NO_HASH || !(views[i].found && tree.Has(hash) && tree.Number(hash) == number) {
          assert !Continues(tree, views, section, sectionSize, oldHead, i);
          return None;
        }
        var header := tree.Get(hash);
        if header.parent != lastHead || !views[i].taken {
          assert !Continues(tree, views, section, sectionSize, oldHead, i);
          return None;
        }
        NextBlock(tree, hash, number, start);
        lastHead := header.hash;
      }
      r := Some(lastHead);
    }

    /** Ends the job with its section stored. */
    method StoreSection(section: nat, head: Hash)
      requires Valid() && job.Some? && section == job.value.section <= storedSections &&
               Ends(tree, heads.Before(section), head, section, sectionSize)
      modifies this`heads, this`storedSections, this`base, this`job
      ensures Valid() && job.None? && storedSections == section + 1 && heads.Get(section) == head
      ensures forall s: nat :: s < section ==> heads.Get(s) == old(heads).Get(s)
    {
      if section == storedSections {
        Stack(tree, heads, base, storedSections, sectionSize, head);
      } else {
        Restack(tree, heads, base, storedSections, sectionSize, section, head);
        base := section;
      }
      job := None;
      heads := Heads(heads.at[section := head]);
      SetValidSections(section + 1);
    }

    /** Is the head that the section in process builds on still stored. */
    ghost predicate Unmoved()
      requires job.Some?
      reads this
    {
      job.value.section == 0 || heads.Get(job.value.section - 1) == job.value.oldHead
    }

    /** Stores the section if the work succeeded and the head it built on is still there, otherwise gives it up. */
    method Finish()
      requires Valid() && job.Some?
      modifies this`heads, this`storedSections, this`knownSections, this`base, this`job
      ensures Valid() && job.None?
      ensures old(job.value.result.Some? && Unmoved()) ==>
                && storedSections == old(job).value.section + 1
                && Some(heads.Get(storedSections - 1)) == old(job).value.result
                && forall s: nat :: s < storedSections - 1 ==> heads.Get(s) == old(heads).Get(s)
      ensures old(job.value.result.None? || !Unmoved()) ==>
                && storedSections <= old(storedSections) && knownSections == storedSections && LastCanonical()
                && (forall s: nat :: s < storedSections ==> heads.Get(s) == old(heads).Get(s))
                && forall s: nat ::
                     storedSections <= s < old(storedSections) ==>
                         LastOf(s, sectionSize) >= 0 && old(heads).Get(s) != index.Read(LastOf(s, sectionSize))
      ensures old(storedSections == job.value.section != checkpointSections) ==> old(Unmoved())
      ensures old(storedSections < job.value.section) ==> !old(Unmoved())
    {
      var section, oldHead, r := job.value.section, job.value.oldHead, job.value.result;
      if section > 0 {
        HeadAt(tree, heads, base, storedSections, sectionSize, section - 1);
      }
      if r.Some? && (section == 0 || oldHead == heads.Get(section - 1)) {
        StoreSection(section, r.value);
      } else {
        GiveUp();
      }
    }

    /** Ends the job without a result and forgets what is not stored. */
    method GiveUp()
      requires Valid()
      modifies this`heads, this`storedSections, this`knownSections, this`base, this`job
      ensures Valid() && job.None? && storedSections <= old(storedSections) && knownSections == storedSections
      ensures LastCanonical()
      ensures forall s: nat :: s < storedSections ==> heads.Get(s) == old(heads).Get(s)
      ensures forall s: nat ::
                storedSections <= s < old(storedSections) ==>
                    LastOf(s, sectionSize) >= 0 && old(heads).Get(s) != index.Read(LastOf(s, sectionSize))
    {
      job := None;
      VerifyLastHead(NO_HASH);
      knownSections := storedSections;
    }
  }

  /** Sections short of the checkpoint do not count as known. */
  function PastCheckpoint(sections: nat, checkpoint: nat): nat { if sections < checkpoint then 0 else sections }

  lemma AllCanonical(t: Tree, index: Index, tip: Hash, heads: Heads, base: nat, stored: nat, size: nat)
    requires Stacked(t, heads, base, stored, size) && base < stored
    requires LastOf(stored - 1, size) >= 0 && heads.Get(stored - 1) == index.Read(LastOf(stored - 1, size))
    ensures IsPath(t, index, tip) ==>
              forall s: nat ::
                  base <= s < stored ==> LastOf(s, size) >= 0 && heads.Get(s) == index.Read(LastOf(s, size))
  {
    if IsPath(t, index, tip) && base < stored - 1 {
      forall s: nat | base <= s < stored
        ensures LastOf(s, size) >= 0 && heads.Get(s) == index.Read(LastOf(s, size))
      {
        CanonicalBelow(t, index, tip, heads, base, stored, size, stored - 1, s);
      }
    }
  }

  /** One more block on top keeps the ancestor at the section's start. */
  lemma NextBlock(t: Tree, h: Hash, number: nat, start: nat)
    requires Rooted(t) && t.Has(h) && t.Number(h) == number >= start
    ensures t.Get(h).hash == h
    ensures start > 0 ==>
              t.Has(t.Parent(h)) && t.Number(t.Parent(h)) == number - 1 &&
                  At(t, h, start - 1) == At(t, t.Parent(h), start - 1)
    ensures number == start && start > 0 ==> At(t, h, start - 1) == t.Parent(h)
  {
    Step(t, h);
  }

  lemma StackedStays(t: Tree, heads: Heads, base: nat, stored: nat, size: nat, header: Header)
    requires Stacked(t, heads, base, stored, size) && Rooted(t.With(header)) &&
             (t.Has(header.hash) ==> t.Get(header.hash) == header)
    ensures Stacked(t.With(header), heads, base, stored, size)
  {
    assert OpenStack(0);
    forall s: nat | base < s < stored
      ensures Ends(t.With(header), heads.Get(s - 1), heads.Get(s), s, size)
    {
      EndsStays(t, heads.Get(s - 1), heads.Get(s), s, size, header);
    }
  }

  lemma RollbackStack(t: Tree, heads: Heads, base: nat, stored: nat, size: nat, n: nat)
    requires Stacked(t, heads, base, stored, size) && n <= stored && (base < n || n == 0)
    ensures var left := Without(heads, n, stored);
            && Stacked(t, if n == stored then heads else left, if n == 0 then 0 else base, n, size)
            && forall s: nat :: s < n ==> left.Get(s) == heads.Get(s)
  {
    assert OpenStack(0);
    var left := Without(heads, n, stored);
    if n > 0 {
      Unstack(t, heads, base, stored, size, n);
      assert left.at == heads.at - (set s | s in heads.at && s >= n);
    }
  }

  lemma StackCheckpoint(t: Tree, heads: Heads, base: nat, stored: nat, section: nat, head: Hash, size: nat)
    requires Stacked(t, heads, base, stored, size) && head != NO_HASH && stored <= section
    ensures Stacked(t, Heads(heads.at[section := head]), section, section + 1, size)
  {
    assert OpenStack(0);
  }
}
