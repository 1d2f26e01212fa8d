/** core.BlockChain: moving the head between branches of the block tree, with the number index,
    the transaction lookup index and the log events that follow it. */
module BlockChain {
  import opened Basics
  import opened Headers
  import opened HeaderChain

  type TxHash = nat

  datatype Log = Log(data: nat, removed: bool)

  /** What a block carries beside its header; logs are those of all its receipts in order. */
  datatype Body = Body(txs: seq<TxHash>, logs: seq<Log>)

  /** The block tree: every stored header has its body. */
  datatype Blocks = Blocks(tree: Tree, bodies: map<Hash, Body>)
  {
    ghost predicate Complete() {
      Rooted(tree) && tree.at.Keys == bodies.Keys
    }

    function Body(h: Hash): Body
      requires h in bodies
    {
      bodies[h]
    }
  }

  // ---- the path of a block ----

  /** The branch from `h` down to, not including, number n: highest first. */
  ghost function Down(t: Tree, h: Hash, n: nat): seq<Hash>
    requires Rooted(t) && t.Has(h)
    decreases t.Number(h) - n
  {
    if t.Number(h) <= n then [] else Down(t, h, n + 1) + [At(t, h, n + 1)]
  }

  lemma {:induction false} DownAt(t: Tree, h: Hash, n: nat, i: nat)
    requires Rooted(t) && t.Has(h) && n <= t.Number(h) && i < t.Number(h) - n
    ensures |Down(t, h, n)| == t.Number(h) - n && Down(t, h, n)[i] == At(t, h, t.Number(h) - i)
    decreases t.Number(h) - n
  {
    DownLength(t, h, n);
    DownLength(t, h, n + 1);
    if i < t.Number(h) - n - 1 {
      DownAt(t, h, n + 1, i);
    }
  }

  lemma {:induction false} DownLength(t: Tree, h: Hash, n: nat)
    requires Rooted(t) && t.Has(h)
    ensures |Down(t, h, n)| == if t.Number(h) <= n then 0 else t.Number(h) - n
    decreases t.Number(h) - n
  {
    if t.Number(h) > n {
      DownLength(t, h, n + 1);
    }
  }

  /** The two paths agree at number c and part above it. */
  ghost predicate Fork(t: Tree, a: Hash, b: Hash, c: nat)
    requires Rooted(t) && t.Has(a) && t.Has(b)
  {
    && c <= t.Number(a) && c <= t.Number(b) && At(t, a, c) == At(t, b, c)
    && forall n :: c < n <= t.Number(a) && n <= t.Number(b) ==> At(t, a, n) != At(t, b, n)
  }

  lemma AgreeBelowFork(t: Tree, a: Hash, b: Hash, c: nat, n: nat)
    requires Rooted(t) && t.Has(a) && t.Has(b) && Fork(t, a, b, c) && n <= c
    ensures At(t, a, n) == At(t, b, n)
  {
    AtAt(t, a, c, n);
    AtAt(t, b, c, n);
  }

  // ---- logs ----

  /** The same logs in the same order, each flagged as removed. */
  ghost predicate Withdraws(logs: seq<Log>, removed: seq<Log>) {
    |removed| == |logs| && forall i :: 0 <= i < |logs| ==> removed[i].data == logs[i].data && removed[i].removed
  }

  function Marked(logs: seq<Log>): seq<Log> {
    if logs == [] then [] else [logs[0].(removed := true)] + Marked(logs[1..])
  }

  lemma {:induction false} MarkedWithdraws(logs: seq<Log>)
    ensures Withdraws(logs, Marked(logs))
  {
    if logs != [] {
      MarkedWithdraws(logs[1..]);
    }
  }

  /** The logs of the blocks with numbers above c up to m on the path of `h`, lowest block first. */
  ghost function LogsTo(b: Blocks, h: Hash, c: nat, m: nat): seq<Log>
    requires b.Complete() && b.tree.Has(h) && m <= b.tree.Number(h)
    decreases m
  {
    if m <= c then [] else LogsTo(b, h, c, m - 1) + b.Body(At(b.tree, h, m)).logs
  }

  /** The same logs, marked as removed, gathered from the top. */
  ghost function RemovedFrom(b: Blocks, h: Hash, c: nat): seq<Log>
    requires b.Complete() && b.tree.Has(h)
    decreases b.tree.Number(h) - c
  {
    if b.tree.Number(h) <= c then [] else Marked(b.Body(At(b.tree, h, c + 1)).logs) + RemovedFrom(b, h, c + 1)
  }

  lemma {:induction false} MarkedSplit(x: seq<Log>, y: seq<Log>)
    ensures Marked(x + y) == Marked(x) + Marked(y)
  {
    if x == [] {
      assert x + y == y;
    } else {
      assert (x + y)[1..] == x[1..] + y;
      MarkedSplit(x[1..], y);
    }
  }

  /** Gathering from the top and merging backwards gives the branch's logs in ascending block order. */
  lemma {:induction false} RemovedIsAscending(b: Blocks, h: Hash, c: nat, k: nat)
    requires b.Complete() && b.tree.Has(h) && c <= k <= b.tree.Number(h)
    ensures RemovedFrom(b, h, c) == Marked(LogsTo(b, h, c, k)) + RemovedFrom(b, h, k)
    decreases k
  {
    if c < k {
      RemovedIsAscending(b, h, c, k - 1);
      RemovedOneMore(LogsTo(b, h, c, k - 1), b.Body(At(b.tree, h, k)).logs, RemovedFrom(b, h, k));
    } else {
      assert [] + RemovedFrom(b, h, k) == RemovedFrom(b, h, k);
    }
  }

  lemma RemovedOneMore(below: seq<Log>, logs: seq<Log>, above: seq<Log>)
    ensures Marked(below) + (Marked(logs) + above) == Marked(below + logs) + above
  {
    MarkedSplit(below, logs);
    Regroup(Marked(below), Marked(logs), above);
  }

  lemma Regroup(x: seq<Log>, y: seq<Log>, z: seq<Log>)
    ensures (x + y) + z == x + (y + z)
  {
  }

  /** mergeLogs, last list first. */
  function MergeReverse(lists: seq<seq<Log>>): seq<Log> {
    if lists == [] then [] else lists[|lists| - 1] + MergeReverse(lists[..|lists| - 1])
  }

  /** mergeLogs, first list first. */
  function Merge(lists: seq<seq<Log>>): seq<Log> {
    if lists == [] then [] else Merge(lists[..|lists| - 1]) + lists[|lists| - 1]
  }

  /** collectLogs: a list without logs is not kept. */
  function Collect(lists: seq<seq<Log>>, logs: seq<Log>): (r: seq<seq<Log>>)
    ensures MergeReverse(r) == logs + MergeReverse(lists)
    ensures Merge(r) == Merge(lists) + logs
  {
    if logs == [] then
      assert logs + MergeReverse(lists) == MergeReverse(lists);
      assert Merge(lists) + logs == Merge(lists);
      lists
    else
      assert (lists + [logs])[..|lists|] == lists;
      lists + [logs]
  }

  // ---- the transaction lookup index ----

  datatype Lookup = Lookup(at: map<TxHash, nat>)
  {
    function Get(tx: TxHash): Option<nat> { if tx in at then Some(at[tx]) else None }
  }

  /** The highest block in (c, m] on the path of `h` that has the transaction. */
  ghost function Find(b: Blocks, h: Hash, c: int, m: int, tx: TxHash): Option<nat>
    requires b.Complete() && b.tree.Has(h) && -1 <= c && m <= b.tree.Number(h)
    decreases m - c
  {
    if m <= c then None
    else if tx in b.Body(At(b.tree, h, m)).txs then Some(m)
    else Find(b, h, c, m - 1, tx)
  }

  function Over(first: Option<nat>, second: Option<nat>): Option<nat> { if first.Some? then first else second }

  lemma {:induction false} FindSplit(b: Blocks, h: Hash, c: int, k: int, m: int, tx: TxHash)
    requires b.Complete() && b.tree.Has(h) && -1 <= c <= k <= m <= b.tree.Number(h)
    ensures Find(b, h, c, m, tx) == Over(Find(b, h, k, m, tx), Find(b, h, c, k, tx))
    decreases m - k
  {
    if k < m {
      FindSplit(b, h, c, k, m - 1, tx);
    }
  }

  lemma {:induction false} FindSame(b: Blocks, x: Hash, y: Hash, c: int, m: int, tx: TxHash)
    requires b.Complete() && b.tree.Has(x) && b.tree.Has(y) && -1 <= c && m <= b.tree.Number(x) && m <= b.tree.Number(y)
    requires forall n: nat :: n <= m ==> At(b.tree, x, n) == At(b.tree, y, n)
    ensures Find(b, x, c, m, tx) == Find(b, y, c, m, tx)
    decreases m - c
  {
    if m > c {
      assert At(b.tree, x, m) == At(b.tree, y, m);
      FindSame(b, x, y, c, m - 1, tx);
    }
  }

  /** The lookup index has exactly the head's chain: every transaction under its (highest) block number. */
  ghost predicate Exact(b: Blocks, lookup: Lookup, head: Hash)
    requires b.Complete() && b.tree.Has(head)
  {
    forall tx {:trigger lookup.Get(tx)} :: lookup.Get(tx) == Find(b, head, -1, b.tree.Number(head), tx)
  }

  /** No transaction of the branch above c is also at or below c. */
  ghost predicate NoneTwice(b: Blocks, h: Hash, c: nat)
    requires b.Complete() && b.tree.Has(h) && c <= b.tree.Number(h)
  {
    forall tx :: Find(b, h, c, b.tree.Number(h), tx).Some? ==> Find(b, h, -1, c, tx).None?
  }

  /** WriteTxLookupEntries. */
  function Entered(lookup: Lookup, txs: seq<TxHash>, n: nat): (r: Lookup)
    ensures forall tx :: r.Get(tx) == if tx in txs then Some(n) else lookup.Get(tx)
  {
    Lookup(lookup.at + map tx | tx in txs :: n)
  }

  function Deleted(lookup: Lookup, txs: set<TxHash>): (r: Lookup)
    ensures forall tx :: r.Get(tx) == if tx in txs then None else lookup.Get(tx)
  {
    Lookup(lookup.at - txs)
  }

  // ---- the number index ----

  /** The index is gap free up to `top`, and up to number m it is the path of `h`. */
  ghost predicate Covers(t: Tree, index: Index, h: Hash, m: nat, top: nat) {
    Rooted(t) && t.Has(h) && m <= t.Number(h) && m <= top && forall key {:trigger OpenCover(key)} :: OpenCover(key) ==>
      && (forall n: nat :: n in index.at <==> n <= top)
      && (forall n: nat :: n in index.at ==> index.at[n] != NO_HASH)
      && (forall n: nat :: n <= m ==> n in index.at && index.at[n] == At(t, h, n))
  }

  /** Always true; keeps the definition above folded. */
  predicate OpenCover(key: int) { true }

  /** Gap free to the head and no further is exactly the head's path. */
  lemma CoverIsPath(t: Tree, index: Index, h: Hash, top: nat)
    requires t.Has(h) && Covers(t, index, h, t.Number(h), top)
    ensures IsPath(t, index, h) <==> top == t.Number(h)
  {
    assert OpenCover(0);
    Unfold();
    assert top in index.at;
  }

  lemma CoverRead(t: Tree, index: Index, h: Hash, m: nat, top: nat, n: nat)
    requires Covers(t, index, h, m, top)
    ensures index.Read(n) != NO_HASH <==> n <= top
    ensures n in index.at <==> n <= top
    ensures n <= m ==> index.Read(n) == At(t, h, n)
  {
    assert OpenCover(0);
  }

  lemma CoverWrite(t: Tree, index: Index, h: Hash, m: nat, top: nat, n: nat)
    requires Covers(t, index, h, m, top) && n <= m + 1 && n <= t.Number(h)
    ensures Covers(t, Index(index.at[n := At(t, h, n)]), h, Greater(m, n), Greater(top, n))
  {
    assert OpenCover(0);
  }

  lemma CoverCut(t: Tree, index: Index, h: Hash, m: nat, top: nat, n: nat)
    requires Covers(t, index, h, m, top) && m <= n <= top
    ensures Covers(t, Index(index.at - (set k | k in index.at && k > n)), h, m, n)
  {
    assert OpenCover(0);
  }

  lemma CoverSwitch(t: Tree, index: Index, a: Hash, b: Hash, c: nat, top: nat)
    requires t.Has(a) && t.Has(b) && Covers(t, index, a, t.Number(a), top) && Fork(t, a, b, c)
    ensures Covers(t, index, b, c, top)
  {
    assert OpenCover(0);
    forall n: nat | n <= c
      ensures At(t, a, n) == At(t, b, n)
    {
      AgreeBelowFork(t, a, b, c, n);
    }
  }

  // ---- gathering the two branches ----

  /** What is gathered on the way down from the old head to number n. */
  ghost predicate Gathered(b: Blocks, old0: Hash, n: nat, chain: seq<Hash>, txs: seq<TxHash>, logs: seq<seq<Log>>) {
    b.Complete() && b.tree.Has(old0) && n <= b.tree.Number(old0) && forall key {:trigger OpenGather(key)} ::
        OpenGather(key) ==>
      && chain == Down(b.tree, old0, n) && MergeReverse(logs) == RemovedFrom(b, old0, n)
      && forall tx :: tx in txs <==> Find(b, old0, n, b.tree.Number(old0), tx).Some?
  }

  predicate OpenGather(key: int) { true }

  lemma GatheredIs(b: Blocks, old0: Hash, n: nat, chain: seq<Hash>, txs: seq<TxHash>, logs: seq<seq<Log>>)
    requires Gathered(b, old0, n, chain, txs, logs)
    ensures chain == Down(b.tree, old0, n) && MergeReverse(logs) == RemovedFrom(b, old0, n)
    ensures forall tx :: tx in txs <==> Find(b, old0, n, b.tree.Number(old0), tx).Some?
  {
    assert OpenGather(0);
  }

  /** The two paths differ at every number above c that both reach. */
  ghost predicate Parted(t: Tree, a: Hash, b: Hash, c: nat) {
    Rooted(t) && t.Has(a) && t.Has(b) && forall key {:trigger OpenGather(key)} :: OpenGather(key) ==>
      forall n: nat :: c < n <= t.Number(a) && n <= t.Number(b) ==> At(t, a, n) != At(t, b, n)
  }

  lemma PartedStep(t: Tree, a: Hash, b: Hash, c: nat)
    requires Parted(t, a, b, c) && 0 < c <= t.Number(a) && c <= t.Number(b) && At(t, a, c) != At(t, b, c)
    ensures Parted(t, a, b, c - 1)
  {
    assert OpenGather(0);
  }

  lemma PartedFork(t: Tree, a: Hash, b: Hash, c: nat)
    requires Parted(t, a, b, c) && c <= t.Number(a) && c <= t.Number(b) && At(t, a, c) == At(t, b, c)
    ensures Fork(t, a, b, c)
  {
    assert OpenGather(0);
  }

  lemma {:induction false} FindLower(b: Blocks, h: Hash, n: nat, tx: TxHash)
    requires b.Complete() && b.tree.Has(h) && 0 < n <= b.tree.Number(h)
    ensures Find(b, h, n - 1, b.tree.Number(h), tx).Some? <==>
            Find(b, h, n, b.tree.Number(h), tx).Some? || tx in b.Body(At(b.tree, h, n)).txs
  {
    FindSplit(b, h, n - 1, n, b.tree.Number(h), tx);
    assert Find(b, h, n - 1, n - 1, tx).None?;
  }

  lemma GatherNothing(b: Blocks, old0: Hash)
    requires b.Complete() && b.tree.Has(old0)
    ensures Gathered(b, old0, b.tree.Number(old0), [], [], [])
  {
  }

  lemma GatherOne(b: Blocks, old0: Hash, n: nat, chain: seq<Hash>, txs: seq<TxHash>, logs: seq<seq<Log>>, h: Hash)
    requires Gathered(b, old0, n, chain, txs, logs) && n > 0 && h == At(b.tree, old0, n)
    ensures Gathered(b, old0, n - 1, chain + [h], txs + b.Body(h).txs, Collect(logs, Marked(b.Body(h).logs)))
  {
    assert OpenGather(0);
    forall tx
      ensures tx in txs + b.Body(h).txs <==> Find(b, old0, n - 1, b.tree.Number(old0), tx).Some?
    {
      FindLower(b, old0, n, tx);
    }
  }

  datatype WriteOutcome = Canonical | SideBlock | Unknown

  /** What the choice of a head looks at: a block's total difficulty, its number, and whether this node takes it to be
      its own. */
  datatype Candidate = Candidate(hash: Hash, td: nat, number: nat, own: bool)

  ghost function CandidateOf(t: Tree, h: Hash, own: bool): Candidate
    requires Rooted(t) && t.Has(h)
  {
    Candidate(h, Weight(t, h), t.Number(h), own)
  }

  /** A head, and whether a coin was tossed when it became one. */
  datatype Choice = Choice(head: Candidate, coin: bool)

  class BlockChain {
    var blocks: Blocks
    var tds: Tds
    var index: Index
    var lookup: Lookup
    var current: Hash
    var headHeader: Hash
    var headFast: Hash
    /** How far the index goes, at least to the current block. */
    ghost var top: nat
    /** The latest heads that were chosen one after the other. */
    ghost var trail: seq<Choice>

    ghost predicate Valid()
      reads this
    {
      && blocks.Complete() && Weighed(blocks.tree, tds) && blocks.tree.Has(current)
      && Covers(blocks.tree, index, current, blocks.tree.Number(current), top)
    }

    function GetBlock(h: Hash, number: nat): Option<Header>
      reads this
    {
      if blocks.tree.Has(h) && blocks.tree.Number(h) == number then Some(blocks.tree.Get(h)) else None
    }

    /** Enters a block into the indexes and makes it the head. */
    method WriteHeadBlock(h: Hash)
      requires blocks.Complete() && blocks.tree.Has(h)
      modifies this`index, this`lookup, this`current, this`headHeader, this`headFast
      ensures index == Index(old(index).at[blocks.tree.Number(h) := h]) && current == h
      ensures lookup == Entered(old(lookup), blocks.Body(h).txs, blocks.tree.Number(h))
      ensures if old(index.Read(blocks.tree.Number(h))) != h then headHeader == headFast == h
              else headHeader == old(headHeader) && headFast == old(headFast)
    {
      var number := blocks.tree.Number(h);
      var updateHeads := index.Read(number) != h;
      index := Index(index.at[number := h]);
      lookup := Entered(lookup, blocks.Body(h).txs, number);
      if updateHeads {
        headHeader, headFast := h, h;
      }
      current := h;
    }

    /** Walks the old branch down to number n, gathering what it leaves behind. */
    method LowerOld(old0: Hash, n: nat)
      returns (ok: bool, o: Hash, chain: seq<Hash>, txs: seq<TxHash>, logs: seq<seq<Log>>)
      requires blocks.Complete() && blocks.tree.Has(old0) && n <= blocks.tree.Number(old0)
      ensures ok && o == At(blocks.tree, old0, n) && Gathered(blocks, old0, n, chain, txs, logs)
    {
      o, chain, txs, logs := old0, [], [], [];
      GatherNothing(blocks, old0);
      ghost var k := blocks.tree.Number(old0);
      while blocks.tree.Number(o) != n
        invariant n <= k <= blocks.tree.Number(old0) && o == At(blocks.tree, old0, k) &&
                  Gathered(blocks, old0, k, chain, txs, logs)
        decreases k
      {
        StepDown(blocks.tree, old0, k);
        GatherOne(blocks, old0, k, chain, txs, logs, o);
        chain := chain + [o];
        txs := txs + blocks.Body(o).txs;
        logs := Collect(logs, Marked(blocks.Body(o).logs));
        var header := blocks.tree.Get(o);
        var parent := GetBlock(header.parent, header.number - 1);
        if parent.None? {
          return false, o, chain, txs, logs;
        }
        o := parent.value.hash;
        k := k - 1;
      }
      ok := true;
    }

    /** Walks the new branch down to number n. */
    method LowerNew(new0: Hash, n: nat) returns (ok: bool, w: Hash, chain: seq<Hash>)
      requires blocks.Complete() && blocks.tree.Has(new0) && n <= blocks.tree.Number(new0)
      ensures ok && w == At(blocks.tree, new0, n) && chain == Down(blocks.tree, new0, n)
    {
      w, chain := new0, [];
      ghost var k := blocks.tree.Number(new0);
      while blocks.tree.Number(w) != n
        invariant n <= k <= blocks.tree.Number(new0) && w == At(blocks.tree, new0, k) &&
                  chain == Down(blocks.tree, new0, k)
        decreases k
      {
        StepDown(blocks.tree, new0, k);
        chain := chain + [w];
        var header := blocks.tree.Get(w);
        var parent := GetBlock(header.parent, header.number - 1);
        if parent.None? {
          return false, w, chain;
        }
        w := parent.value.hash;
        k := k - 1;
      }
      ok := true;
    }

    /** Brings both branches to their common ancestor, at number c. */
    method FindFork(old0: Hash, new0: Hash)
      returns (ok: bool, oldChain: seq<Hash>, newChain: seq<Hash>, txs: seq<TxHash>, logs: seq<seq<Log>>, ghost c: nat)
      requires blocks.Complete() && blocks.tree.Has(old0) && blocks.tree.Has(new0)
      ensures ok && Fork(blocks.tree, old0, new0, c)
      ensures Gathered(blocks, old0, c, oldChain, txs, logs) && newChain == Down(blocks.tree, new0, c)
    {
      ghost var t := blocks.tree;
      var o, w;
      ok, o, w, oldChain, newChain, txs, logs, c := Level(old0, new0);
      if !ok {
        return;
      }
      while o != w
        invariant c <= t.Number(old0) && c <= t.Number(new0) && o == At(t, old0, c) && w == At(t, new0, c)
        invariant Gathered(blocks, old0, c, oldChain, txs, logs) && newChain == Down(t, new0, c)
        invariant Parted(t, old0, new0, c)
        decreases c
      {
        OneGenesis(t, o, w);
        StepDown(t, old0, c);
        StepDown(t, new0, c);
        PartedStep(t, old0, new0, c);
        GatherOne(blocks, old0, c, oldChain, txs, logs, o);
        oldChain := oldChain + [o];
        txs := txs + blocks.Body(o).txs;
        logs := Collect(logs, Marked(blocks.Body(o).logs));
        newChain := newChain + [w];
        var oldParent := GetBlock(blocks.tree.Parent(o), blocks.tree.Number(o) - 1);
        var newParent := GetBlock(blocks.tree.Parent(w), blocks.tree.Number(w) - 1);
        if oldParent.None? || newParent.None? {
          ok := false;
          return;
        }
        o, w := oldParent.value.hash, newParent.value.hash;
        c := c - 1;
      }
      PartedFork(t, old0, new0, c);
    }

    /** Reduces the longer branch to the number of the shorter one. */
    method Level(old0: Hash, new0: Hash)
      returns (ok: bool, o: Hash, w: Hash, oldChain: seq<Hash>, newChain: seq<Hash>, txs: seq<TxHash>,
               logs: seq<seq<Log>>, ghost c: nat)
      requires blocks.Complete() && blocks.tree.Has(old0) && blocks.tree.Has(new0)
      ensures ok && c <= blocks.tree.Number(old0) && c <= blocks.tree.Number(new0)
      ensures o == At(blocks.tree, old0, c) && w == At(blocks.tree, new0, c) && Parted(blocks.tree, old0, new0, c)
      ensures Gathered(blocks, old0, c, oldChain, txs, logs) && newChain == Down(blocks.tree, new0, c)
    {
      o, w := old0, new0;
      oldChain, newChain, txs, logs := [], [], [], [];
      if blocks.tree.Number(old0) > blocks.tree.Number(new0) {
        c := blocks.tree.Number(new0);
        ok, o, oldChain, txs, logs := LowerOld(old0, blocks.tree.Number(new0));
      } else {
        c := blocks.tree.Number(old0);
        GatherNothing(blocks, old0);
        ok, w, newChain := LowerNew(new0, blocks.tree.Number(old0));
      }
    }

    /** Makes the blocks of the new branch below its head the head one by one, lowest first. */
    method Rewrite(new0: Hash, newChain: seq<Hash>, ghost c: nat) returns (reborn: seq<seq<Log>>, txs: seq<TxHash>)
      requires blocks.Complete() && blocks.tree.Has(new0) && c <= blocks.tree.Number(new0) &&
               newChain == Down(blocks.tree, new0, c)
      requires Covers(blocks.tree, index, new0, c, top)
      modifies this`index, this`lookup, this`current, this`headHeader, this`headFast, this`top
      ensures var last := Below(blocks.tree, new0, c);
              && Covers(blocks.tree, index, new0, last, top) && top == Greater(old(top), last)
              && current == (if last == c then old(current) else At(blocks.tree, new0, last))
              && Reborn(blocks, new0, c, last, old(lookup), lookup, reborn, txs)
    {
      reborn, txs := [], [];
      ghost var t, m := blocks.tree, c;
      DownLength(t, new0, c);
      RebornNone(blocks, new0, c, lookup);
      var i := |newChain| - 1;
      while i >= 1
        invariant m == t.Number(new0) - 1 - i && c <= m <= t.Number(new0) && (i >= 0 || c == t.Number(new0))
        invariant Covers(t, index, new0, m, top) && top == Greater(old(top), m)
        invariant current == (if m == c then old(current) else At(t, new0, m))
        invariant Reborn(blocks, new0, c, m, old(lookup), lookup, reborn, txs)
      {
        DownAt(t, new0, c, i);
        reborn, txs := RewriteOne(newChain[i], new0, c, m, old(lookup), reborn, txs);
        i, m := i - 1, m + 1;
      }
    }

    method RewriteOne(h: Hash, ghost new0: Hash, ghost c: nat, ghost m: nat, ghost before: Lookup,
                      reborn: seq<seq<Log>>, txs: seq<TxHash>)
      returns (reborn': seq<seq<Log>>, txs': seq<TxHash>)
      requires blocks.Complete() && Covers(blocks.tree, index, new0, m, top) && c <= m < blocks.tree.Number(new0) &&
               h == At(blocks.tree, new0, m + 1)
      requires Reborn(blocks, new0, c, m, before, lookup, reborn, txs)
      modifies this`index, this`lookup, this`current, this`headHeader, this`headFast, this`top
      ensures Covers(blocks.tree, index, new0, m + 1, top) && top == Greater(old(top), m + 1) && current == h
      ensures Reborn(blocks, new0, c, m + 1, before, lookup, reborn', txs')
    {
      CoverWrite(blocks.tree, index, new0, m, top, m + 1);
      RebornOne(blocks, new0, c, m, before, lookup, reborn, txs);
      WriteHeadBlock(h);
      reborn' := Collect(reborn, blocks.Body(h).logs);
      txs' := txs + blocks.Body(h).txs;
      top := Greater(top, m + 1);
    }

    /** Collects the index entries above a number, up to the first that is missing. */
    method ClearAbove(number: nat, ghost h: Hash, ghost m: nat) returns (deleted: set<nat>)
      requires Covers(blocks.tree, index, h, m, top)
      ensures deleted == set n | n in index.at && n > number
    {
      deleted := {};
      var i := number + 1;
      CoverRead(blocks.tree, index, h, m, top, i);
      while index.Read(i) != NO_HASH
        invariant number < i && deleted == (set n | n in index.at && number < n < i)
        invariant index.Read(i) != NO_HASH <==> i <= top
        decreases top + 1 - i
      {
        deleted := deleted + {i};
        i := i + 1;
        CoverRead(blocks.tree, index, h, m, top, i);
      }
      forall n: nat | n in index.at
        ensures n < i
      {
        CoverRead(blocks.tree, index, h, m, top, n);
      }
    }

    /** Deletes the index entries above the current block. */
    method CutAboveCurrent(ghost new0: Hash, ghost last: nat)
      requires blocks.Complete() && Covers(blocks.tree, index, new0, last, top)
      requires blocks.tree.Has(current) && last <= blocks.tree.Number(current) <= top
      modifies this`index, this`top
      ensures Covers(blocks.tree, index, new0, last, top) && top == blocks.tree.Number(current)
    {
      var number := blocks.tree.Number(current);
      var deleted := ClearAbove(number, new0, last);
      CoverCut(blocks.tree, index, new0, last, top, number);
      index := Index(index.at - deleted);
      top := number;
    }

    /** The blocks that left the chain, lowest first. */
    method SideEvents(oldChain: seq<Hash>, ghost old0: Hash, ghost c: nat) returns (side: seq<Hash>)
      requires Rooted(blocks.tree) && blocks.tree.Has(old0) && c <= blocks.tree.Number(old0) &&
               oldChain == Down(blocks.tree, old0, c)
      ensures |side| == blocks.tree.Number(old0) - c
      ensures forall k :: 0 <= k < |side| ==> side[k] == At(blocks.tree, old0, c + 1 + k)
    {
      side := [];
      DownLength(blocks.tree, old0, c);
      var i := |oldChain| - 1;
      while i >= 0
        invariant -1 <= i < |oldChain| && |side| == |oldChain| - 1 - i
        invariant forall k :: 0 <= k < |side| ==> side[k] == At(blocks.tree, old0, c + 1 + k)
      {
        DownAt(blocks.tree, old0, c, i);
        side := side + [oldChain[i]];
        i := i - 1;
      }
    }

    /** Moves the indexes from the branch of the current block to that of `new0`, up to but not including
        `new0` itself, and returns the removed and the reborn logs. The branches part above number c. */
    method Reorg(new0: Hash) returns (ok: bool, removed: seq<Log>, reborn: seq<Log>, side: seq<Hash>, ghost c: nat)
      requires Valid() && blocks.tree.Has(new0)
      modifies this`index, this`lookup, this`current, this`headHeader, this`headFast, this`top
      ensures ok && Fork(blocks.tree, old(current), new0, c)
      ensures var last := Below(blocks.tree, new0, c);
              && Covers(blocks.tree, index, new0, last, top)
              && top == (if last == c then blocks.tree.Number(old(current)) else last)
              && current == (if last == c then old(current) else At(blocks.tree, new0, last))
              && reborn == LogsTo(blocks, new0, c, last)
              && Moved(blocks, old(current), new0, c, last, old(lookup), lookup)
      ensures var gone := LogsTo(blocks, old(current), c, blocks.tree.Number(old(current)));
              removed == Marked(gone) && Withdraws(gone, removed)
      ensures |side| == blocks.tree.Number(old(current)) - c
      ensures forall k :: 0 <= k < |side| ==> side[k] == At(blocks.tree, old(current), c + 1 + k)
    {
      ghost var old0, lookup0 := current, lookup;
      var oldChain, newChain, deletedTxs, deletedLogs;
      ok, oldChain, newChain, deletedTxs, deletedLogs, c := FindFork(current, new0);
      if !ok {
        return false, [], [], [], c;
      }
      GatheredIs(blocks, old0, c, oldChain, deletedTxs, deletedLogs);
      CoverSwitch(blocks.tree, index, old0, new0, c, top);
      var rebirth, addedTxs := Rewrite(new0, newChain, c);
      ghost var last := Below(blocks.tree, new0, c);
      CutAboveCurrent(new0, last);
      var gone := set tx | tx in deletedTxs && tx !in addedTxs;
      DeletedIsMoved(blocks, old0, new0, c, last, lookup0, lookup, deletedTxs, addedTxs, rebirth, gone);
      lookup := Deleted(lookup, gone);
      RemovedIsAscending(blocks, old0, c, blocks.tree.Number(old0));
      removed, reborn := MergeReverse(deletedLogs), Merge(rebirth);
      side := SideEvents(oldChain, old0, c);
      assert removed == Marked(LogsTo(blocks, old0, c, blocks.tree.Number(old0))) + [];
      MarkedWithdraws(LogsTo(blocks, old0, c, blocks.tree.Number(old0)));
    }

    /** Makes a stored block the head, moving over from another branch if need be. Afterwards the index is
        the new head's path up to it; what is left above it, if anything, is known exactly. */
    method MakeHead(new0: Hash) returns (removed: seq<Log>, reborn: seq<Log>, ghost c: nat)
      requires Valid() && blocks.tree.Has(new0)
      modifies this`index, this`lookup, this`current, this`headHeader, this`headFast, this`top
      ensures Valid() && current == new0 && Fork(blocks.tree, old(current), new0, c)
      ensures top == TopAfter(blocks.tree, old(current), new0, c, old(top))
      ensures old(Exact(blocks, lookup, current)) && NoneTwice(blocks, old(current), c) ==> Exact(blocks, lookup, new0)
      ensures var gone := LogsTo(blocks, old(current), c, blocks.tree.Number(old(current)));
              removed == Marked(gone) && Withdraws(gone, removed)
      ensures reborn == LogsTo(blocks, new0, c, Below(blocks.tree, new0, c))
    {
      ghost var old0, lookup0 := current, lookup;
      removed, reborn := [], [];
      if blocks.tree.Parent(new0) != current {
        var ok;
        var side;
        ok, removed, reborn, side, c := Reorg(new0);
      } else {
        c := ChildFork(blocks.tree, current, new0);
        CoverSwitch(blocks.tree, index, current, new0, c, top);
        NothingMoved(blocks, old0, new0, c, lookup);
      }
      ghost var last := Below(blocks.tree, new0, c);
      MovedExact(blocks, old0, new0, c, last, lookup0, lookup);
      CoverWrite(blocks.tree, index, new0, last, top, blocks.tree.Number(new0));
      WriteHeadBlock(new0);
      top := Greater(top, blocks.tree.Number(new0));
    }

    /** writeKnownBlock, which is also how writeBlockWithState ends for a preferred block. From an exact index the
        new one is exact too if and only if the new branch has two blocks or more or the old head is no higher. */
    method WriteKnownBlock(h: Hash) returns (removed: seq<Log>, reborn: seq<Log>, ghost c: nat)
      requires Valid() && blocks.tree.Has(h)
      modifies this`index, this`lookup, this`current, this`headHeader, this`headFast, this`top
      ensures Valid() && current == h && Fork(blocks.tree, old(current), h, c)
      ensures old(IsPath(blocks.tree, index, current)) ==>
                (IsPath(blocks.tree, index, h) <==>
                    blocks.tree.Number(h) >= c + 2 || blocks.tree.Number(old(current)) <= blocks.tree.Number(h))
      ensures old(Exact(blocks, lookup, current)) && NoneTwice(blocks, old(current), c) ==> Exact(blocks, lookup, h)
      ensures var gone := LogsTo(blocks, old(current), c, blocks.tree.Number(old(current)));
              removed == Marked(gone) && Withdraws(gone, removed)
      ensures reborn == LogsTo(blocks, h, c, Below(blocks.tree, h, c))
    {
      CoverIsPath(blocks.tree, index, current, top);
      removed, reborn, c := MakeHead(h);
      CoverIsPath(blocks.tree, index, h, top);
    }

    /** Does a block of the given weight become head: by weight, then by lower number, then by who mined it. */
    static predicate Preferred(externTd: nat, localTd: nat, number: nat, currentNumber: nat, currentPreserve: bool,
                               blockPreserve: bool, coin: bool) {
      || externTd > localTd
      || (externTd == localTd && number < currentNumber)
      || (externTd == localTd && number == currentNumber && !currentPreserve && (blockPreserve || coin))
    }

    static method Prefer(externTd: nat, localTd: nat, number: nat, currentNumber: nat, currentPreserve: bool,
                         blockPreserve: bool, coin: bool)
      returns (reorg: bool)
      ensures reorg <==> Preferred(externTd, localTd, number, currentNumber, currentPreserve, blockPreserve, coin)
    {
      reorg := externTd > localTd;
      if !reorg && externTd == localTd {
        if number < currentNumber {
          reorg := true;
        } else if number == currentNumber {
          reorg := !currentPreserve && (blockPreserve || coin);
        }
      }
    }

    /** Without a coin toss every change of head climbs in this order: heavier, or as heavy and lower, or level
        with the head and this node's own where the head was not. */
    static predicate Higher(x: Candidate, y: Candidate) {
      || x.td > y.td
      || (x.td == y.td && x.number < y.number)
      || (x.td == y.td && x.number == y.number && x.own && !y.own)
    }

    static predicate Replaces(x: Candidate, head: Candidate, coin: bool) {
      Preferred(x.td, head.td, x.number, head.number, head.own, x.own, coin)
    }

    /** The heads chosen one after the other, each compared with the one before it. */
    ghost predicate Chosen()
      reads this
    {
      forall k :: 0 < k < |trail| ==> Replaces(trail[k].head, trail[k - 1].head, trail[k].coin)
    }

    /** The order of heads without a coin: of two that differ in weight or number exactly one replaces the other, the
        heavier, or the lower of equal weight. At equal weight and number an own block is never replaced, replaces any
        other, and only between two others the coin decides. */
    static lemma HeadOrder(x: Candidate, y: Candidate, coin: bool)
      ensures x.td > y.td ==> Replaces(x, y, coin) && !Replaces(y, x, coin)
      ensures x.td == y.td && x.number < y.number ==> Replaces(x, y, coin) && !Replaces(y, x, coin)
      ensures x.td == y.td && x.number == y.number ==>
                && (y.own ==> !Replaces(x, y, coin))
                && (!y.own && x.own ==> Replaces(x, y, coin))
                && (!y.own && !x.own ==> Replaces(x, y, coin) == coin)
    {
    }

    /** Among heads that writeBlockWithState chose one after the other, none comes back unless a coin was tossed; and
        with coins the weight of the head still never falls. */
    lemma {:induction false} HeadsNeverReturn(i: nat, j: nat)
      requires Chosen() && i < j < |trail|
      ensures trail[j].head.td >= trail[i].head.td
      ensures (forall k :: i < k <= j ==> !trail[k].coin) ==>
                Higher(trail[j].head, trail[i].head) && trail[j].head != trail[i].head
      decreases j - i
    {
      assert Replaces(trail[j].head, trail[j - 1].head, trail[j].coin);
      if i < j - 1 {
        HeadsNeverReturn(i, j - 1);
      }
    }

    /** The trail with one more choice. It starts anew when the head was changed otherwise meanwhile, or when the node
        has changed its mind on whether the head is its own. */
    static ghost function Followed(trail: seq<Choice>, head: Candidate, choice: Choice): seq<Choice> {
      (if trail != [] && trail[|trail| - 1].head == head then trail else [Choice(head, false)]) + [choice]
    }

    /** writeBlockWithState: stores a block, and makes it the head if it is preferred. Callers pass
        verified blocks: one with a known parent has the next number, and a hash belongs to one block. */
    method WriteBlockWithState(header: Header, body: Body, currentPreserve: bool, blockPreserve: bool, coin: bool)
      returns (outcome: WriteOutcome, removed: seq<Log>, reborn: seq<Log>, ghost c: nat)
      requires Valid() && header.hash != NO_HASH
      requires blocks.tree.Has(header.hash) ==>
                blocks.tree.Get(header.hash) == header && blocks.Body(header.hash) == body
      requires blocks.tree.Has(header.parent) ==> header.number == blocks.tree.Number(header.parent) + 1
      modifies this
      ensures Valid()
      ensures outcome == Unknown <==> !old(blocks.tree.Has(header.parent))
      ensures outcome != Unknown ==>
                && blocks.tree.Has(header.hash) && blocks.tree.Get(header.hash) == header
                && blocks.tree.Has(old(current))
      ensures outcome != Unknown ==> blocks == old(Added(blocks, header, body))
      ensures outcome != Unknown ==>
                (outcome == Canonical <==>
                    Replaces(CandidateOf(blocks.tree, header.hash, blockPreserve),
                             CandidateOf(blocks.tree, old(current), currentPreserve), coin))
      ensures outcome == SideBlock ==> current == old(current) && index == old(index) && lookup == old(lookup)
      ensures outcome == Canonical ==> current == header.hash && Fork(blocks.tree, old(current), header.hash, c)
      ensures outcome == Canonical && old(IsPath(blocks.tree, index, current)) ==>
                (IsPath(blocks.tree, index, current) <==>
                    header.number >= c + 2 || blocks.tree.Number(old(current)) <= header.number)
      ensures outcome == Canonical && old(Exact(blocks, lookup, current)) && NoneTwice(blocks, old(current), c) ==>
                Exact(blocks, lookup, current)
      ensures outcome == Canonical ==>
                var gone := LogsTo(blocks, old(current), c, blocks.tree.Number(old(current)));
                removed == Marked(gone) && Withdraws(gone, removed)
      ensures outcome == Canonical && header.number > c ==>
                reborn + body.logs == LogsTo(blocks, header.hash, c, header.number)
      ensures old(Heaviest(blocks.tree, tds, current)) ==> Heaviest(blocks.tree, tds, current)
      ensures outcome != Canonical ==> trail == old(trail)
      ensures outcome == Canonical ==>
                trail == Followed(old(trail), CandidateOf(blocks.tree, old(current), currentPreserve),
                                  Choice(CandidateOf(blocks.tree, header.hash, blockPreserve), coin))
      ensures old(Chosen()) ==> Chosen()
    {
      removed, reborn, c := [], [], 0;
      if GetBlock(header.parent, Prev(header.number)).None? {
        return Unknown, removed, reborn, c;
      }
      ghost var b0 := blocks;
      Store(header, body);
      var reorg := Choose(header, currentPreserve, blockPreserve, coin);
      if !reorg {
        return SideBlock, removed, reborn, c;
      }
      removed, reborn, c := WriteKnownBlock(header.hash);
      WholeBranch(blocks, header.hash, c);
      outcome := Canonical;
    }

    /** Does a stored block become head. */
    method Choose(header: Header, currentPreserve: bool, blockPreserve: bool, coin: bool) returns (reorg: bool)
      requires Valid() && blocks.tree.Has(header.hash) && blocks.tree.Get(header.hash) == header
      modifies this`trail
      ensures var next, head := CandidateOf(blocks.tree, header.hash, blockPreserve),
                                CandidateOf(blocks.tree, current, currentPreserve);
              && (reorg <==> Replaces(next, head, coin))
              && trail == if reorg then Followed(old(trail), head, Choice(next, coin)) else old(trail)
      ensures old(Chosen()) ==> Chosen()
    {
      TdOf(blocks.tree, tds, header.hash);
      TdOf(blocks.tree, tds, current);
      reorg := Prefer(tds.at[header.hash], tds.at[current], header.number, blocks.tree.Number(current),
                      currentPreserve, blockPreserve, coin);
      if reorg {
        trail := Followed(trail, CandidateOf(blocks.tree, current, currentPreserve),
                          Choice(CandidateOf(blocks.tree, header.hash, blockPreserve), coin));
      }
    }

    /** Writes the block itself, whatever becomes of it. */
    method Store(header: Header, body: Body)
      requires Valid() && header.hash != NO_HASH && Linked(blocks.tree, header)
      requires blocks.tree.Has(header.hash) ==>
                blocks.tree.Get(header.hash) == header && blocks.Body(header.hash) == body
      modifies this`blocks, this`tds
      ensures Valid() && blocks == old(Added(blocks, header, body)) && blocks.tree.Has(header.hash)
      ensures forall h :: blocks.tree.Has(h) ==> h in tds.at && tds.at[h] == Weight(blocks.tree, h)
      ensures old(IsPath(blocks.tree, index, current)) ==> IsPath(blocks.tree, index, current)
      ensures old(Exact(blocks, lookup, current)) ==> Exact(blocks, lookup, current)
      ensures old(Heaviest(blocks.tree, tds, current)) ==>
                && (tds.at[header.hash] <= tds.at[current] ==> Heaviest(blocks.tree, tds, current))
                && (tds.at[header.hash] >= tds.at[current] ==> Heaviest(blocks.tree, tds, header.hash))
    {
      TdOf(blocks.tree, tds, header.parent);
      var externTd := header.difficulty + tds.at[header.parent];
      StoreLemma(blocks, tds, index, lookup, current, top, header, body, externTd);
      blocks, tds := Added(blocks, header, body), Tds(tds.at[header.hash := externTd]);
    }
  }

  /** The reborn logs and those of the head are the whole new branch's. */
  lemma WholeBranch(b: Blocks, h: Hash, c: nat)
    requires b.Complete() && b.tree.Has(h) && c <= b.tree.Number(h)
    ensures b.tree.Number(h) > c ==>
              LogsTo(b, h, c, Below(b.tree, h, c)) + b.Body(h).logs == LogsTo(b, h, c, b.tree.Number(h))
  {
    assert At(b.tree, h, b.tree.Number(h)) == h;
  }

  function Added(b: Blocks, header: Header, body: Body): Blocks {
    Blocks(b.tree.With(header), b.bodies[header.hash := body])
  }

  /** How far the index reaches after a move between branches that part above c. */
  function TopAfter(t: Tree, old0: Hash, new0: Hash, c: nat, top: nat): nat
    requires t.Has(old0) && t.Has(new0)
  {
    if t.Parent(new0) == old0 then Greater(top, t.Number(new0))
    else if t.Number(new0) >= c + 2 then t.Number(new0)
    else Greater(t.Number(old0), t.Number(new0))
  }

  lemma ChildFork(t: Tree, parent: Hash, child: Hash) returns (c: nat)
    requires Rooted(t) && t.Has(parent) && t.Has(child) && t.Parent(child) == parent
    ensures c == t.Number(parent) == t.Number(child) - 1 && Fork(t, parent, child, c)
  {
    Step(t, child);
    c := t.Number(parent);
    assert At(t, child, c) == At(t, parent, c) == parent;
  }

  lemma NothingMoved(b: Blocks, old0: Hash, new0: Hash, c: nat, lookup: Lookup)
    requires b.Complete() && b.tree.Has(old0) && b.tree.Has(new0) && c == b.tree.Number(old0) < b.tree.Number(new0)
    ensures Moved(b, old0, new0, c, c, lookup, lookup)
    ensures LogsTo(b, old0, c, c) == [] && LogsTo(b, new0, c, c) == [] && Marked([]) == []
  {
  }

  /** The lookup index between the branches: the old branch's transactions are out, the new branch's up to `last` are
      in. */
  ghost predicate Moved(b: Blocks, old0: Hash, new0: Hash, c: nat, last: nat, before: Lookup, after: Lookup)
    requires b.Complete() && b.tree.Has(old0) && b.tree.Has(new0) && last <= b.tree.Number(new0)
  {
    forall tx {:trigger after.Get(tx)} :: after.Get(tx) ==
      if Find(b, new0, c, last, tx).Some? then Find(b, new0, c, last, tx)
      else if Find(b, old0, c, b.tree.Number(old0), tx).Some? then None
      else before.Get(tx)
  }

  /** Once the new head's own transactions are entered as well, the lookup index is exact again. */
  lemma MovedExact(b: Blocks, old0: Hash, new0: Hash, c: nat, last: nat, before: Lookup, after: Lookup)
    requires b.Complete() && b.tree.Has(old0) && b.tree.Has(new0) && Fork(b.tree, old0, new0, c) &&
             last == Below(b.tree, new0, c)
    requires Moved(b, old0, new0, c, last, before, after)
    ensures Exact(b, before, old0) && NoneTwice(b, old0, c) ==>
            Exact(b, Entered(after, b.Body(new0).txs, b.tree.Number(new0)), new0)
  {
    if Exact(b, before, old0) && NoneTwice(b, old0, c) {
      var n := b.tree.Number(new0);
      var final := Entered(after, b.Body(new0).txs, n);
      forall tx
        ensures final.Get(tx) == Find(b, new0, -1, n, tx)
      {
        MovedTx(b, old0, new0, c, last, before, after, tx);
      }
    }
  }

  lemma MovedTx(b: Blocks, old0: Hash, new0: Hash, c: nat, last: nat, before: Lookup, after: Lookup, tx: TxHash)
    requires b.Complete() && b.tree.Has(old0) && b.tree.Has(new0) && Fork(b.tree, old0, new0, c) &&
             last == Below(b.tree, new0, c)
    requires Moved(b, old0, new0, c, last, before, after) && Exact(b, before, old0) && NoneTwice(b, old0, c)
    ensures Entered(after, b.Body(new0).txs, b.tree.Number(new0)).Get(tx) == Find(b, new0, -1, b.tree.Number(new0), tx)
  {
    var n, o := b.tree.Number(new0), b.tree.Number(old0);
    assert after.Get(tx) == if Find(b, new0, c, last, tx).Some? then Find(b, new0, c, last, tx)
                            else if Find(b, old0, c, o, tx).Some? then None
                            else before.Get(tx);
    assert before.Get(tx) == Find(b, old0, -1, o, tx);
    FindSplit(b, old0, -1, c, o, tx);
    FindSplit(b, new0, -1, c, last, tx);
    forall k: nat | k <= c
      ensures At(b.tree, old0, k) == At(b.tree, new0, k)
    {
      AgreeBelowFork(b.tree, old0, new0, c, k);
    }
    FindSame(b, old0, new0, -1, c, tx);
    assert At(b.tree, new0, n) == new0;
  }

  // ---- storing a block ----

  lemma StoreLemma(b: Blocks, tds: Tds, index: Index, lookup: Lookup, head: Hash, top: nat, header: Header, body: Body,
                   td: nat)
    requires b.Complete() && Weighed(b.tree, tds) && b.tree.Has(head) &&
             Covers(b.tree, index, head, b.tree.Number(head), top)
    requires header.hash != NO_HASH && Linked(b.tree, header)
    requires b.tree.Has(header.hash) ==> b.tree.Get(header.hash) == header && b.Body(header.hash) == body
    requires header.parent in tds.at && td == tds.at[header.parent] + header.difficulty
    ensures var b', tds' := Added(b, header, body), Tds(tds.at[header.hash := td]);
            && b'.Complete() && Weighed(b'.tree, tds') && Covers(b'.tree, index, head, b'.tree.Number(head), top)
            && (forall h :: b'.tree.Has(h) ==> h in tds'.at && tds'.at[h] == Weight(b'.tree, h))
            && (IsPath(b.tree, index, head) ==> IsPath(b'.tree, index, head))
            && (Exact(b, lookup, head) ==> Exact(b', lookup, head))
            && (Heaviest(b.tree, tds, head) ==>
                  && (td <= tds.at[head] ==> Heaviest(b'.tree, tds', head))
                  && (td >= tds.at[head] ==> Heaviest(b'.tree, tds', header.hash)))
  {
    var b', tds' := Added(b, header, body), Tds(tds.at[header.hash := td]);
    WeighMore(b.tree, tds, header, td);
    if Heaviest(b.tree, tds, head) {
      HeaviestStays(b.tree, tds, header, td, head);
    }
    if IsPath(b.tree, index, head) {
      PathStays(b.tree, index, head, header);
    }
    CoverStays(b.tree, index, head, top, header);
    forall h | b'.tree.Has(h)
      ensures h in tds'.at && tds'.at[h] == Weight(b'.tree, h)
    {
      TdOf(b'.tree, tds', h);
    }
    if Exact(b, lookup, head) {
      forall tx
        ensures lookup.Get(tx) == Find(b', head, -1, b'.tree.Number(head), tx)
      {
        FindStays(b, header, body, head, b.tree.Number(head), tx);
      }
    }
  }

  lemma CoverStays(t: Tree, index: Index, head: Hash, top: nat, header: Header)
    requires t.Has(head) && Covers(t, index, head, t.Number(head), top) && Rooted(t.With(header))
    requires t.Has(header.hash) ==> t.Get(header.hash) == header
    ensures Covers(t.With(header), index, head, t.Number(head), top)
  {
    assert OpenCover(0);
    forall n: nat | n <= t.Number(head)
      ensures At(t.With(header), head, n) == At(t, head, n)
    {
      WithAt(t, header, head, n);
    }
  }

  lemma {:induction false} FindStays(b: Blocks, header: Header, body: Body, head: Hash, m: int, tx: TxHash)
    requires b.Complete() && Added(b, header, body).Complete() && b.tree.Has(head) && m <= b.tree.Number(head)
    requires b.tree.Has(header.hash) ==> b.tree.Get(header.hash) == header && b.Body(header.hash) == body
    ensures Find(Added(b, header, body), head, -1, m, tx) == Find(b, head, -1, m, tx)
    decreases m + 1
  {
    if m > -1 {
      WithAt(b.tree, header, head, m);
      FindStays(b, header, body, head, m - 1, tx);
    }
  }

  /** Leftovers above the new head do occur: a one-block branch that wins over a longer one. */
  lemma LeftoversHappen() returns (t: Tree, old0: Hash, new0: Hash, c: nat)
    ensures Rooted(t) && t.Has(old0) && t.Has(new0) && Fork(t, old0, new0, c)
    ensures Weight(t, new0) > Weight(t, old0) && !(t.Number(new0) >= c + 2 || t.Number(old0) <= t.Number(new0))
    ensures TopAfter(t, old0, new0, c, t.Number(old0)) > t.Number(new0)
  {
    var g, a, b, x := Header(1, NO_HASH, 0, 1), Header(2, 1, 1, 1), Header(3, 2, 2, 1), Header(4, 1, 1, 9);
    t := Tree(map[1 := g, 2 := a, 3 := b, 4 := x], g);
    old0, new0, c := 3, 4, 0;
    Unfold();
    assert Weight(t, 1) == 1 && Weight(t, 2) == 2;
    assert t.Get(4) == x && t.Number(4) == 1;
    assert At(t, 4, 1) == 4;
    assert At(t, 4, 0) == At(t, 1, 0) == 1;
    assert At(t, 3, 0) == At(t, 2, 0) == At(t, 1, 0) && At(t, 3, 1) == At(t, 2, 1) == 2;
  }

  lemma DeletedIsMoved(b: Blocks, old0: Hash, new0: Hash, c: nat, last: nat, before: Lookup, after: Lookup,
                       deletedTxs: seq<TxHash>, addedTxs: seq<TxHash>, rebirth: seq<seq<Log>>, gone: set<TxHash>)
    requires b.Complete() && b.tree.Has(old0) && b.tree.Has(new0) && last <= b.tree.Number(new0)
    requires Reborn(b, new0, c, last, before, after, rebirth, addedTxs)
    requires forall tx :: tx in deletedTxs <==> Find(b, old0, c, b.tree.Number(old0), tx).Some?
    requires gone == set tx | tx in deletedTxs && tx !in addedTxs
    ensures Moved(b, old0, new0, c, last, before, Deleted(after, gone)) && Merge(rebirth) == LogsTo(b, new0, c, last)
  {
    assert OpenReborn(0);
    var moved := Deleted(after, gone);
    forall tx
      ensures moved.Get(tx) ==
              if Find(b, new0, c, last, tx).Some? then Find(b, new0, c, last, tx)
              else if Find(b, old0, c, b.tree.Number(old0), tx).Some? then None
              else before.Get(tx)
    {
      assert after.Get(tx) == Over(Find(b, new0, c, last, tx), before.Get(tx));
    }
  }

  /** The number just below a head, or the fork itself if the branch is empty. */
  function Below(t: Tree, h: Hash, c: nat): nat
    requires t.Has(h)
  {
    if t.Number(h) > c then t.Number(h) - 1 else c
  }

  /** The lookup index after the blocks in (c, m] were entered. */
  ghost predicate Rewritten(b: Blocks, h: Hash, c: nat, m: nat, before: Lookup, after: Lookup)
    requires b.Complete() && b.tree.Has(h) && m <= b.tree.Number(h)
  {
    forall tx {:trigger after.Get(tx)} :: after.Get(tx) == Over(Find(b, h, c, m, tx), before.Get(tx))
  }

  /** What is gathered while the blocks in (c, m] of the new branch become head. */
  ghost predicate Reborn(b: Blocks, h: Hash, c: nat, m: nat, before: Lookup, after: Lookup, reborn: seq<seq<Log>>,
                         txs: seq<TxHash>) {
    b.Complete() && b.tree.Has(h) && m <= b.tree.Number(h) && forall key {:trigger OpenReborn(key)} ::
        OpenReborn(key) ==>
      && Merge(reborn) == LogsTo(b, h, c, m)
      && (forall tx :: tx in txs <==> Find(b, h, c, m, tx).Some?)
      && Rewritten(b, h, c, m, before, after)
  }

  predicate OpenReborn(key: int) { true }

  lemma RebornNone(b: Blocks, h: Hash, c: nat, lookup: Lookup)
    requires b.Complete() && b.tree.Has(h) && c <= b.tree.Number(h)
    ensures Reborn(b, h, c, c, lookup, lookup, [], [])
  {
  }

  lemma RebornOne(b: Blocks, h: Hash, c: nat, m: nat, before: Lookup, after: Lookup, reborn: seq<seq<Log>>,
                  txs: seq<TxHash>)
    requires Reborn(b, h, c, m, before, after, reborn, txs) && c <= m < b.tree.Number(h)
    ensures var body := b.Body(At(b.tree, h, m + 1));
            Reborn(b, h, c, m + 1, before, Entered(after, body.txs, m + 1), Collect(reborn, body.logs), txs + body.txs)
  {
    assert OpenReborn(0);
    var body := b.Body(At(b.tree, h, m + 1));
    var next := Entered(after, body.txs, m + 1);
    forall tx
      ensures next.Get(tx) == Over(Find(b, h, c, m + 1, tx), before.Get(tx))
      ensures tx in txs + body.txs <==> Find(b, h, c, m + 1, tx).Some?
    {
      assert after.Get(tx) == Over(Find(b, h, c, m, tx), before.Get(tx));
    }
  }

  lemma OneGenesis(t: Tree, a: Hash, b: Hash)
    requires Rooted(t) && t.Has(a) && t.Has(b) && t.Number(a) == t.Number(b)
    ensures t.Number(a) == 0 ==> a == b
  {
    Step(t, a);
    Step(t, b);
  }

  /** One parent step along the path of `h`. */
  lemma StepDown(t: Tree, h: Hash, k: nat)
    requires Rooted(t) && t.Has(h) && 0 < k <= t.Number(h)
    ensures var a := At(t, h, k);
            && t.Has(t.Parent(a)) && t.Number(t.Parent(a)) == k - 1 && t.Parent(a) == At(t, h, k - 1)
            && t.Get(t.Parent(a)).hash == t.Parent(a)
  {
    var a := At(t, h, k);
    Step(t, a);
    Step(t, t.Parent(a));
    AtAt(t, h, k, k - 1);
    assert At(t, t.Parent(a), k - 1) == t.Parent(a);
  }
}
