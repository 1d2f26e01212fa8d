/** The walk a pool reset makes over the two branches of a chain reorganisation, to find the transactions that left
    the chain. */
module Reinjection {
  import opened Basics
  import opened Transactions
  import opened Headers
  import BlockChain
  import Pool

  const MAX_DEPTH := 64

  /** The headers, and the transactions of the blocks that are stored whole. */
  datatype Chain = Chain(tree: Tree, bodies: map<Hash, seq<Tx>>)
  {
    /** GetBlock, by hash and number. */
    predicate HasBlock(header: Header) {
      header.hash in bodies && tree.Has(header.hash) && tree.Number(header.hash) == header.number
    }
  }

  /** Every block of the path of `h` from number c on is stored. */
  ghost predicate Whole(b: Chain, h: Hash, c: nat)
    requires Rooted(b.tree) && b.tree.Has(h)
  {
    forall n: nat :: c <= n <= b.tree.Number(h) ==> At(b.tree, h, n) in b.bodies
  }

  /** Does a stored block above number c on the path of `h` have the transaction. */
  ghost predicate OnBranch(b: Chain, h: Hash, c: nat, tx: Tx)
    requires Rooted(b.tree) && b.tree.Has(h)
  {
    exists n: nat :: c < n <= b.tree.Number(h) && At(b.tree, h, n) in b.bodies && tx in b.bodies[At(b.tree, h, n)]
  }

  /** The walk came down to number c: all blocks were there, and the slice has exactly the transactions of those
      above. */
  ghost predicate Walked(b: Chain, h: Hash, c: nat, txs: seq<Tx>) {
    Rooted(b.tree) && b.tree.Has(h) && c <= b.tree.Number(h) && forall key {:trigger OpenWalk(key)} ::
      OpenWalk(key) ==> Whole(b, h, c) && forall tx :: tx in txs <==> OnBranch(b, h, c, tx)
  }

  /** Always true; folds the definition above. */
  predicate OpenWalk(key: int) { true }

  lemma WalkStart(b: Chain, h: Hash)
    requires Rooted(b.tree) && b.tree.Has(h) && h in b.bodies
    ensures Walked(b, h, b.tree.Number(h), [])
  {
  }

  lemma WalkOne(b: Chain, h: Hash, c: nat, txs: seq<Tx>)
    requires Walked(b, h, c, txs) && c > 0
    ensures At(b.tree, h, c) in b.bodies
    ensures At(b.tree, h, c - 1) in b.bodies ==> Walked(b, h, c - 1, txs + b.bodies[At(b.tree, h, c)])
    ensures At(b.tree, h, c - 1) !in b.bodies ==> !Whole(b, h, c - 1)
  {
    assert OpenWalk(0);
    var more := txs + b.bodies[At(b.tree, h, c)];
    forall tx
      ensures tx in more <==> OnBranch(b, h, c - 1, tx)
    {
      if OnBranch(b, h, c - 1, tx) {
        var n: nat :| c - 1 < n <= b.tree.Number(h) && At(b.tree, h, n) in b.bodies &&
                      tx in b.bodies[At(b.tree, h, n)];
        assert n > c ==> OnBranch(b, h, c, tx);
      }
    }
  }

  /** Walks a branch down to a number, gathering its transactions; stops at a missing block. */
  method Lower(b: Chain, h: Hash, n: nat) returns (ok: bool, o: Hash, txs: seq<Tx>)
    requires Rooted(b.tree) && b.tree.Has(h) && h in b.bodies && n <= b.tree.Number(h)
    ensures ok <==> Whole(b, h, n)
    ensures ok ==> o == At(b.tree, h, n) && Walked(b, h, n, txs)
  {
    o, txs := h, [];
    WalkStart(b, h);
    ghost var k := b.tree.Number(h);
    while b.tree.Number(o) > n
      invariant n <= k <= b.tree.Number(h) && o == At(b.tree, h, k) && Walked(b, h, k, txs)
      decreases k
    {
      BlockChain.StepDown(b.tree, h, k);
      WalkOne(b, h, k, txs);
      txs := txs + b.bodies[o];
      o := b.tree.Parent(o);
      k := k - 1;
      if o !in b.bodies {
        return false, o, txs;
      }
    }
    assert OpenWalk(0);
    ok := true;
  }

  /** The two paths meet at exactly one number. */
  lemma {:induction false} Meeting(t: Tree, a: Hash, b: Hash, k: nat) returns (c: nat)
    requires BlockChain.Parted(t, a, b, k) && k <= t.Number(a) && k <= t.Number(b)
    ensures c <= k && BlockChain.Fork(t, a, b, c)
    decreases k
  {
    if At(t, a, k) == At(t, b, k) {
      BlockChain.PartedFork(t, a, b, k);
      c := k;
    } else {
      BlockChain.OneGenesis(t, At(t, a, k), At(t, b, k));
      BlockChain.PartedStep(t, a, b, k);
      c := Meeting(t, a, b, k - 1);
    }
  }

  /** Walks both branches down to where they meet, at number c, unless a block on the way is missing. */
  method Meet(b: Chain, oldHead: Hash, newHead: Hash)
    returns (ok: bool, discarded: seq<Tx>, included: seq<Tx>, ghost c: nat)
    requires Rooted(b.tree) && b.tree.Has(oldHead) && b.tree.Has(newHead) && oldHead in b.bodies && newHead in b.bodies
    ensures BlockChain.Fork(b.tree, oldHead, newHead, c)
    ensures ok <==> Whole(b, oldHead, c) && Whole(b, newHead, c)
    ensures ok ==> Walked(b, oldHead, c, discarded) && Walked(b, newHead, c, included)
  {
    ghost var t := b.tree;
    var low := Lesser(b.tree.Number(oldHead), b.tree.Number(newHead));
    c := Meeting(t, oldHead, newHead, low);
    var rem, add;
    included := [];
    ok, rem, discarded := Lower(b, oldHead, low);
    if !ok {
      return;
    }
    ok, add, included := Lower(b, newHead, low);
    if !ok {
      return;
    }
    ghost var k := low;
    while rem != add
      invariant c <= k <= t.Number(oldHead) && k <= t.Number(newHead)
      invariant rem == At(t, oldHead, k) && add == At(t, newHead, k)
      invariant Walked(b, oldHead, k, discarded) && Walked(b, newHead, k, included)
      invariant BlockChain.Parted(t, oldHead, newHead, k)
      decreases k
    {
      BlockChain.OneGenesis(t, rem, add);
      BlockChain.StepDown(t, oldHead, k);
      BlockChain.StepDown(t, newHead, k);
      BlockChain.PartedStep(t, oldHead, newHead, k);
      WalkOne(b, oldHead, k, discarded);
      WalkOne(b, newHead, k, included);
      discarded, included := discarded + b.bodies[rem], included + b.bodies[add];
      rem, add := b.tree.Parent(rem), b.tree.Parent(add);
      k := k - 1;
      if rem !in b.bodies || add !in b.bodies {
        return false, discarded, included, c;
      }
    }
    assert OpenWalk(0);
  }

  lemma NoMembers(txs: seq<Tx>)
    ensures txs == [] <==> forall tx :: tx !in txs
  {
    if txs != [] {
      assert txs[0] in txs;
    }
  }

  ghost predicate AllDistinct(txs: seq<Tx>) {
    forall i, j :: 0 <= i < j < |txs| ==> txs[i] != txs[j]
  }

  /** types.TxDifference: what is in `a` but not in `b`, in the order of `a`. */
  method TxDifference(a: seq<Tx>, b: seq<Tx>) returns (keep: seq<Tx>)
    ensures forall tx :: tx in keep <==> tx in a && tx !in b
    ensures AllDistinct(a) ==> AllDistinct(keep)
  {
    keep := [];
    for i := 0 to |a|
      invariant forall tx :: tx in keep <==> tx in a[..i] && tx !in b
      invariant AllDistinct(a) ==> AllDistinct(keep)
    {
      assert a[..i + 1] == a[..i] + [a[i]];
      if a[i] !in b {
        assert forall k :: 0 <= k < |keep| ==> keep[k] in keep;
        keep := keep + [a[i]];
      }
    }
    assert a[..|a|] == a;
  }

  /** Heads the walk is made for: the new one does not follow the old one, and their numbers are close. */
  predicate Shallow(oldHead: Header, newHead: Header) {
    oldHead.hash != newHead.parent && -MAX_DEPTH <= oldHead.number - newHead.number <= MAX_DEPTH
  }

  /** A reset walks from the old head to the new one, and meets a block that is not stored. */
  ghost predicate Broken(b: Chain, oldHead: Header, newHead: Header)
    requires Rooted(b.tree) && b.HasBlock(newHead)
  {
    Shallow(oldHead, newHead) &&
    (!b.HasBlock(oldHead) ||
     exists c :: BlockChain.Fork(b.tree, oldHead.hash, newHead.hash, c) &&
                 !(Whole(b, oldHead.hash, c) && Whole(b, newHead.hash, c)))
  }

  lemma OneFork(t: Tree, a: Hash, b: Hash, c: nat)
    requires Rooted(t) && t.Has(a) && t.Has(b) && BlockChain.Fork(t, a, b, c)
    ensures forall d :: BlockChain.Fork(t, a, b, d) ==> d == c
  {
  }

  /** The old head is an ancestor of the new one, or the same. */
  ghost predicate Extends(t: Tree, oldHead: Header, newHead: Header)
    requires Rooted(t) && t.Has(newHead.hash)
  {
    oldHead.number <= t.Number(newHead.hash) && At(t, newHead.hash, oldHead.number) == oldHead.hash
  }

  lemma ExtendsForks(t: Tree, oldHead: Header, newHead: Header)
    requires Rooted(t) && t.Has(newHead.hash) && Extends(t, oldHead, newHead)
    ensures t.Has(oldHead.hash) && BlockChain.Fork(t, oldHead.hash, newHead.hash, oldHead.number)
    ensures t.Number(oldHead.hash) == oldHead.number
  {
    AtAt(t, newHead.hash, oldHead.number, oldHead.number);
  }

  /** The transactions to put back when the head moves: exactly those of the abandoned branch that the new one does not
      have. None at all for a head that follows the old one or is too far from it, and no answer where a block of
      either branch is missing. A head further up the same chain puts none back. */
  method Reinject(b: Chain, oldHead: Option<Header>, newHead: Header) returns (r: Option<seq<Tx>>)
    requires Rooted(b.tree) && b.HasBlock(newHead)
    ensures r.None? <==> oldHead.Some? && Broken(b, oldHead.value, newHead)
    ensures oldHead.None? || !Shallow(oldHead.value, newHead) ==> r == Some([])
    ensures oldHead.Some? &&
            (oldHead.value.number > newHead.number + 64 || newHead.number > oldHead.value.number + 64 ||
                              oldHead.value.hash == newHead.parent) ==>
              r == Some([])
    ensures oldHead.Some? && Shallow(oldHead.value, newHead) && r.Some? ==>
              forall c, tx :: BlockChain.Fork(b.tree, oldHead.value.hash, newHead.hash, c) ==>
                (tx in r.value <==> OnBranch(b, oldHead.value.hash, c, tx) && !OnBranch(b, newHead.hash, c, tx))
    ensures oldHead.Some? && Extends(b.tree, oldHead.value, newHead) && r.Some? ==> r.value == []
  {
    if oldHead.None? || !Shallow(oldHead.value, newHead) {
      return Some([]);
    }
    if !b.HasBlock(oldHead.value) {
      return None;
    }
    ghost var c;
    var ok, discarded, included;
    ok, discarded, included, c := Meet(b, oldHead.value.hash, newHead.hash);
    OneFork(b.tree, oldHead.value.hash, newHead.hash, c);
    if !ok {
      return None;
    }
    var keep := TxDifference(discarded, included);
    assert OpenWalk(0);
    if Extends(b.tree, oldHead.value, newHead) {
      ExtendsForks(b.tree, oldHead.value, newHead);
      NoMembers(keep);
    }
    r := Some(keep);
  }

  /** What the reorg loop is asked to do for a new head: a reset fails where the walk does, or where the state of the
      new head is missing. */
  method RequestFor(b: Chain, oldHead: Option<Header>, newHead: Header, state: Option<Pool.Head>)
    returns (req: Pool.Request)
    requires Rooted(b.tree) && b.HasBlock(newHead)
    ensures req.ResetFails? <==> state.None? || (oldHead.Some? && Broken(b, oldHead.value, newHead))
    ensures !req.ResetFails? ==> req.ResetTo? && req.head == state.value
    ensures req.ResetTo? && (oldHead.None? || !Shallow(oldHead.value, newHead)) ==> req.reinject == []
    ensures req.ResetTo? && oldHead.Some? && Extends(b.tree, oldHead.value, newHead) ==> req.reinject == []
    ensures req.ResetTo? && oldHead.Some? && Shallow(oldHead.value, newHead) ==>
              forall c, tx :: BlockChain.Fork(b.tree, oldHead.value.hash, newHead.hash, c) ==>
                (tx in req.reinject <==> OnBranch(b, oldHead.value.hash, c, tx) && !OnBranch(b, newHead.hash, c, tx))
  {
    var reinject := Reinject(b, oldHead, newHead);
    if reinject.None? || state.None? {
      return Pool.ResetFails;
    }
    return Pool.ResetTo(state.value, reinject.value);
  }
}
