/** Serving header queries by hash, and the block hashes an executing contract may ask for:
    two walks along parents that take short cuts. */
module HeaderQuery {
  import opened Basics
  import opened Headers
  import opened HeaderChain

  const SOFT_RESPONSE_LIMIT := 2 * 1024 * 1024
  const EST_HEADER_RLP_SIZE := 500
  const MAX_HEADER_FETCH := 192
  const MAX_NON_CANONICAL := 100

  /** `low` is exactly k parent steps below `high`. */
  ghost predicate Below(t: Tree, low: Hash, high: Hash, k: nat)
    requires Rooted(t)
  {
    t.Has(high) && k <= t.Number(high) && Ancestor(t, high, k) == low
  }

  /** Consecutive headers are k generations apart, in the direction asked for. */
  ghost predicate Spaced(t: Tree, headers: seq<Header>, k: nat, reverse: bool)
    requires Rooted(t)
  {
    && (forall i :: 0 <= i < |headers| ==> t.Has(headers[i].hash) && t.Get(headers[i].hash) == headers[i])
    && (forall i :: 0 <= i < |headers| - 1 ==> Apart(t, headers[i].hash, headers[i + 1].hash, k, reverse))
  }

  ghost predicate Apart(t: Tree, first: Hash, second: Hash, k: nat, reverse: bool)
    requires Rooted(t)
  {
    if reverse then Below(t, second, first, k) else Below(t, first, second, k)
  }

  ghost predicate Numbered64(t: Tree) {
    forall h :: t.Has(h) ==> t.Number(h) <= MAX_UINT64
  }

  /** What a step toward genesis takes from the budget: the generations walked off the canonical chain, unless it is a
      single one. */
  ghost function Toll(t: Tree, index: Index, h: Hash, skip: nat): nat
    requires Rooted(t)
  {
    if skip > 0 && t.Has(h) && skip < t.Number(h) then Detour(t, index, h, skip + 1) else 0
  }

  ghost function Tolls(t: Tree, index: Index, headers: seq<Header>, skip: nat): nat
    requires Rooted(t)
  {
    if headers == [] then 0
    else Tolls(t, index, headers[..|headers| - 1], skip) + Toll(t, index, headers[|headers| - 1].hash, skip)
  }

  /** The next origin of a query toward genesis, if there is one. */
  method Descend(hc: HeaderChain, hash: Hash, number: nat, skip: nat, budget: nat)
    returns (ok: bool, next: Hash, n: nat, left: nat)
    requires hc.Consistent() && hc.tree.Has(hash) && hc.tree.Number(hash) == number && skip <= MAX_UINT64
    modifies hc`headerCache
    ensures hc.Consistent()
    ensures ok <==>
              skip < number && skip < MAX_UINT64 && (skip == 0 || Detour(hc.tree, hc.index, hash, skip + 1) <= budget)
    ensures ok ==> Below(hc.tree, next, hash, skip + 1) && hc.tree.Has(next) && n == hc.tree.Number(next)
    ensures ok ==> left + Toll(hc.tree, hc.index, hash, skip) == budget
  {
    ok, next, n, left := false, NO_HASH, 0, budget;
    var ancestor := Wrap(skip + 1);
    if ancestor != 0 {
      assert ancestor == skip + 1;
      Stored(hc.tree, hash);
      next, n, left := hc.GetAncestor(hash, number, ancestor, budget);
      ok := next != NO_HASH;
    }
  }

  /** The next origin of a query toward the leaves: the canonical header that many numbers up, if it descends from here.
      */
  method Ascend(hc: HeaderChain, hash: Hash, current: nat, skip: nat, budget: nat)
    returns (ok: bool, next: Hash, n: nat, left: nat)
    requires hc.Consistent() && hc.tree.Has(hash) && hc.tree.Number(hash) == current <= MAX_UINT64 && skip <= MAX_UINT64
    modifies hc`headerCache
    ensures hc.Consistent()
    ensures ok <==> current + skip + 1 <= Lesser(MAX_UINT64, hc.currentHeader.number) && hc.index.Read(current) == hash
    ensures ok ==> Below(hc.tree, hash, next, skip + 1) && hc.tree.Has(next) && n == hc.tree.Number(next)
  {
    ok, next, n, left := false, NO_HASH, Wrap(current + skip + 1), budget;
    if n <= current {
      return;
    }
    NoOverflow(current, skip);
    next := hc.index.Read(n);
    if next == NO_HASH {
      ReadPath(hc.tree, hc.index, hc.currentHash, n);
      return;
    }
    ReadPath(hc.tree, hc.index, hc.currentHash, n);
    CanonicalAncestor(hc.tree, hc.index, hc.currentHash, n, current);
    var expected, m;
    expected, m, left := hc.GetAncestor(next, n, skip + 1, budget);
    Stored(hc.tree, hash);
    ok := expected == hash;
  }

  /** Between two numbers of the index lies exactly the ancestor path. */
  lemma CanonicalAncestor(t: Tree, index: Index, head: Hash, n: nat, m: nat)
    requires Rooted(t) && IsPath(t, index, head) && m <= n <= t.Number(head)
    ensures t.Has(index.Read(n)) && t.Number(index.Read(n)) == n && Detour(t, index, index.Read(n), n - m) == 0
    ensures Ancestor(t, index.Read(n), n - m) == index.Read(m)
  {
    ReadPath(t, index, head, n);
    ReadPath(t, index, head, m);
    AtAt(t, head, n, m);
  }

  /** A sum that wraps around never exceeds its first part. */
  lemma NoOverflow(current: nat, skip: nat)
    requires current <= MAX_UINT64 && skip <= MAX_UINT64
    ensures Wrap(current + skip + 1) > current <==> current + skip + 1 <= MAX_UINT64
    ensures Wrap(current + skip + 1) > current ==> Wrap(current + skip + 1) == current + skip + 1
  {
    if current + skip + 1 > MAX_UINT64 {
      assert current + skip + 1 < 2 * (MAX_UINT64 + 1);
      assert Wrap(current + skip + 1) == current + skip + 1 - (MAX_UINT64 + 1);
    }
  }

  /** There is no next origin: toward genesis that is too near, or too far off the canonical chain; toward the leaves
      the chain ends, or does not lead through here. */
  ghost predicate Exhausted(t: Tree, index: Index, top: nat, last: Header, skip: nat, reverse: bool, budget: int)
    requires Rooted(t)
  {
    if reverse then last.number <= skip || skip == MAX_UINT64 || Toll(t, index, last.hash, skip) > budget
    else last.number + skip + 1 > Lesser(MAX_UINT64, top) || index.Read(last.number) != last.hash
  }

  /** The next origin of a query, in the direction asked for. */
  method Next(hc: HeaderChain, hash: Hash, number: nat, skip: nat, reverse: bool, budget: nat)
    returns (ok: bool, next: Hash, n: nat, left: nat)
    requires hc.Consistent() && hc.tree.Has(hash) && hc.tree.Number(hash) == number <= MAX_UINT64 && skip <= MAX_UINT64
    modifies hc`headerCache
    ensures hc.Consistent()
    ensures ok ==> hc.tree.Has(next) && n == hc.tree.Number(next) && Apart(hc.tree, hash, next, skip + 1, reverse)
    ensures ok <==> !Exhausted(hc.tree, hc.index, hc.currentHeader.number, hc.tree.Get(hash), skip, reverse, budget)
    ensures ok && reverse ==> left + Toll(hc.tree, hc.index, hash, skip) == budget
  {
    Step(hc.tree, hash);
    if reverse {
      ok, next, n, left := Descend(hc, hash, number, skip, budget);
    } else {
      ok, next, n, left := Ascend(hc, hash, number, skip, budget);
    }
  }

  // Always true; folds the definitions below.
  predicate OpenToll(key: int) { true }

  /** The budget is what the steps from all these headers left of it. */
  ghost predicate Paid(t: Tree, index: Index, headers: seq<Header>, skip: nat, budget: nat)
    requires Rooted(t)
  {
    forall key {:trigger OpenToll(key)} :: OpenToll(key) ==>
      budget + Tolls(t, index, headers, skip) == MAX_NON_CANONICAL
  }

  /** The reply cannot go on. */
  ghost predicate Ended(t: Tree, index: Index, top: nat, headers: seq<Header>, skip: nat, reverse: bool)
    requires Rooted(t)
  {
    forall key {:trigger OpenToll(key)} :: OpenToll(key) ==>
      && headers != []
      && var budget := MAX_NON_CANONICAL - Tolls(t, index, headers[..|headers| - 1], skip);
         (reverse ==> budget >= 0) && Exhausted(t, index, top, headers[|headers| - 1], skip, reverse, budget)
  }

  lemma PaidNothing(t: Tree, index: Index, skip: nat)
    requires Rooted(t)
    ensures Paid(t, index, [], skip, MAX_NON_CANONICAL)
  {
  }

  /** One more header, with the step from it or without one. */
  lemma OneMoreHeader(t: Tree, index: Index, top: nat, headers: seq<Header>, h: Header, skip: nat, reverse: bool,
                      budget: nat, ok: bool, left: nat)
    requires Rooted(t) && (reverse ==> Paid(t, index, headers, skip, budget))
    requires ok <==> !Exhausted(t, index, top, h, skip, reverse, budget)
    requires ok && reverse ==> left + Toll(t, index, h.hash, skip) == budget
    ensures ok && reverse ==> Paid(t, index, headers + [h], skip, left)
    ensures !ok ==> Ended(t, index, top, headers + [h], skip, reverse)
  {
    assert OpenToll(0);
    assert (headers + [h])[..|headers|] == headers;
  }

  /** Behind a canonical header only genesis or the head ends a reply. */
  lemma EndedCanonical(t: Tree, index: Index, top: nat, headers: seq<Header>, skip: nat, reverse: bool)
    requires Rooted(t) && Numbered64(t) && Ended(t, index, top, headers, skip, reverse) && headers != []
    requires var last := headers[|headers| - 1];
             t.Has(last.hash) && t.Get(last.hash) == last && index.Read(last.number) == last.hash
    ensures var last := headers[|headers| - 1];
            if reverse then last.number <= skip else last.number + skip + 1 > Lesser(MAX_UINT64, top)
  {
    assert OpenToll(0);
  }

  /** Answers a header query given by hash. The amount is compared as a signed number, so that from 2^63 on, where it
      is negative, the answer is empty. */
  method HeadersByHash(hc: HeaderChain, origin: Hash, amount: nat, skip: nat, reverse: bool)
    returns (headers: seq<Header>)
    requires hc.Consistent() && origin != NO_HASH && amount <= MAX_UINT64 && skip <= MAX_UINT64 && Numbered64(hc.tree)
    modifies hc`headerCache
    ensures hc.Consistent() && Spaced(hc.tree, headers, skip + 1, reverse)
    ensures |headers| <= amount && |headers| <= MAX_HEADER_FETCH
    ensures headers != [] <==> hc.tree.Has(origin) && 0 < amount < 0x8000_0000_0000_0000
    ensures headers != [] ==> headers[0].hash == origin
    ensures 0 < |headers| < Lesser(amount, MAX_HEADER_FETCH) ==>
              Ended(hc.tree, hc.index, hc.currentHeader.number, headers, skip, reverse)
    ensures 0 < |headers| < Lesser(amount, MAX_HEADER_FETCH) ==>
              var last := headers[|headers| - 1];
              hc.index.Read(last.number) == last.hash ==>
                if reverse then last.number <= skip
                    else last.number + skip + 1 > Lesser(MAX_UINT64, hc.currentHeader.number)
  {
    var hash, number, unknown, bytes := origin, 0, false, 0;
    var budget: nat := MAX_NON_CANONICAL;
    var want := Signed(amount);
    headers := [];
    PaidNothing(hc.tree, hc.index, skip);
    while !unknown && |headers| < want && bytes < SOFT_RESPONSE_LIMIT && |headers| < MAX_HEADER_FETCH
      invariant hc.Consistent() && Spaced(hc.tree, headers, skip + 1, reverse)
      invariant |headers| <= amount && |headers| <= MAX_HEADER_FETCH && (headers != [] ==> |headers| <= want)
      invariant bytes == |headers| * EST_HEADER_RLP_SIZE
      invariant headers == [] ==> hash == origin && !unknown
      invariant headers != [] && unknown ==>
                  Ended(hc.tree, hc.index, hc.currentHeader.number, headers, skip, reverse)
      invariant reverse && !unknown ==> Paid(hc.tree, hc.index, headers, skip, budget)
      invariant headers != [] ==> headers[0].hash == origin && hc.tree.Has(origin)
      invariant headers != [] && !unknown ==>
                  && hc.tree.Has(hash) && number == hc.tree.Number(hash)
                  && Apart(hc.tree, headers[|headers| - 1].hash, hash, skip + 1, reverse)
      decreases want - |headers|
    {
      if headers == [] && hc.tree.Has(hash) {
        number := hc.tree.Number(hash);
      }
      var found := hc.GetHeader(hash, number);
      if found.None? {
        break;
      }
      Step(hc.tree, hash);
      bytes := bytes + EST_HEADER_RLP_SIZE;
      var ok, next, n, left := Next(hc, hash, number, skip, reverse, budget);
      OneMoreHeader(hc.tree, hc.index, hc.currentHeader.number, headers, found.value, skip, reverse, budget, ok, left);
      headers, budget := headers + [found.value], left;
      unknown := !ok;
      if ok {
        hash, number := next, n;
      }
    }
    if headers != [] && unknown && hc.index.Read(headers[|headers| - 1].number) == headers[|headers| - 1].hash {
      EndedCanonical(hc.tree, hc.index, hc.currentHeader.number, headers, skip, reverse);
    }
  }

  // ---- block hashes for a contract ----

  /** The k-th parent of a hash, or nothing where the walk leaves the store. */
  ghost function Up(t: Tree, h: Hash, k: nat): Hash
    decreases k
  {
    if k == 0 then h else if t.Has(h) then Up(t, t.Parent(h), k - 1) else NO_HASH
  }

  lemma {:induction false} UpOne(t: Tree, h: Hash, k: nat)
    ensures Up(t, h, k + 1) == if t.Has(Up(t, h, k)) then t.Parent(Up(t, h, k)) else NO_HASH
    requires !t.Has(NO_HASH)
    decreases k
  {
    if k > 0 && t.Has(h) {
      UpOne(t, t.Parent(h), k - 1);
    }
  }

  lemma {:induction false} UpLost(t: Tree, h: Hash, j: nat, k: nat)
    requires !t.Has(NO_HASH) && j < k && !t.Has(Up(t, h, j))
    ensures Up(t, h, k) == NO_HASH
  {
    UpOne(t, h, k - 1);
    if j < k - 1 {
      UpLost(t, h, j, k - 1);
    }
  }

  /** GetHashFn: remembers the hashes below a block as far as it has walked. */
  class BlockHashes {
    const tree: Tree
    const ref: Header
    var cache: seq<Hash>

    /** Entry i of the cache is the i-th parent of the block's parent; the last may be the nothing above genesis. */
    ghost predicate Valid()
      reads this
    {
      && Rooted(tree) && ref.number <= MAX_UINT64
      && (ref.number == 0 ==> ref.parent == NO_HASH) &&
         (tree.Has(ref.parent) ==> tree.Number(ref.parent) == ref.number - 1)
      && |cache| <= ref.number + 1
      && (forall i :: 0 <= i < |cache| ==> cache[i] == Up(tree, ref.parent, i))
      && (forall i :: 0 <= i < |cache| && tree.Has(cache[i]) ==> tree.Number(cache[i]) == ref.number - 1 - i)
      && (|cache| == ref.number + 1 ==> cache[ref.number] == NO_HASH)
    }

    constructor (tree: Tree, ref: Header)
      requires Rooted(tree) && ref.number <= MAX_UINT64
      requires (ref.number == 0 ==> ref.parent == NO_HASH) &&
               (tree.Has(ref.parent) ==> tree.Number(ref.parent) == ref.number - 1)
      ensures Valid() && this.tree == tree && this.ref == ref
    {
      this.tree, this.ref, cache := tree, ref, [];
    }

    /** The hash at a number below the block, exactly as a plain walk over parents would find it. */
    method GetHash(n: nat) returns (h: Hash)
      requires Valid() && n <= MAX_UINT64
      modifies this`cache
      ensures Valid()
      ensures h == if n < ref.number then Up(tree, ref.parent, ref.number - 1 - n) else NO_HASH
    {
      if |cache| == 0 {
        cache := [ref.parent];
      }
      var idx := Wrap(ref.number - n - 1);
      if idx < |cache| {
        return cache[idx];
      }
      var last := cache[|cache| - 1];
      var number: int := Wrap(ref.number - |cache|);
      while true
        invariant Valid() && |cache| > 0 && last == cache[|cache| - 1] && number == Wrap(ref.number - |cache|)
        invariant n < ref.number ==> n < ref.number - |cache|
        decreases ref.number + 1 - |cache|
      {
        if !(tree.Has(last) && tree.Number(last) == number) {
          break;
        }
        Extend(last);
        last := tree.Parent(last);
        number := Wrap(number - 1);
        if n == number {
          return last;
        }
      }
      if n < ref.number {
        UpLost(tree, ref.parent, |cache| - 1, ref.number - 1 - n);
      }
      return NO_HASH;
    }

    method Extend(last: Hash)
      requires Valid() && |cache| > 0 && last == cache[|cache| - 1] && tree.Has(last)
      modifies this`cache
      ensures Valid() && cache == old(cache) + [tree.Parent(last)] && |old(cache)| <= ref.number
    {
      Step(tree, last);
      UpOne(tree, ref.parent, |cache| - 1);
      cache := cache + [tree.Parent(last)];
    }
  }
}
