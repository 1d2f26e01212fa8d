/** txSortedMap: a nonce-indexed hash map with a heap of its nonces and a cache of the
    nonce-sorted contents. Every operation is proved against the plain set of its transactions. */
module SortedMap {
  import opened Basics
  import opened Transactions
  import opened BinaryHeap

  const NonceRank: nat -> Rank := (n: nat) => (n, 0)
  const TxRank: Tx -> Rank := (tx: Tx) => (tx.nonce, 0)

  type NonceMap = map<nat, Tx>

  ghost predicate Keyed(m: NonceMap) {
    forall n :: n in m ==> m[n].nonce == n
  }

  function Txs(m: NonceMap): set<Tx> {
    set n | n in m :: m[n]
  }

  lemma InTxs(m: NonceMap)
    requires Keyed(m)
    ensures forall t :: t in Txs(m) <==> t.nonce in m && m[t.nonce] == t
  {
  }

  lemma TxsOf(m: NonceMap)
    requires Keyed(m)
    ensures OnePerNonce(Txs(m)) && |Txs(m)| == |m|
    ensures forall t :: t in Txs(m) <==> t.nonce in m && m[t.nonce] == t
    ensures forall n :: n in m <==> Occupied(Txs(m), n)
  {
    assert forall n :: n in m ==> m[n] in Txs(m);
    TxsSize(m);
  }

  lemma PutTxs(m: NonceMap, tx: Tx)
    requires Keyed(m)
    ensures Txs(m[tx.nonce := tx]) == Placed(Txs(m), tx)
  {
    InTxs(m);
    InTxs(m[tx.nonce := tx]);
  }

  lemma RemoveTxs(m: NonceMap, n: nat)
    requires Keyed(m) && n in m
    ensures m[n] in Txs(m) && Txs(m - {n}) == Txs(m) - {m[n]}
  {
    InTxs(m);
    InTxs(m - {n});
  }

  lemma {:induction false} TxsSize(m: NonceMap)
    requires Keyed(m)
    ensures |Txs(m)| == |m|
  {
    if m != map[] {
      var n :| n in m;
      var rest := m - {n};
      assert rest.Keys == m.Keys - {n};
      TxsSize(rest);
      assert Txs(m) == Txs(rest) + {m[n]};
      assert m[n] !in Txs(rest);
    }
  }

  /** The heap is a permutation of the stored nonces; a present cache is the sorted contents. */
  ghost predicate Coherent(items: NonceMap, index: seq<nat>, cache: Option<seq<Tx>>) {
    && Keyed(items)
    && IsHeap(index, NonceRank)
    && multiset(index) == multiset(items.Keys)
    && (cache.Some? ==> Enumerates(cache.value, Txs(items)) && Ascending(cache.value))
  }

  // ---- the heap of nonces ----

  lemma HeapRoot(index: seq<nat>, m: NonceMap)
    requires IsHeap(index, NonceRank) && multiset(index) == multiset(m.Keys)
    ensures |index| == |m|
    ensures |index| > 0 ==> index[0] in m
    ensures forall n :: n in m ==> |index| > 0 && index[0] <= n
  {
    assert |multiset(index)| == |multiset(m.Keys)|;
    if |index| > 0 {
      RootIsLeastOfAll(index, NonceRank);
      assert index[0] in multiset(index);
      forall n | n in m
        ensures index[0] <= n
      {
        assert n in multiset(index);
        assert n in index;
      }
    }
  }

  lemma BagWithout(keys: set<nat>, n: nat, s: seq<nat>, r: seq<nat>)
    requires n in keys && multiset(s) == multiset(keys) && multiset(s) == multiset(r) + multiset{n}
    ensures multiset(r) == multiset(keys - {n})
  {
    assert multiset(keys) == multiset(keys - {n}) + multiset{n};
    assert multiset(r) == multiset(s) - multiset{n};
  }

  lemma BagWith(keys: set<nat>, n: nat)
    ensures multiset(keys + {n}) == if n in keys then multiset(keys) else multiset(keys) + multiset{n}
  {
    if n in keys {
      assert keys + {n} == keys;
    }
  }

  lemma PutCoherent(m: NonceMap, tx: Tx, before: seq<nat>, after: seq<nat>)
    requires Keyed(m) && multiset(before) == multiset(m.Keys) && IsHeap(after, NonceRank)
    requires multiset(after) == if tx.nonce in m then multiset(before) else multiset(before) + multiset{tx.nonce}
    ensures Coherent(m[tx.nonce := tx], after, None)
    ensures Txs(m[tx.nonce := tx]) == Placed(Txs(m), tx)
  {
    assert m[tx.nonce := tx].Keys == m.Keys + {tx.nonce};
    BagWith(m.Keys, tx.nonce);
    PutTxs(m, tx);
  }

  lemma RemoveCoherent(m: NonceMap, n: nat, before: seq<nat>, after: seq<nat>)
    requires Keyed(m) && n in m && multiset(before) == multiset(m.Keys)
    requires IsHeap(after, NonceRank) && multiset(before) == multiset(after) + multiset{n}
    ensures Coherent(m - {n}, after, None)
    ensures m[n] in Txs(m) && Txs(m - {n}) == Txs(m) - {m[n]}
  {
    BagWithout(m.Keys, n, before, after);
    assert (m - {n}).Keys == m.Keys - {n};
    RemoveTxs(m, n);
  }

  // ---- taking transactions off the front ----

  /** `taken` and `rest` partition `c`, and everything taken is below everything that rests. */
  ghost predicate SplitAt(c: set<Tx>, taken: seq<Tx>, rest: set<Tx>) {
    && rest <= c
    && Enumerates(taken, c - rest)
    && Ascending(taken)
    && (forall tx, t :: tx in taken && t in rest ==> tx.nonce < t.nonce)
  }

  lemma SplitExtend(c: set<Tx>, taken: seq<Tx>, rest: set<Tx>, tx: Tx)
    requires SplitAt(c, taken, rest) && OnePerNonce(c)
    requires tx in rest && forall t :: t in rest ==> tx.nonce <= t.nonce
    ensures SplitAt(c, taken + [tx], rest - {tx})
  {
    EnumerateOneMore(taken, c - rest, tx);
    Alone(c, tx);
    assert c - (rest - {tx}) == (c - rest) + {tx};
    assert forall i :: 0 <= i < |taken| ==> taken[i] in taken;
  }

  lemma SplitIsCut(c: set<Tx>, taken: seq<Tx>, rest: set<Tx>, n: nat)
    requires SplitAt(c, taken, rest)
    requires forall tx :: tx in taken ==> tx.nonce < n
    requires forall t :: t in rest ==> t.nonce >= n
    ensures rest == AtLeast(c, n) && Enumerates(taken, Below(c, n))
  {
    assert c - rest == Below(c, n);
  }

  lemma CutPosition(s: seq<Tx>, c: set<Tx>, n: nat)
    requires Enumerates(s, c) && Ascending(s)
    ensures |Below(c, n)| <= |s|
    ensures Enumerates(s[|Below(c, n)|..], AtLeast(c, n)) && Ascending(s[|Below(c, n)|..])
  {
    var k := 0;
    while k < |s| && s[k].nonce < n
      invariant 0 <= k <= |s| && forall i :: 0 <= i < k ==> s[i].nonce < n
    {
      k := k + 1;
    }
    PrefixIsBelow(s, c, k, n);
  }

  /** `run` was taken off the front of `c` and its nonces are consecutive. */
  ghost predicate RunTaken(c: set<Tx>, run: seq<Tx>, rest: set<Tx>) {
    && OnePerNonce(c) && c != {}
    && SplitAt(c, run, rest)
    && (forall i :: 0 <= i < |run| ==> run[i].nonce == First(c) + i)
    && (forall t :: t in rest ==> t.nonce >= First(c) + |run|)
  }

  lemma RunExtend(c: set<Tx>, run: seq<Tx>, rest: set<Tx>, tx: Tx)
    requires RunTaken(c, run, rest) && tx in rest && tx.nonce == First(c) + |run|
    ensures RunTaken(c, run + [tx], rest - {tx})
  {
    SplitExtend(c, run, rest, tx);
  }

  lemma RunIsReady(c: set<Tx>, run: seq<Tx>, rest: set<Tx>, start: nat)
    requires RunTaken(c, run, rest) && First(c) <= start
    requires forall t :: t in rest ==> t.nonce != First(c) + |run|
    ensures rest == c - Ready(c, start) && Enumerates(run, Ready(c, start))
  {
    var first, stop := First(c), First(c) + |run|;
    assert forall t :: t in c && t.nonce < stop <==> t in run;
    forall n: nat | first <= n < stop
      ensures Occupied(c, n)
    {
      assert run[n - first] in run;
    }
    forall t | t in c
      ensures Unbroken(c, first, t.nonce) <==> t.nonce < stop
    {
      if t.nonce >= stop {
        assert !Occupied(c, stop);
      }
    }
    assert c - rest == Ready(c, start);
  }

  // ---- filtering ----

  ghost function Outside(c: set<Tx>, nonces: set<nat>): set<Tx> {
    set t | t in c && t.nonce !in nonces
  }

  ghost function Dropped(c: set<Tx>, drop: Tx -> bool): set<Tx> {
    set t | t in c && drop(t)
  }

  /** All nonces outside `todo` have been decided. */
  ghost predicate Filtered(m: NonceMap, drop: Tx -> bool, todo: set<nat>, kept: NonceMap, removed: seq<Tx>) {
    && Keyed(m) && todo <= kept.Keys <= m.Keys
    && (forall n :: n in kept ==> kept[n] == m[n])
    && (forall n :: n in m && n !in todo ==> (n in kept <==> !drop(m[n])))
    && Enumerates(removed, Txs(m) - Txs(kept))
  }

  lemma FilterOne(m: NonceMap, drop: Tx -> bool, todo: set<nat>, kept: NonceMap, removed: seq<Tx>, n: nat)
    requires Filtered(m, drop, todo, kept, removed) && n in todo
    ensures drop(m[n]) ==> Filtered(m, drop, todo - {n}, kept - {n}, removed + [m[n]])
    ensures !drop(m[n]) ==> Filtered(m, drop, todo - {n}, kept, removed)
  {
    if drop(m[n]) {
      RemoveTxs(m, n);
      RemoveTxs(kept, n);
      EnumerateOneMore(removed, Txs(m) - Txs(kept), m[n]);
      assert Txs(m) - Txs(kept - {n}) == (Txs(m) - Txs(kept)) + {m[n]};
    }
  }

  lemma FilterDone(m: NonceMap, drop: Tx -> bool, kept: NonceMap, removed: seq<Tx>)
    requires Filtered(m, drop, {}, kept, removed)
    ensures Txs(kept) == Txs(m) - Dropped(Txs(m), drop) && Enumerates(removed, Dropped(Txs(m), drop))
    ensures Keyed(kept) && (removed == [] ==> kept == m)
  {
    InTxs(m);
    InTxs(kept);
    assert Txs(m) - Txs(kept) == Dropped(Txs(m), drop);
    if removed == [] {
      forall n | n in m
        ensures n in kept
      {
        assert m[n] in Txs(m);
        assert m[n] !in removed;
      }
    }
  }

  // ---- keeping the lowest nonces ----

  /** The transactions under an ascending list of all nonces. */
  lemma Listed(nonces: seq<nat>, m: NonceMap) returns (s: seq<Tx>)
    requires SortedBy(nonces, NonceRank) && multiset(nonces) == multiset(m.Keys) && Keyed(m)
    ensures |s| == |nonces| && forall i :: 0 <= i < |s| ==> nonces[i] in m && s[i] == m[nonces[i]]
    ensures Enumerates(s, Txs(m)) && Ascending(s)
  {
    assert forall i :: 0 <= i < |nonces| ==> nonces[i] in multiset(nonces);
    s := seq(|nonces|, i requires 0 <= i < |nonces| => m[nonces[i]]);
    ListedAscends(nonces, m, s);
    ListedAll(nonces, m, s);
  }

  lemma ListedAscends(nonces: seq<nat>, m: NonceMap, s: seq<Tx>)
    requires SortedBy(nonces, NonceRank) && multiset(nonces) == multiset(m.Keys) && Keyed(m)
    requires |s| == |nonces| && forall i :: 0 <= i < |s| ==> nonces[i] in m && s[i] == m[nonces[i]]
    ensures Ascending(s)
  {
    forall i, j | 0 <= i < j < |s|
      ensures s[i].nonce < s[j].nonce
    {
      assert InOrder(nonces, NonceRank, i, j);
      Distinct(nonces, m.Keys, i, j);
    }
  }

  lemma ListedAll(nonces: seq<nat>, m: NonceMap, s: seq<Tx>)
    requires multiset(nonces) == multiset(m.Keys) && Keyed(m) && Ascending(s)
    requires |s| == |nonces| && forall i :: 0 <= i < |s| ==> nonces[i] in m && s[i] == m[nonces[i]]
    ensures Enumerates(s, Txs(m))
  {
    TxsOf(m);
    forall t | t in Txs(m)
      ensures t in s
    {
      assert t.nonce in multiset(nonces);
      var i :| 0 <= i < |nonces| && nonces[i] == t.nonce;
      assert s[i] == t;
    }
    assert forall i :: 0 <= i < |s| ==> s[i] in Txs(m);
  }

  lemma Distinct(s: seq<nat>, keys: set<nat>, i: nat, j: nat)
    requires multiset(s) == multiset(keys) && i < j < |s|
    ensures s[i] != s[j]
  {
    assert multiset(s)[s[i]] <= 1;
    if s[i] == s[j] {
      Repeated(s, i, j);
    }
  }

  lemma {:induction false} DistinctBag(s: seq<nat>, keys: set<nat>)
    requires forall i, j :: 0 <= i < j < |s| ==> s[i] != s[j]
    requires forall n :: n in s <==> n in keys
    ensures multiset(s) == multiset(keys)
  {
    if s == [] {
      assert keys == {};
    } else {
      var last := s[|s| - 1];
      var init := s[..|s| - 1];
      assert s == init + [last];
      assert forall n :: n in s <==> n in init || n == last;
      DistinctBag(init, keys - {last});
      assert keys == (keys - {last}) + {last};
    }
  }

  lemma PrefixBag(nonces: seq<nat>, listed: seq<Tx>, m: NonceMap, k: nat)
    requires |nonces| == |listed| >= k && forall i :: 0 <= i < |nonces| ==> nonces[i] == listed[i].nonce
    requires Ascending(listed) && Enumerates(listed[..k], Txs(m)) && Keyed(m)
    ensures multiset(nonces[..k]) == multiset(m.Keys)
  {
    forall n
      ensures n in nonces[..k] <==> n in m.Keys
    {
      KeyListed(nonces[..k], listed[..k], m, n);
    }
    DistinctBag(nonces[..k], m.Keys);
  }

  lemma KeyListed(nonces: seq<nat>, listed: seq<Tx>, m: NonceMap, n: nat)
    requires |nonces| == |listed| && (forall i :: 0 <= i < |nonces| ==> nonces[i] == listed[i].nonce)
    requires Enumerates(listed, Txs(m)) && Keyed(m)
    ensures n in nonces <==> n in m.Keys
  {
    TxsOf(m);
    if n in nonces {
      var i :| 0 <= i < |nonces| && nonces[i] == n;
      assert listed[i] in listed;
    }
    if n in m {
      assert m[n] in Txs(m);
      var i :| 0 <= i < |listed| && listed[i] == m[n];
      assert nonces[i] == n;
    }
  }

  lemma SuffixIsRest(s: seq<Tx>, c: set<Tx>, k: nat, drops: seq<Tx>, rest: set<Tx>)
    requires Enumerates(s, c) && Ascending(s) && k <= |s| && Enumerates(s[..k], rest)
    requires |drops| == |s| - k && forall i :: 0 <= i < |drops| ==> drops[i] == s[|s| - 1 - i]
    ensures Enumerates(drops, c - rest) && Descending(drops)
  {
    assert s == s[..k] + s[k..];
    forall t
      ensures t in drops <==> t in c - rest
    {
      assert t in s <==> t in c;
      assert t in s[k..] ==> t !in s[..k];
      if t in s[k..] {
        var i :| k <= i < |s| && s[i] == t;
        assert drops[|s| - 1 - i] == t;
      }
    }
  }

  lemma DropTop(listed: seq<Tx>, size: nat, kept: NonceMap)
    requires 0 < size <= |listed| && Keyed(kept) && Enumerates(listed[..size], Txs(kept))
    ensures listed[size - 1].nonce in kept && kept[listed[size - 1].nonce] == listed[size - 1]
    ensures Enumerates(listed[..size - 1], Txs(kept - {listed[size - 1].nonce}))
  {
    DropLast(listed[..size], Txs(kept));
    assert listed[..size][..size - 1] == listed[..size - 1];
    InTxs(kept);
    RemoveTxs(kept, listed[size - 1].nonce);
  }

  lemma SortedEnumeration(s: seq<Tx>, sorted: seq<Tx>, c: set<Tx>)
    requires Enumerates(s, c) && OnePerNonce(c) && SortedBy(sorted, TxRank) && multiset(sorted) == multiset(s)
    ensures Enumerates(sorted, c) && Ascending(sorted)
  {
    forall t
      ensures t in sorted <==> t in s
    {
      assert t in multiset(sorted) <==> t in multiset(s);
    }
    forall i, j | 0 <= i < j < |sorted|
      ensures sorted[i].nonce < sorted[j].nonce
    {
      assert InOrder(sorted, TxRank, i, j);
      assert sorted[i] in sorted && sorted[j] in sorted;
      Alone(c, sorted[i]);
      Once(s, sorted[i]);
      if sorted[i] == sorted[j] {
        Repeated(sorted, i, j);
      }
    }
  }

  lemma {:induction false} Once(s: seq<Tx>, tx: Tx)
    requires forall i, j :: 0 <= i < j < |s| ==> s[i] != s[j]
    ensures multiset(s)[tx] <= 1
  {
    if s != [] {
      Once(s[1..], tx);
      assert s == [s[0]] + s[1..];
      if s[0] == tx {
        assert tx !in s[1..];
      }
    }
  }

  lemma CapCoherent(m: NonceMap, sorted: seq<nat>, listed: seq<Tx>, k: nat, kept: NonceMap, index: seq<nat>,
                    cache: Option<seq<Tx>>)
    requires Enumerates(listed, Txs(m)) && Ascending(listed) && Keyed(m) && k <= |listed| == |sorted|
    requires forall i :: 0 <= i < |sorted| ==> sorted[i] == listed[i].nonce
    requires Keyed(kept) && Txs(kept) == Lowest(Txs(m), k)
    requires IsHeap(index, NonceRank) && multiset(index) == multiset(sorted[..k])
    requires cache.Some? ==> Enumerates(cache.value, Txs(m)) && Ascending(cache.value)
    ensures cache.Some? ==> |cache.value| == |sorted|
    ensures Coherent(kept, index, if cache.Some? then Some(cache.value[..k]) else None)
  {
    PrefixIsLowest(listed, Txs(m), k);
    PrefixBag(sorted, listed, kept, k);
    if cache.Some? {
      AscendingIsUnique(cache.value, listed, Txs(m));
    }
  }

  class TxSortedMap {
    var items: NonceMap
    var index: seq<nat>
    var cache: Option<seq<Tx>>

    ghost predicate Valid()
      reads this
    {
      Coherent(items, index, cache)
    }

    /** The transactions in the map. */
    ghost function Contents(): set<Tx>
      reads this
    {
      Txs(items)
    }

    constructor ()
      ensures Valid() && Contents() == {}
    {
      items, index, cache := map[], [], None;
    }

    method Get(nonce: nat) returns (r: Option<Tx>)
      requires Valid()
      ensures r.Some? <==> Occupied(Contents(), nonce)
      ensures r.Some? ==> r.value in Contents() && r.value.nonce == nonce
      ensures OnePerNonce(Contents())
    {
      TxsOf(items);
      r := if nonce in items then Some(items[nonce]) else None;
    }

    method Put(tx: Tx)
      requires Valid()
      modifies this
      ensures Valid() && Contents() == Placed(old(Contents()), tx)
    {
      if tx.nonce !in items {
        index := Push(index, NonceRank, tx.nonce);
      }
      PutCoherent(items, tx, old(index), index);
      items, cache := items[tx.nonce := tx], None;
    }

    /** Removes the root of the heap and the transaction stored under it. */
    method PopFirst() returns (tx: Tx)
      requires Valid() && |index| > 0 && cache == None
      modifies this
      ensures Valid() && cache == None && |index| < |old(index)|
      ensures tx in old(Contents()) && tx.nonce == old(index[0]) && forall t ::
                t in old(Contents()) ==> tx.nonce <= t.nonce
      ensures Contents() == old(Contents()) - {tx}
    {
      HeapRoot(index, items);
      TxsOf(items);
      var nonce;
      nonce, index := Pop(index, NonceRank);
      RemoveCoherent(items, nonce, old(index), index);
      tx := items[nonce];
      items := items - {nonce};
    }

    /** The first nonce of the heap, against the contents. */
    lemma Root()
      requires Valid()
      ensures |index| == 0 <==> Contents() == {}
      ensures OnePerNonce(Contents()) && |Contents()| == |items|
      ensures |index| > 0 ==> index[0] == First(Contents())
    {
      HeapRoot(index, items);
      TxsOf(items);
      if |index| > 0 {
        assert items[index[0]] in Contents();
        var t :| t in Contents() && t.nonce == First(Contents());
        assert t.nonce in items;
      }
    }

    method Forward(threshold: nat) returns (removed: seq<Tx>)
      requires Valid()
      modifies this
      ensures Valid() && Contents() == AtLeast(old(Contents()), threshold)
      ensures Enumerates(removed, Below(old(Contents()), threshold)) && Ascending(removed)
      ensures cache.Some? <==> old(cache.Some?)
    {
      ghost var was := Contents();
      Root();
      var saved := cache;
      cache := None;
      removed := [];
      while |index| > 0 && index[0] < threshold
        invariant Valid() && cache == None
        invariant SplitAt(was, removed, Contents())
        invariant forall tx :: tx in removed ==> tx.nonce < threshold
        decreases |index|
      {
        ghost var before := Contents();
        var tx := PopFirst();
        SplitExtend(was, removed, before, tx);
        removed := removed + [tx];
      }
      Root();
      SplitIsCut(was, removed, Contents(), threshold);
      if saved.Some? {
        CutPosition(saved.value, was, threshold);
        EnumerationLength(removed, Below(was, threshold));
        cache := Some(saved.value[|removed|..]);
      }
    }

    /** Removes what the predicate selects; Go's map iteration returns it in no particular order. */
    method Filter(drop: Tx -> bool) returns (removed: seq<Tx>)
      requires Valid()
      modifies this
      ensures Valid() && Contents() == old(Contents()) - Dropped(old(Contents()), drop)
      ensures Enumerates(removed, Dropped(old(Contents()), drop))
      ensures cache.Some? <==> old(cache.Some?) && removed == []
    {
      removed := [];
      var todo := items.Keys;
      while todo != {}
        invariant Filtered(old(items), drop, todo, items, removed)
        invariant index == old(index) && cache == old(cache)
        decreases todo
      {
        var nonce :| nonce in todo;
        FilterOne(old(items), drop, todo, items, removed, nonce);
        todo := todo - {nonce};
        if drop(items[nonce]) {
          removed := removed + [items[nonce]];
          items := items - {nonce};
        }
      }
      FilterDone(old(items), drop, items, removed);
      if |removed| > 0 {
        cache := None;
        index := Reindex(items.Keys);
      }
    }

    static method Reindex(nonces: set<nat>) returns (index: seq<nat>)
      ensures IsHeap(index, NonceRank) && multiset(index) == multiset(nonces)
    {
      index := [];
      var todo := nonces;
      while todo != {}
        invariant todo <= nonces && multiset(index) == multiset(nonces - todo)
        decreases todo
      {
        var nonce :| nonce in todo;
        assert nonces - (todo - {nonce}) == (nonces - todo) + {nonce};
        todo := todo - {nonce};
        index := index + [nonce];
      }
      assert nonces - {} == nonces;
      index := Init(index, NonceRank);
    }

    method Cap(threshold: nat) returns (drops: seq<Tx>)
      requires Valid()
      modifies this
      ensures Valid() && Contents() == Lowest(old(Contents()), threshold)
      ensures Enumerates(drops, old(Contents()) - Contents()) && Descending(drops)
      ensures cache.Some? <==> old(cache.Some?)
    {
      Root();
      if |items| <= threshold {
        LowestWhole(Contents(), threshold);
        return [];
      }
      var sorted := Sort(index, NonceRank);
      HeapRoot(index, items);
      ghost var listed := Listed(sorted, items);
      var heap := Init(sorted[..threshold], NonceRank);
      var kept;
      kept, drops := DropHighest(items, sorted, threshold, listed);
      CapCoherent(items, sorted, listed, threshold, kept, heap, cache);
      items, index := kept, heap;
      if cache.Some? {
        cache := Some(cache.value[..|cache.value| - |drops|]);
      }
    }

    static method DropHighest(items: NonceMap, sorted: seq<nat>, threshold: nat, ghost listed: seq<Tx>)
      returns (kept: NonceMap, drops: seq<Tx>)
      requires Enumerates(listed, Txs(items)) && Ascending(listed) && Keyed(items) && threshold <= |sorted| == |listed|
      requires forall i :: 0 <= i < |sorted| ==> sorted[i] == listed[i].nonce
      ensures Keyed(kept) && Txs(kept) == Lowest(Txs(items), threshold)
      ensures Enumerates(drops, Txs(items) - Txs(kept)) && Descending(drops) && |drops| == |sorted| - threshold
    {
      drops := [];
      kept := items;
      var size := |sorted|;
      assert listed[..size] == listed;
      while size > threshold
        invariant threshold <= size <= |sorted|
        invariant Keyed(kept) && Enumerates(listed[..size], Txs(kept))
        invariant |drops| == |sorted| - size
        invariant forall i :: 0 <= i < |drops| ==> drops[i] == listed[|sorted| - 1 - i]
      {
        DropTop(listed, size, kept);
        var nonce := sorted[size - 1];
        drops := drops + [kept[nonce]];
        kept := kept - {nonce};
        size := size - 1;
      }
      PrefixIsLowest(listed, Txs(items), threshold);
      assert Txs(kept) == Lowest(Txs(items), threshold);
      SuffixIsRest(listed, Txs(items), threshold, drops, Txs(kept));
    }

    method Remove(nonce: nat) returns (found: bool)
      requires Valid()
      modifies this
      ensures Valid() && found == Occupied(old(Contents()), nonce) && OnePerNonce(old(Contents()))
      ensures Contents() == if found then old(Contents()) - {TxAt(old(Contents()), nonce)} else old(Contents())
    {
      TxsOf(items);
      if nonce !in items {
        return false;
      }
      assert nonce in multiset(index);
      var i := 0;
      while index[i] != nonce
        invariant 0 <= i < |index| && nonce !in index[..i] && index == old(index)
        decreases |index| - i
      {
        assert index == index[..i] + [index[i]] + index[i + 1..];
        i := i + 1;
      }
      index := RemoveAt(index, NonceRank, i);
      RemoveCoherent(items, nonce, old(index), index);
      items, cache := items - {nonce}, None;
      return true;
    }

    /** Takes out the gap-free run that starts at the smallest nonce. */
    method TakeReady(start: nat) returns (ready: seq<Tx>)
      requires Valid()
      modifies this
      ensures Valid() && Contents() == old(Contents()) - Ready(old(Contents()), start)
      ensures Enumerates(ready, Ready(old(Contents()), start)) && Ascending(ready)
    {
      ghost var was := Contents();
      Root();
      if |index| == 0 || index[0] > start {
        return [];
      }
      cache := None;
      ready := [];
      var next := index[0];
      while |index| > 0 && index[0] == next
        invariant Valid() && cache == None
        invariant RunTaken(was, ready, Contents()) && next == First(was) + |ready|
        decreases |index|
      {
        ghost var before := Contents();
        var tx := PopFirst();
        RunExtend(was, ready, before, tx);
        ready := ready + [tx];
        next := next + 1;
      }
      Root();
      RunIsReady(was, ready, Contents(), start);
    }

    method Len() returns (n: nat)
      requires Valid()
      ensures n == |Contents()|
    {
      TxsOf(items);
      n := |items|;
    }

    method Flatten() returns (txs: seq<Tx>)
      requires Valid()
      modifies this
      ensures Valid() && Contents() == old(Contents())
      ensures Enumerates(txs, Contents()) && Ascending(txs)
      ensures cache == Some(txs)
    {
      TxsOf(items);
      if cache == None {
        var collected := [];
        var todo := items.Keys;
        while todo != {}
          invariant todo <= items.Keys && items == old(items) && index == old(index)
          invariant Enumerates(collected, Outside(Contents(), todo))
          decreases todo
        {
          var nonce :| nonce in todo;
          EnumerateOneMore(collected, Outside(Contents(), todo), items[nonce]);
          assert Outside(Contents(), todo - {nonce}) == Outside(Contents(), todo) + {items[nonce]};
          todo := todo - {nonce};
          collected := collected + [items[nonce]];
        }
        assert Outside(Contents(), {}) == Contents();
        var sorted := Sort(collected, TxRank);
        SortedEnumeration(collected, sorted, Contents());
        cache := Some(sorted);
      }
      txs := cache.value;
    }
  }
}
