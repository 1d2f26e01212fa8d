/** core.HeaderChain: header store, total difficulties, number index and head, with the caches in front. */
module HeaderChain {
  import opened Basics
  import opened Headers

  /** number - 1 in 64 bits. */
  function Prev(number: nat): nat { if number == 0 then MAX_UINT64 else number - 1 }

  datatype Tds = Tds(at: map<Hash, nat>)

  /** Every stored header has its total difficulty recorded: the sum along its path. */
  ghost predicate Weighed(t: Tree, tds: Tds) {
    Rooted(t) && forall key {:trigger OpenTds(key)} :: OpenTds(key) ==>
      forall h :: (t.Has(h) <==> h in tds.at) && (t.Has(h) ==> tds.at[h] == Weight(t, h))
  }

  /** No stored header outweighs `head`. */
  ghost predicate Heaviest(t: Tree, tds: Tds, head: Hash) {
    Weighed(t, tds) && t.Has(head) && head in tds.at && forall key {:trigger OpenTds(key)} :: OpenTds(key) ==>
      forall h :: t.Has(h) ==> h in tds.at && tds.at[h] <= tds.at[head]
  }

  // Fold keys, as in Headers.
  predicate OpenTds(key: int) { true }

  predicate OpenCache(key: int) { true }

  lemma UnfoldAll()
    ensures OpenTree(0) && OpenPath(0) && OpenTds(0) && OpenCache(0)
  {
  }

  lemma TdOf(t: Tree, tds: Tds, h: Hash)
    requires Weighed(t, tds)
    ensures (t.Has(h) <==> h in tds.at) && (t.Has(h) ==> tds.at[h] == Weight(t, h))
  {
    UnfoldAll();
  }

  datatype Cache<T> = Cache(at: map<Hash, T>)

  /** A cache holds only what the database holds. */
  ghost predicate Mirrors<T>(cache: Cache<T>, records: map<Hash, T>) {
    forall key {:trigger OpenCache(key)} :: OpenCache(key) ==>
      forall h :: h in cache.at ==> h in records && cache.at[h] == records[h]
  }

  lemma Cached<T>(cache: Cache<T>, records: map<Hash, T>, h: Hash)
    requires Mirrors(cache, records) && h in cache.at
    ensures h in records && cache.at[h] == records[h]
  {
    UnfoldAll();
  }

  lemma CacheAdd<T>(cache: Cache<T>, records: map<Hash, T>, h: Hash, v: T)
    requires Mirrors(cache, records)
    ensures h in records && records[h] == v ==> Mirrors(Cache(cache.at[h := v]), records)
    ensures (h in records ==> records[h] == v) ==>
              Mirrors(Cache(cache.at[h := v]), records[h := v]) && Mirrors(cache, records[h := v])
  {
    UnfoldAll();
  }

  lemma CacheDrop<T>(cache: Cache<T>, records: map<Hash, T>, drop: set<Hash>)
    requires Mirrors(cache, records)
    ensures Mirrors(Cache(cache.at - drop), records)
  {
    UnfoldAll();
  }

  lemma WeighMore(t: Tree, tds: Tds, header: Header, td: nat)
    requires Weighed(t, tds) && Linked(t, header) && header.hash != NO_HASH &&
             (t.Has(header.hash) ==> t.Get(header.hash) == header)
    requires header.parent in tds.at && td == tds.at[header.parent] + header.difficulty
    ensures Weighed(t.With(header), Tds(tds.at[header.hash := td]))
    ensures t.Has(header.hash) ==> header.hash in tds.at && td == tds.at[header.hash]
  {
    UnfoldAll();
    WithRooted(t, header);
    var t' := t.With(header);
    forall h | t'.Has(h)
      ensures Tds(tds.at[header.hash := td]).at[h] == Weight(t', h)
    {
      WithWeight(t, header, header.parent);
      if h != header.hash {
        WithWeight(t, header, h);
      }
    }
    if t.Has(header.hash) {
      WithWeight(t, header, header.hash);
    }
  }

  lemma HeaviestStays(t: Tree, tds: Tds, header: Header, td: nat, head: Hash)
    requires Heaviest(t, tds, head) && Linked(t, header) && header.hash != NO_HASH &&
             (t.Has(header.hash) ==> t.Get(header.hash) == header)
    requires header.parent in tds.at && td == tds.at[header.parent] + header.difficulty
    ensures td <= tds.at[head] ==> Heaviest(t.With(header), Tds(tds.at[header.hash := td]), head)
    ensures td >= tds.at[head] ==> Heaviest(t.With(header), Tds(tds.at[header.hash := td]), header.hash)
  {
    UnfoldAll();
    WeighMore(t, tds, header, td);
  }

  lemma PathStays(t: Tree, index: Index, head: Hash, header: Header)
    requires Rooted(t) && IsPath(t, index, head) && Rooted(t.With(header)) &&
             (t.Has(header.hash) ==> t.Get(header.hash) == header)
    ensures IsPath(t.With(header), index, head)
  {
    UnfoldAll();
    forall n: nat | n <= t.Number(head)
      ensures At(t.With(header), head, n) == At(t, head, n)
    {
      WithAt(t, header, head, n);
    }
  }

  /** An index is the path of one header only. */
  lemma OneTop(t: Tree, index: Index, x: Hash, y: Hash)
    requires Rooted(t) && IsPath(t, index, x) && IsPath(t, index, y)
    ensures x == y
  {
    ReadPath(t, index, x, t.Number(x));
    ReadPath(t, index, y, t.Number(x));
    ReadPath(t, index, x, t.Number(y));
    ReadPath(t, index, y, t.Number(y));
  }

  /** Pending changes to the index. */
  datatype Batch = Batch(deleted: set<nat>, written: map<nat, Hash>)

  function Applied(index: Index, batch: Batch): Index {
    Index((index.at - batch.deleted) + batch.written)
  }

  /** The index after re-routing to `header`: cleared above it, rewritten down to where it met the old path. */
  lemma Rerouted(t: Tree, index: Index, head: Hash, header: Header, batch: Batch, meet: nat)
    requires Rooted(t) && IsPath(t, index, head) && t.Has(header.hash) && t.Get(header.hash) == header &&
             Linked(t, header)
    requires meet < header.number && index.Read(meet) == At(t, header.parent, meet)
    requires batch.deleted == set n | n in index.at && n > header.number
    requires forall n :: n in batch.written <==> meet < n <= header.number
    requires forall n :: meet < n <= header.number ==> batch.written[n] == At(t, header.hash, n)
    ensures IsPath(t, Applied(index, batch), header.hash)
  {
    UnfoldAll();
    var index' := Applied(index, batch);
    forall n: nat
      ensures n in index'.at <==> n <= header.number
      ensures n in index'.at ==> index'.at[n] == At(t, header.hash, n)
    {
      if n <= meet {
        AgreesBelow(t, index, head, header.parent, meet, n);
      }
    }
  }

  /** What verification promises of a header: its hash names one header, and if its parent is stored it has the
      next number. */
  ghost predicate Fits(t: Tree, header: Header) {
    && header.hash != NO_HASH && (t.Has(header.hash) ==> t.Get(header.hash) == header)
    && (t.Has(header.parent) ==> header.number == t.Number(header.parent) + 1)
  }

  /** The same within a slice. */
  ghost predicate Agree(x: Header, y: Header) {
    (x.hash == y.hash ==> x == y) && (x.parent == y.hash ==> x.number == y.number + 1)
  }

  /** Verified headers, in any order and with repetitions. */
  ghost predicate Verified(t: Tree, chain: seq<Header>) {
    && (forall i :: 0 <= i < |chain| ==> Fits(t, chain[i]))
    && (forall i, j :: 0 <= i < |chain| && 0 <= j < |chain| ==> Agree(chain[i], chain[j]))
  }

  lemma StillVerified(t: Tree, chain: seq<Header>, k: nat)
    requires Verified(t, chain) && k < |chain|
    ensures Verified(t.With(chain[k]), chain)
  {
    forall i | 0 <= i < |chain|
      ensures Fits(t.With(chain[k]), chain[i])
    {
      assert Fits(t, chain[i]) && Agree(chain[i], chain[k]);
    }
  }

  /** The tree with all headers of a slice. */
  ghost function WithAll(t: Tree, chain: seq<Header>): Tree {
    if chain == [] then t else WithAll(t, chain[..|chain| - 1]).With(chain[|chain| - 1])
  }

  datatype Insertion = Imported | Aborted | UnknownParent | Crashed

  datatype WriteStatus = Canon | Side | UnknownAncestor

  class HeaderChain {
    var tree: Tree
    var tds: Tds
    var index: Index
    var currentHash: Hash
    var currentHeader: Header
    var headerCache: Cache<Header>
    var tdCache: Cache<nat>

    /** The index is exactly the head's path, every td is its path's sum, and the caches mirror the database. */
    ghost predicate Consistent()
      reads this
    {
      && Weighed(tree, tds) && IsPath(tree, index, currentHash) && currentHeader == tree.Get(currentHash)
      && Mirrors(headerCache, tree.at) && Mirrors(tdCache, tds.at)
    }

    /** And nothing stored outweighs the head. */
    ghost predicate Valid()
      reads this
    {
      Consistent() && Heaviest(tree, tds, currentHash)
    }

    constructor (genesis: Header)
      requires genesis.number == 0 && genesis.parent == NO_HASH && genesis.hash != NO_HASH
      ensures Valid() && tree == Tree(map[genesis.hash := genesis], genesis) && currentHash == genesis.hash
    {
      tree := Tree(map[genesis.hash := genesis], genesis);
      tds := Tds(map[genesis.hash := genesis.difficulty]);
      index := Index(map[0 := genesis.hash]);
      currentHash, currentHeader := genesis.hash, genesis;
      headerCache, tdCache := Cache(map[]), Cache(map[]);
    }

    /** Resumes from a database whose index is the path of `top`, at the stored head block if that is a known header.
        That marker may lag behind the headers; the index is then not the head's path. */
    constructor Open(tree: Tree, tds: Tds, index: Index, headBlock: Hash, ghost top: Hash)
      requires Weighed(tree, tds) && IsPath(tree, index, top)
      ensures this.tree == tree && this.tds == tds && this.index == index
      ensures currentHash == (if tree.Has(headBlock) then headBlock else tree.genesis.hash) &&
              currentHeader == tree.Get(currentHash)
      ensures Consistent() <==> currentHash == top
    {
      this.tree, this.tds, this.index := tree, tds, index;
      var head := if tree.Has(headBlock) then headBlock else tree.genesis.hash;
      currentHash, currentHeader := head, tree.Get(head);
      headerCache, tdCache := Cache(map[]), Cache(map[]);
      if IsPath(tree, index, head) {
        OneTop(tree, index, head, top);
      }
    }

    /** An LRU cache may drop anything at any time. */
    method Evict(drop: set<Hash>)
      requires Consistent()
      modifies this`headerCache, this`tdCache
      ensures Consistent()
      ensures headerCache.at.Keys == old(headerCache).at.Keys - drop && tdCache.at.Keys == old(tdCache).at.Keys - drop
    {
      CacheDrop(headerCache, tree.at, drop);
      CacheDrop(tdCache, tds.at, drop);
      headerCache, tdCache := Cache(headerCache.at - drop), Cache(tdCache.at - drop);
    }

    /** Answers from the cache whatever the number; from the database only under the right number. */
    method GetTd(hash: Hash, number: nat) returns (td: Option<nat>)
      requires Consistent()
      modifies this`tdCache
      ensures Consistent()
      ensures td.Some? ==> tree.Has(hash) && hash in tds.at && td.value == tds.at[hash]
      ensures tree.Has(hash) && tree.Number(hash) == number ==> td.Some?
      ensures tdCache.at.Keys == old(tdCache).at.Keys + if td.Some? then {hash} else {}
    {
      TdOf(tree, tds, hash);
      if hash in tdCache.at {
        Cached(tdCache, tds.at, hash);
        return Some(tdCache.at[hash]);
      }
      if !(tree.Has(hash) && tree.Number(hash) == number) {
        return None;
      }
      td := Some(tds.at[hash]);
      CacheAdd(tdCache, tds.at, hash, td.value);
      tdCache := Cache(tdCache.at[hash := td.value]);
    }

    method GetHeader(hash: Hash, number: nat) returns (header: Option<Header>)
      requires Mirrors(headerCache, tree.at)
      modifies this`headerCache
      ensures Mirrors(headerCache, tree.at)
      ensures header.Some? ==> tree.Has(hash) && header.value == tree.Get(hash)
      ensures tree.Has(hash) && tree.Number(hash) == number ==> header.Some?
      ensures headerCache.at.Keys == old(headerCache).at.Keys + if header.Some? then {hash} else {}
    {
      if hash in headerCache.at {
        Cached(headerCache, tree.at, hash);
        return Some(headerCache.at[hash]);
      }
      if !(tree.Has(hash) && tree.Number(hash) == number) {
        return None;
      }
      header := Some(tree.Get(hash));
      CacheAdd(headerCache, tree.at, hash, header.value);
      headerCache := Cache(headerCache.at[hash := header.value]);
    }

    /** Collects the index entries above a number, up to the first that is missing. */
    method ClearAbove(number: nat) returns (deleted: set<nat>)
      requires Consistent()
      ensures deleted == set n | n in index.at && n > number
    {
      deleted := {};
      var i := number + 1;
      ghost var top := tree.Number(currentHash);
      ReadPath(tree, index, currentHash, i);
      while index.Read(i) != NO_HASH
        invariant number < i && deleted == (set n | n in index.at && number < n < i)
        invariant index.Read(i) != NO_HASH <==> i <= top
        decreases top + 1 - i
      {
        deleted := deleted + {i};
        i := i + 1;
        ReadPath(tree, index, currentHash, i);
      }
      forall n: nat | n in index.at
        ensures n < i
      {
        ReadPath(tree, index, currentHash, n);
      }
    }

    /** Collects new index entries for a path, from `hash` down to where the index already has it. */
    method Reroute(hash: Hash, number: nat, ghost header: Header) returns (written: map<nat, Hash>, ghost meet: nat)
      requires Consistent() && header.parent == hash && tree.Has(header.hash) && tree.Get(header.hash) == header &&
               Linked(tree, header) && number == header.number - 1
      modifies this`headerCache
      ensures Consistent() && meet <= number && index.Read(meet) == At(tree, header.parent, meet)
      ensures forall n :: n in written <==> meet < n <= number
      ensures forall n :: meet < n <= number ==> written[n] == At(tree, header.parent, n)
    {
      var headHash, headNumber := hash, number;
      var headHeader := GetHeader(headHash, headNumber);
      written := map[];
      while index.Read(headNumber) != headHash
        invariant Consistent() && 0 <= headNumber <= number && headHash == At(tree, header.parent, headNumber)
        invariant headHeader == Some(tree.Get(headHash))
        invariant forall n :: n in written <==> headNumber < n <= number
        invariant forall n :: headNumber < n <= number ==> written[n] == At(tree, header.parent, n)
        decreases headNumber
      {
        GenesisIsCanonical(tree, index, currentHash, headHash);
        Step(tree, headHash);
        AtAt(tree, header.parent, headNumber, headNumber - 1);
        written := written[headNumber := headHash];
        headHash := headHeader.value.parent;
        headNumber := headHeader.value.number - 1;
        headHeader := GetHeader(headHash, headNumber);
      }
      meet := headNumber;
    }

    /** Stores a header whose parent is known, and re-routes the index to it if it outweighs the head.
        The coin decides between equals. Callers pass verified headers: a header with a known parent
        has the next number, and a known hash belongs to one header. */
    method WriteHeader(header: Header, coin: bool) returns (status: WriteStatus)
      requires Consistent() && header.hash != NO_HASH && (tree.Has(header.hash) ==> tree.Get(header.hash) == header)
      requires tree.Has(header.parent) ==> header.number == tree.Number(header.parent) + 1
      modifies this
      ensures Consistent() && (old(Valid()) ==> Valid())
      ensures status == UnknownAncestor <==> !old(tree.Has(header.parent))
      ensures status == UnknownAncestor ==>
                tree == old(tree) && tds == old(tds) && index == old(index) && currentHash == old(currentHash)
      ensures status != UnknownAncestor ==>
                && tree == old(tree.With(header)) && header.hash in tds.at && old(currentHash) in tds.at
                && header.hash in headerCache.at && header.hash in tdCache.at
      ensures status == Canon ==> currentHash == header.hash && tds.at[header.hash] >= tds.at[old(currentHash)]
      ensures status == Side ==>
                currentHash == old(currentHash) && index == old(index) && tds.at[header.hash] <= tds.at[currentHash]
      ensures status != UnknownAncestor && tds.at[header.hash] == tds.at[old(currentHash)] ==>
                (status == Canon <==> coin)
    {
      var ptd := GetTd(header.parent, Prev(header.number));
      if ptd.None? {
        return UnknownAncestor;
      }
      var localTd := GetTd(currentHash, currentHeader.number);
      var externTd := header.difficulty + ptd.value;
      Record(header, externTd);
      if externTd > localTd.value || (externTd == localTd.value && coin) {
        MakeHead(header);
        status := Canon;
      } else {
        status := Side;
      }
      Remember(header, externTd);
    }

    /** Caches a stored header and its weight. */
    method Remember(header: Header, td: nat)
      requires Mirrors(headerCache, tree.at) && Mirrors(tdCache, tds.at)
      requires header.hash in tree.at && tree.at[header.hash] == header && header.hash in tds.at &&
               tds.at[header.hash] == td
      modifies this`headerCache, this`tdCache
      ensures Mirrors(headerCache, tree.at) && Mirrors(tdCache, tds.at)
      ensures header.hash in headerCache.at && header.hash in tdCache.at
    {
      CacheAdd(headerCache, tree.at, header.hash, header);
      CacheAdd(tdCache, tds.at, header.hash, td);
      tdCache, headerCache := Cache(tdCache.at[header.hash := td]), Cache(headerCache.at[header.hash := header]);
    }

    /** Stores a header and its total difficulty. */
    method Record(header: Header, td: nat)
      requires Consistent() && header.hash != NO_HASH && (tree.Has(header.hash) ==> tree.Get(header.hash) == header)
      requires Linked(tree, header) && header.parent in tds.at && td == tds.at[header.parent] + header.difficulty
      modifies this`tree, this`tds
      ensures Consistent() && tree == old(tree).With(header) && tds == Tds(old(tds).at[header.hash := td])
      ensures currentHash in old(tds).at && currentHash in tds.at && tds.at[currentHash] == old(tds).at[currentHash]
      ensures old(Valid()) && td <= old(tds).at[currentHash] ==> Heaviest(tree, tds, currentHash)
      ensures old(Valid()) && td >= old(tds).at[currentHash] ==> Heaviest(tree, tds, header.hash)
    {
      TdOf(tree, tds, currentHash);
      TdOf(tree, tds, header.hash);
      if old(Valid()) {
        HeaviestStays(tree, tds, header, td, currentHash);
      }
      WeighMore(tree, tds, header, td);
      PathStays(tree, index, currentHash, header);
      CacheAdd(headerCache, tree.at, header.hash, header);
      CacheAdd(tdCache, tds.at, header.hash, td);
      tree, tds := tree.With(header), Tds(tds.at[header.hash := td]);
    }

    /** Writes the index markers for a new head: clears above it, re-routes below it. */
    method MakeHead(header: Header)
      requires Consistent() && tree.Has(header.hash) && tree.Get(header.hash) == header && Linked(tree, header)
      modifies this`index, this`currentHash, this`currentHeader, this`headerCache
      ensures Consistent() && currentHash == header.hash
    {
      var deleted := ClearAbove(header.number);
      var written, meet := Reroute(header.parent, header.number - 1, header);
      var batch := Batch(deleted, written[header.number := header.hash]);
      Rerouted(tree, index, currentHash, header, batch, meet);
      index := Applied(index, batch);
      currentHash, currentHeader := header.hash, header;
    }

    /** Writes headers one by one, skipping known ones that would not become the head. `stops` says at which of them a
        shutdown would be noticed. The report at the end reads the last header, which an empty slice does not have. */
    method InsertHeaderChain(chain: seq<Header>, coins: seq<bool>, stops: seq<bool>)
      returns (written: nat, r: Insertion)
      requires Consistent() && Verified(tree, chain) && |coins| == |stops| == |chain|
      modifies this
      ensures Consistent() && (old(Valid()) ==> Valid())
      ensures written <= |chain| && tree == WithAll(old(tree), chain[..written])
      ensures forall i :: 0 <= i < written ==> !stops[i]
      ensures r == Crashed <==> chain == []
      ensures r == Imported <==> written == |chain| && chain != []
      ensures r == Aborted <==> written < |chain| && stops[written]
      ensures r == UnknownParent ==> written < |chain| && !stops[written] && !tree.Has(chain[written].parent)
      ensures (forall i :: 0 < i < |chain| ==> chain[i].parent == chain[i - 1].hash) && r == UnknownParent ==>
                written == 0
    {
      for i := 0 to |chain|
        invariant Consistent() && (old(Valid()) ==> Valid())
        invariant tree == WithAll(old(tree), chain[..i]) && Verified(tree, chain)
        invariant forall k :: 0 <= k < i ==> !stops[k]
        invariant i > 0 ==> tree.Has(chain[i - 1].hash)
      {
        if stops[i] {
          return i, Aborted;
        }
        assert chain[..i + 1][..i] == chain[..i];
        ghost var t := tree;
        var stored := InsertHeader(chain[i], coins[i]);
        if !stored {
          return i, UnknownParent;
        }
        StillVerified(t, chain, i);
      }
      assert chain[..|chain|] == chain;
      return |chain|, if chain == [] then Crashed else Imported;
    }

    method InsertHeader(header: Header, coin: bool) returns (stored: bool)
      requires Consistent() && Fits(tree, header)
      modifies this
      ensures Consistent() && (old(Valid()) ==> Valid())
      ensures tree == if stored then old(tree).With(header) else old(tree)
      ensures !stored ==> !tree.Has(header.parent)
    {
      var skip := Known(header);
      stored := true;
      if !skip {
        var status := WriteHeader(header, coin);
        stored := status != UnknownAncestor;
      } else {
        assert tree.at[header.hash := header] == tree.at;
      }
    }

    /** Is a header already stored, and no reason to move the head. */
    method Known(header: Header) returns (skip: bool)
      requires Consistent() && Fits(tree, header)
      modifies this`tdCache
      ensures Consistent() && (skip ==> tree.Has(header.hash))
      ensures old(Valid()) ==> (skip <==> tree.Has(header.hash))
    {
      skip := false;
      if tree.Has(header.hash) {
        var externTd := GetTd(header.hash, header.number);
        var localTd := GetTd(currentHash, currentHeader.number);
        UnfoldAll();
        skip := externTd.None? || externTd.value <= localTd.value;
      }
    }

    /** The k-th parent, jumping along the index as soon as the path is canonical. Steps off the
        index cost one unit of the budget each. */
    method GetAncestor(start: Hash, from: nat, generations: nat, maxNonCanonical: nat)
      returns (r: Hash, n: nat, budget: nat)
      requires Consistent() && start != NO_HASH && (tree.Has(start) ==> tree.Number(start) == from)
      modifies this`headerCache
      ensures Consistent()
      ensures generations == 0 ==> r == start && n == from && budget == maxNonCanonical
      ensures generations > 0 ==> (r != NO_HASH <==>
                && tree.Has(start) && generations <= from
                && (generations == 1 || Detour(tree, index, start, generations) <= maxNonCanonical))
      ensures generations > 0 && r != NO_HASH ==>
                && r == Ancestor(tree, start, generations) && n == from - generations
                && budget == maxNonCanonical - if generations == 1 then 0 else Detour(tree, index, start, generations)
      ensures r == NO_HASH ==> n == 0 && budget <= maxNonCanonical
    {
      budget := maxNonCanonical;
      if generations > from {
        return NO_HASH, 0, budget;
      }
      if generations == 1 {
        var header := GetHeader(start, from);
        if header.None? {
          return NO_HASH, 0, budget;
        }
        Step(tree, start);
        assert At(tree, tree.Parent(start), from - 1) == tree.Parent(start);
        return header.value.parent, from - 1, budget;
      }
      r, n, budget := WalkBack(start, from, generations, maxNonCanonical);
    }

    method WalkBack(start: Hash, from: nat, generations: nat, maxNonCanonical: nat)
      returns (r: Hash, n: nat, budget: nat)
      requires Consistent() && start != NO_HASH && (tree.Has(start) ==> tree.Number(start) == from) &&
               generations <= from && generations != 1
      modifies this`headerCache
      ensures Consistent()
      ensures generations == 0 ==> r == start && n == from && budget == maxNonCanonical
      ensures generations > 0 ==>
                (r != NO_HASH <==> tree.Has(start) && Detour(tree, index, start, generations) <= maxNonCanonical)
      ensures generations > 0 && r != NO_HASH ==>
                && r == Ancestor(tree, start, generations) && n == from - generations
                && budget == maxNonCanonical - Detour(tree, index, start, generations)
      ensures r == NO_HASH ==> n == 0 && budget <= maxNonCanonical
    {
      var hash, number, ancestor := start, from, generations;
      budget := maxNonCanonical;
      while ancestor != 0
        invariant Consistent() && hash != NO_HASH && 0 <= ancestor <= number &&
                  number - ancestor == from - generations && budget <= maxNonCanonical
        invariant tree.Has(hash) ==> tree.Number(hash) == number
        invariant tree.Has(start) <==> tree.Has(hash)
        invariant ancestor == generations ==> hash == start && number == from && budget == maxNonCanonical
        invariant ancestor < generations ==> tree.Has(start)
        invariant tree.Has(start) ==>
                    && At(tree, hash, number - ancestor) == Ancestor(tree, start, generations)
                    && maxNonCanonical - Detour(tree, index, start, generations) == budget - Detour(tree, index, hash,
                       ancestor)
        decreases ancestor
      {
        ReadPath(tree, index, currentHash, number);
        if index.Read(number) == hash {
          AgreesBelow(tree, index, currentHash, hash, number, number - ancestor);
          return index.Read(number - ancestor), number - ancestor, budget;
        }
        if budget == 0 {
          return NO_HASH, 0, budget;
        }
        budget := budget - 1;
        var header := GetHeader(hash, number);
        if header.None? {
          return NO_HASH, 0, budget;
        }
        Step(tree, hash);
        ancestor := ancestor - 1;
        hash := header.value.parent;
        number := number - 1;
      }
      return hash, number, budget;
    }

    /** Rewinds to a lower head: the index is cut there, and the headers cut off it are deleted. */
    method SetHead(head: nat)
      requires Consistent()
      modifies this
      ensures index == CutIndex(old(index), head)
      ensures currentHash == old(index.Read(Lesser(head, currentHeader.number))) && tree.Has(currentHash) &&
              currentHeader == tree.Get(currentHash)
      ensures currentHeader.number == Lesser(head, old(currentHeader.number))
      ensures tree == CutTree(old(tree), old(index), head) && tds == CutTds(old(tds), old(index), head)
      ensures forall n: nat :: n in index.at ==> Links(tree, index, n)
      ensures Consistent() <==> CleanCut(old(tree), old(index), head)
      ensures Valid() <==> CleanCut(old(tree), old(index), head) && SidesLighter(tree, tds, index, currentHash)
    {
      ghost var h0 := currentHash;
      var hashes, numbers := Rewind(head);
      ReadPath(tree, index, h0, currentHeader.number);
      CutAt(tree, index, h0, head);
      CutLinks(tree, index, h0, head);
      CutKeeps(tree, index, h0, currentHash, head);
      CutRooted(tree, index, h0, head);
      if CleanCut(tree, index, head) {
        CutWeighed(tree, tds, index, head);
        CutIsPath(tree, index, h0, currentHash, head);
      }
      index := Index(index.at - numbers);
      tree, tds := tree.(at := tree.at - hashes), Tds(tds.at - hashes);
      headerCache, tdCache := Cache(map[]), Cache(map[]);
      if CleanCut(old(tree), old(index), head) {
        HeaviestIs(tree, tds, index, currentHash);
      }
    }

    /** Moves the head markers down and collects what has to be deleted. */
    method Rewind(head: nat) returns (hashes: set<Hash>, numbers: set<nat>)
      requires Consistent()
      modifies this`currentHash, this`currentHeader, this`headerCache
      ensures tree.Has(currentHash) && currentHeader == tree.Get(currentHash)
      ensures currentHeader.number == Lesser(head, old(currentHeader.number)) &&
              currentHash == At(tree, old(currentHash), currentHeader.number)
      ensures numbers == (set n | n in index.at && n > currentHeader.number) &&
              hashes == CutOff(index, currentHeader.number)
    {
      hashes, numbers := {}, {};
      ghost var h0 := currentHash;
      forall n | n in index.at
        ensures n <= currentHeader.number
      {
        ReadPath(tree, index, h0, n);
      }
      while currentHeader.number > head
        invariant Mirrors(headerCache, tree.at) && tree.Has(currentHash) && currentHeader == tree.Get(currentHash)
        invariant Lesser(head, tree.Number(h0)) <= currentHeader.number <= tree.Number(h0)
        invariant currentHash == At(tree, h0, currentHeader.number)
        invariant numbers == (set n | n in index.at && n > currentHeader.number) &&
                  hashes == CutOff(index, currentHeader.number)
        decreases currentHeader.number
      {
        var hash, num := currentHash, currentHeader.number;
        ReadPath(tree, index, h0, num);
        Step(tree, hash);
        AtAt(tree, h0, num, num - 1);
        CutOneMore(index, num);
        var parent := GetHeader(currentHeader.parent, num - 1);
        currentHash := currentHeader.parent;
        currentHeader := if parent.None? then tree.genesis else parent.value;
        hashes, numbers := hashes + {hash}, numbers + {num};
      }
    }
  }

  /** The hashes an index has above a number. */
  function CutOff(index: Index, n: nat): set<Hash> {
    set k | k in index.at && k > n :: index.at[k]
  }

  function CutIndex(index: Index, n: nat): Index {
    Index(map k | k in index.at && k <= n :: index.at[k])
  }

  function CutTree(t: Tree, index: Index, n: nat): Tree {
    t.(at := t.at - CutOff(index, n))
  }

  function CutTds(tds: Tds, index: Index, n: nat): Tds {
    Tds(tds.at - CutOff(index, n))
  }

  /** No header that stays has a parent that goes: no side branch forks off above the cut. */
  ghost predicate CleanCut(t: Tree, index: Index, cut: nat) {
    forall h :: t.Has(h) && h !in CutOff(index, cut) ==> t.Parent(h) !in CutOff(index, cut)
  }

  /** No stored header beside the index outweighs `head`. */
  ghost predicate SidesLighter(t: Tree, tds: Tds, index: Index, head: Hash) {
    forall h :: t.Has(h) && index.Read(t.Number(h)) != h && h in tds.at && head in tds.at ==> tds.at[h] <= tds.at[head]
  }

  /** On its own path nothing outweighs a head, so only side branches have to be looked at. */
  lemma HeaviestIs(t: Tree, tds: Tds, index: Index, head: Hash)
    requires Weighed(t, tds) && IsPath(t, index, head)
    ensures Heaviest(t, tds, head) <==> SidesLighter(t, tds, index, head)
  {
    forall h | t.Has(h) && index.Read(t.Number(h)) == h
      ensures h in tds.at && head in tds.at && tds.at[h] <= tds.at[head]
    {
      ReadPath(t, index, head, t.Number(h));
      Stored(t, h);
      WeightGrows(t, head, t.Number(h));
      TdOf(t, tds, h);
      TdOf(t, tds, head);
    }
    UnfoldAll();
  }

  lemma Stored(t: Tree, h: Hash)
    requires Rooted(t) && t.Has(h)
    ensures h != NO_HASH
  {
  }

  /** How many of the k steps down from `h` are taken before the path is canonical. */
  ghost function Detour(t: Tree, index: Index, h: Hash, k: nat): nat
    requires Rooted(t) && t.Has(h) && k <= t.Number(h)
    decreases k
  {
    Step(t, h);
    if k == 0 || index.Read(t.Number(h)) == h then 0 else 1 + Detour(t, index, t.Parent(h), k - 1)
  }

  lemma CutOneMore(index: Index, n: nat)
    requires n in index.at && n > 0
    ensures CutOff(index, n - 1) == CutOff(index, n) + {index.at[n]}
    ensures (set k | k in index.at && k > n - 1) == (set k | k in index.at && k > n) + {n}
  {
  }

  /** A cut above the head cuts nothing. */
  lemma CutAt(t: Tree, index: Index, head: Hash, cut: nat)
    requires Rooted(t) && IsPath(t, index, head)
    ensures var n := Lesser(cut, t.Number(head));
            && CutOff(index, cut) == CutOff(index, n)
            && CutIndex(index, cut).at == index.at - (set k | k in index.at && k > n)
  {
    UnfoldAll();
  }

  /** A number of the path is what its hash says, so the cut takes no hash that stays. */
  lemma CutKeeps(t: Tree, index: Index, head: Hash, h: Hash, cut: nat)
    requires Rooted(t) && IsPath(t, index, head) && t.Has(h) && t.Number(h) <= cut
    ensures h !in CutOff(index, cut)
    ensures CutTree(t, index, cut).Has(h)
  {
    UnfoldAll();
    forall k | k in index.at && k > cut
      ensures index.at[k] != h
    {
      assert t.Number(index.at[k]) == k;
    }
  }

  lemma CutLinks(t: Tree, index: Index, head: Hash, cut: nat)
    requires Rooted(t) && IsPath(t, index, head)
    ensures forall n: nat :: n in CutIndex(index, cut).at ==> Links(CutTree(t, index, cut), CutIndex(index, cut), n)
  {
    var t', index' := CutTree(t, index, cut), CutIndex(index, cut);
    forall n: nat | n in index'.at
      ensures Links(t', index', n)
    {
      ReadPath(t, index, head, n);
      CutKeeps(t, index, head, index.at[n], cut);
      if n > 0 {
        ReadPath(t, index, head, n - 1);
        AtAt(t, head, n, n - 1);
        Step(t, index.at[n]);
        assert At(t, t.Parent(index.at[n]), n - 1) == t.Parent(index.at[n]);
      }
    }
  }

  /** The index entry at n is stored, and its parent is the entry below. */
  predicate Links(t: Tree, index: Index, n: nat)
    requires n in index.at
  {
    t.Has(index.at[n]) && (n > 0 ==> n - 1 in index.at && index.at[n - 1] == t.Parent(index.at[n]))
  }

  /** What a cut leaves is a tree again exactly when it is clean. */
  lemma CutRooted(t: Tree, index: Index, head: Hash, cut: nat)
    requires Rooted(t) && IsPath(t, index, head)
    ensures Rooted(CutTree(t, index, cut)) <==> CleanCut(t, index, cut)
  {
    var t' := CutTree(t, index, cut);
    CutKeeps(t, index, head, t.genesis.hash, cut);
    forall h | h in CutOff(index, cut)
      ensures t.Has(h)
    {
      var k :| k in index.at && k > cut && index.at[k] == h;
      ReadPath(t, index, head, k);
    }
    Unfold();
    forall h | t'.Has(h)
      ensures t.Has(h) && t'.Get(h) == t.Get(h)
      ensures h == t.genesis.hash || Linked(t', t'.Get(h)) <==> t.Parent(h) !in CutOff(index, cut)
    {
      assert h == t.genesis.hash || Linked(t, t.Get(h));
    }
  }

  /** A kept header keeps its path and its weight. */
  lemma {:induction false} CutAtSame(t: Tree, index: Index, cut: nat, h: Hash, n: nat)
    requires Rooted(t) && Rooted(CutTree(t, index, cut)) && CutTree(t, index, cut).Has(h) && n <= t.Number(h)
    ensures At(CutTree(t, index, cut), h, n) == At(t, h, n)
    decreases t.Number(h)
  {
    Step(t, h);
    Step(CutTree(t, index, cut), h);
    if t.Number(h) > n {
      CutAtSame(t, index, cut, t.Parent(h), n);
    }
  }

  lemma {:induction false} CutWeight(t: Tree, index: Index, cut: nat, h: Hash)
    requires Rooted(t) && Rooted(CutTree(t, index, cut)) && CutTree(t, index, cut).Has(h)
    ensures Weight(CutTree(t, index, cut), h) == Weight(t, h)
    decreases t.Number(h)
  {
    Step(t, h);
    Step(CutTree(t, index, cut), h);
    if h != t.genesis.hash {
      CutWeight(t, index, cut, t.Parent(h));
    }
  }

  lemma CutIsPath(t: Tree, index: Index, head: Hash, h: Hash, cut: nat)
    requires Rooted(t) && IsPath(t, index, head) && t.Has(h) && Rooted(CutTree(t, index, cut))
    requires t.Number(h) == Lesser(cut, t.Number(head)) && h == At(t, head, t.Number(h))
    ensures IsPath(CutTree(t, index, cut), CutIndex(index, cut), h)
  {
    var t', index' := CutTree(t, index, cut), CutIndex(index, cut);
    CutKeeps(t, index, head, h, cut);
    UnfoldAll();
    forall n: nat | n in index'.at
      ensures n <= t'.Number(h) && index'.at[n] == At(t', h, n)
    {
      AtAt(t, head, t.Number(h), n);
      CutAtSame(t, index, cut, h, n);
    }
  }

  lemma CutWeighed(t: Tree, tds: Tds, index: Index, cut: nat)
    requires Weighed(t, tds) && Rooted(CutTree(t, index, cut))
    ensures Weighed(CutTree(t, index, cut), CutTds(tds, index, cut))
  {
    var t', tds' := CutTree(t, index, cut), CutTds(tds, index, cut);
    forall g
      ensures t'.Has(g) <==> g in tds'.at
      ensures t'.Has(g) ==> tds'.at[g] == Weight(t', g)
    {
      TdOf(t, tds, g);
      if t'.Has(g) {
        CutWeight(t, index, cut, g);
      }
    }
  }

  /** Where a cut is not clean: two blocks on one parent, the cut below it. The one off the index is kept and
      loses its parent. */
  lemma DanglingHappens(g: Header, a: Header, b: Header, c: Header)
    requires g == Header(1, NO_HASH, 0, 1) && a == Header(2, 1, 1, 1) && b == Header(3, 2, 2, 1) &&
             c == Header(4, 2, 2, 1)
    ensures var t := Tree(map[1 := g, 2 := a, 3 := b, 4 := c], g);
            var index := Index(map[0 := 1, 1 := 2, 2 := 3]);
            && Rooted(t) && IsPath(t, index, 3)
            && !CleanCut(t, index, 0) && !Rooted(CutTree(t, index, 0))
  {
    var t := Tree(map[1 := g, 2 := a, 3 := b, 4 := c], g);
    var index := Index(map[0 := 1, 1 := 2, 2 := 3]);
    assert Rooted(t);
    assert At(t, 2, 0) == 1 && At(t, 3, 1) == 2 && At(t, 3, 0) == 1 by {
      assert At(t, 3, 1) == At(t, 2, 1);
    }
    assert IsPath(t, index, 3);
    assert index.at[1] in CutOff(index, 0);
    assert 4 !in CutOff(index, 0) && t.Parent(4) in CutOff(index, 0);
    CutRooted(t, index, 3, 0);
  }

  lemma {:induction false} WeightGrows(t: Tree, h: Hash, n: nat)
    requires Rooted(t) && t.Has(h) && n <= t.Number(h)
    ensures Weight(t, At(t, h, n)) <= Weight(t, h)
    decreases t.Number(h)
  {
    Step(t, h);
    if t.Number(h) > n {
      WeightGrows(t, t.Parent(h), n);
    }
  }

  lemma GenesisIsCanonical(t: Tree, index: Index, head: Hash, h: Hash)
    requires Rooted(t) && IsPath(t, index, head) && t.Has(h)
    ensures t.Number(h) == 0 ==> h == t.genesis.hash && index.Read(0) == h
  {
    ReadPath(t, index, head, 0);
    Step(t, h);
    Step(t, At(t, head, 0));
  }
}
