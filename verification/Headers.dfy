/** Headers as a tree of parent links below a genesis header, and the number index of one branch. */
module Headers {

  type Hash = nat

  /** The zero hash: what a lookup returns when there is nothing. */
  const NO_HASH: Hash := 0

  datatype Header = Header(hash: Hash, parent: Hash, number: nat, difficulty: nat)

  /** The stored headers by hash. */
  datatype Tree = Tree(at: map<Hash, Header>, genesis: Header)
  {
    predicate Has(h: Hash) { h in at }

    function Get(h: Hash): Header
      requires Has(h)
    {
      at[h]
    }

    function Number(h: Hash): nat
      requires Has(h)
    {
      at[h].number
    }

    function Parent(h: Hash): Hash
      requires Has(h)
    {
      at[h].parent
    }

    /** The tree with one more header. */
    function With(header: Header): Tree {
      this.(at := at[header.hash := header])
    }
  }

  /** A header hangs on the tree: its parent is stored, one number below. */
  predicate Linked(t: Tree, header: Header) {
    t.Has(header.parent) && header.number == t.Number(header.parent) + 1
  }

  /** Parents of stored headers are stored, one number below, down to genesis. */
  ghost predicate Rooted(t: Tree) {
    && t.Has(t.genesis.hash) && t.Get(t.genesis.hash) == t.genesis && t.genesis.number == 0 &&
       t.genesis.parent == NO_HASH
    && !t.Has(NO_HASH)
    && forall key {:trigger OpenTree(key)} :: OpenTree(key) ==>
         forall h :: t.Has(h) ==> t.Get(h).hash == h && (h == t.genesis.hash || Linked(t, t.Get(h)))
  }

  // Always true. They keep the definitions that mention them folded: a proof that looks inside
  // such a definition calls Unfold, every other proof passes it on as a name.
  predicate OpenTree(key: int) { true }

  predicate OpenPath(key: int) { true }

  lemma Unfold()
    ensures OpenTree(0) && OpenPath(0)
  {
  }

  lemma Step(t: Tree, h: Hash)
    requires Rooted(t) && t.Has(h)
    ensures t.Get(h).hash == h && (h == t.genesis.hash || Linked(t, t.Get(h)))
  {
    Unfold();
  }

  /** The ancestor of a stored header at a lower number, by walking parents. */
  ghost function At(t: Tree, h: Hash, n: nat): (a: Hash)
    requires Rooted(t) && t.Has(h) && n <= t.Number(h)
    ensures t.Has(a) && t.Number(a) == n
    decreases t.Number(h)
  {
    Step(t, h);
    if t.Number(h) == n then h else At(t, t.Parent(h), n)
  }

  /** The k-th parent. */
  ghost function Ancestor(t: Tree, h: Hash, k: nat): Hash
    requires Rooted(t) && t.Has(h) && k <= t.Number(h)
  {
    At(t, h, t.Number(h) - k)
  }

  lemma {:induction false} AtAt(t: Tree, h: Hash, m: nat, n: nat)
    requires Rooted(t) && t.Has(h) && n <= m <= t.Number(h)
    ensures At(t, At(t, h, m), n) == At(t, h, n)
    decreases t.Number(h)
  {
    Step(t, h);
    if t.Number(h) > m {
      AtAt(t, t.Parent(h), m, n);
    }
  }

  /** A well-numbered header with a stored parent may be added. */
  lemma WithRooted(t: Tree, header: Header)
    requires Rooted(t) && Linked(t, header) && header.hash != NO_HASH &&
             (t.Has(header.hash) ==> t.Get(header.hash) == header)
    ensures Rooted(t.With(header))
  {
    Unfold();
    var t' := t.With(header);
    forall h | t'.Has(h)
      ensures t'.Get(h).hash == h && (h == t'.genesis.hash || Linked(t', t'.Get(h)))
    {
      if h != header.hash {
        assert t.Has(h);
      }
    }
  }

  /** Adding a header changes no path of the others. */
  lemma {:induction false} WithAt(t: Tree, header: Header, h: Hash, n: nat)
    requires Rooted(t) && Rooted(t.With(header)) && (t.Has(header.hash) ==> t.Get(header.hash) == header)
    requires t.Has(h) && n <= t.Number(h)
    ensures At(t.With(header), h, n) == At(t, h, n)
    decreases t.Number(h)
  {
    Step(t, h);
    if t.Number(h) > n {
      WithAt(t, header, t.Parent(h), n);
    }
  }

  // ---- the number index ----

  /** Number to hash. */
  datatype Index = Index(at: map<nat, Hash>)
  {
    /** ReadCanonicalHash. */
    function Read(n: nat): Hash { if n in at then at[n] else NO_HASH }
  }

  /** The index is exactly the ancestor path of `head`: nothing missing, nothing else, nothing above. */
  ghost predicate IsPath(t: Tree, index: Index, head: Hash)
    requires Rooted(t)
  {
    t.Has(head) && forall key {:trigger OpenPath(key)} :: OpenPath(key) ==>
      && (forall n: nat :: n in index.at <==> n <= t.Number(head))
      && (forall n: nat :: n in index.at ==> index.at[n] == At(t, head, n))
  }

  lemma ReadPath(t: Tree, index: Index, head: Hash, n: nat)
    requires Rooted(t) && IsPath(t, index, head)
    ensures index.Read(n) == if n <= t.Number(head) then At(t, head, n) else NO_HASH
    ensures index.Read(n) != NO_HASH <==> n <= t.Number(head)
    ensures n in index.at <==> n <= t.Number(head)
    ensures n in index.at ==> index.at[n] == At(t, head, n)
  {
    Unfold();
  }

  /** Where the index agrees with a path at one number, it agrees below. */
  lemma AgreesBelow(t: Tree, index: Index, head: Hash, h: Hash, m: nat, n: nat)
    requires Rooted(t) && IsPath(t, index, head) && t.Has(h) && n <= m <= t.Number(h) && index.Read(m) == At(t, h, m)
    ensures n in index.at && index.at[n] == At(t, h, n)
  {
    ReadPath(t, index, head, m);
    ReadPath(t, index, head, n);
    AtAt(t, h, m, n);
    AtAt(t, head, m, n);
  }

  // ---- total difficulty ----

  ghost function Weight(t: Tree, h: Hash): nat
    requires Rooted(t) && t.Has(h)
    decreases t.Number(h)
  {
    Step(t, h);
    t.Get(h).difficulty + if h == t.genesis.hash then 0 else Weight(t, t.Parent(h))
  }

  lemma {:induction false} WithWeight(t: Tree, header: Header, h: Hash)
    requires Rooted(t) && Rooted(t.With(header)) && (t.Has(header.hash) ==> t.Get(header.hash) == header) && t.Has(h)
    ensures Weight(t.With(header), h) == Weight(t, h)
    decreases t.Number(h)
  {
    Step(t, h);
    if h != t.genesis.hash {
      WithWeight(t, header, t.Parent(h));
    }
  }
}
