/** The array heap of Go's container/heap and the sort of Go's sort package, as the
    transaction pool uses them. Elements are compared through a rank, lexicographically:
    a nonce ranks as (nonce, 0), a pooled transaction as (price, -nonce). */
module BinaryHeap {

  type Rank = (int, int)

  predicate Leq(a: Rank, b: Rank) {
    a.0 < b.0 || (a.0 == b.0 && a.1 <= b.1)
  }

  function Parent(i: nat): nat
    requires i > 0
  {
    (i - 1) / 2
  }

  /** The heap order between position k and its parent. */
  predicate Edge<T>(h: seq<T>, rank: T -> Rank, k: nat)
    requires 0 < k < |h|
  {
    Leq(rank(h[Parent(k)]), rank(h[k]))
  }

  /** Heap order below every position at or above lo. */
  predicate HeapFrom<T>(h: seq<T>, rank: T -> Rank, lo: nat) {
    forall k: nat :: 0 < k < |h| && Parent(k) >= lo ==> Edge(h, rank, k)
  }

  predicate IsHeap<T>(h: seq<T>, rank: T -> Rank) {
    HeapFrom(h, rank, 0)
  }

  predicate InOrder<T>(s: seq<T>, rank: T -> Rank, i: nat, j: nat)
    requires i < |s| && j < |s|
  {
    Leq(rank(s[i]), rank(s[j]))
  }

  predicate SortedBy<T>(s: seq<T>, rank: T -> Rank) {
    forall i: nat, j: nat :: i < j < |s| ==> InOrder(s, rank, i, j)
  }

  /** The element at the root is a minimum: the fact every reader of position 0 relies on. */
  lemma {:induction false} RootIsLeast<T>(h: seq<T>, rank: T -> Rank, k: nat)
    requires IsHeap(h, rank) && k < |h|
    ensures Leq(rank(h[0]), rank(h[k]))
  {
    if k > 0 {
      assert Edge(h, rank, k);
      RootIsLeast(h, rank, Parent(k));
    }
  }

  lemma RootIsLeastOfAll<T>(h: seq<T>, rank: T -> Rank)
    requires IsHeap(h, rank) && |h| > 0
    ensures forall x :: x in h ==> Leq(rank(h[0]), rank(x))
  {
    forall x | x in h
      ensures Leq(rank(h[0]), rank(x))
    {
      var k :| 0 <= k < |h| && h[k] == x;
      RootIsLeast(h, rank, k);
    }
  }

  function Swap<T>(s: seq<T>, i: nat, j: nat): (r: seq<T>)
    requires i < |s| && j < |s|
    ensures |r| == |s| && r[i] == s[j] && r[j] == s[i]
    ensures forall k :: 0 <= k < |s| && k != i && k != j ==> r[k] == s[k]
    ensures multiset(r) == multiset(s)
  {
    s[i := s[j]][j := s[i]]
  }

  lemma Repeated<T>(s: seq<T>, i: nat, j: nat)
    requires i < j < |s| && s[i] == s[j]
    ensures multiset(s)[s[i]] >= 2
  {
    assert s == s[..i] + [s[i]] + s[i + 1..j] + [s[j]] + s[j + 1..];
  }

  /** Swapping a misplaced position with its parent leaves only the parent's position misplaced. */
  lemma RiseOne<T>(h: seq<T>, rank: T -> Rank, i: nat)
    requires 0 < i < |h| && !Leq(rank(h[Parent(i)]), rank(h[i]))
    requires forall k: nat :: 0 < k < |h| && k != i ==> Edge(h, rank, k)
    requires forall k: nat :: 0 < k < |h| && Parent(k) == i ==> Leq(rank(h[Parent(i)]), rank(h[k]))
    ensures var p, r := Parent(i), Swap(h, i, Parent(i));
            && (forall k: nat :: 0 < k < |r| && k != p ==> Edge(r, rank, k))
            && (p > 0 ==> forall k: nat :: 0 < k < |r| && Parent(k) == p ==> Leq(rank(r[Parent(p)]), rank(r[k])))
  {
    var p, r := Parent(i), Swap(h, i, Parent(i));
    forall k: nat | 0 < k < |r| && k != p
      ensures Edge(r, rank, k)
    {
      assert k != i ==> Edge(h, rank, k);
    }
    if p > 0 {
      assert Edge(h, rank, p);
      forall k: nat | 0 < k < |r| && Parent(k) == p
        ensures Leq(rank(r[Parent(p)]), rank(r[k]))
      {
        assert k != i ==> Edge(h, rank, k);
      }
    }
  }

  /** Go's heap.up: position j may be smaller than its parent, everything else is in order. */
  method Up<T>(h: seq<T>, rank: T -> Rank, j: nat) returns (r: seq<T>)
    requires j < |h|
    requires forall k: nat :: 0 < k < |h| && k != j ==> Edge(h, rank, k)
    requires j > 0 ==> forall k: nat :: 0 < k < |h| && Parent(k) == j ==> Leq(rank(h[Parent(j)]), rank(h[k]))
    ensures IsHeap(r, rank) && multiset(r) == multiset(h) && |r| == |h|
  {
    r := h;
    var i := j;
    while i > 0 && !Leq(rank(r[Parent(i)]), rank(r[i]))
      invariant i < |r| == |h| && multiset(r) == multiset(h)
      invariant forall k: nat :: 0 < k < |r| && k != i ==> Edge(r, rank, k)
      invariant i > 0 ==> forall k: nat :: 0 < k < |r| && Parent(k) == i ==> Leq(rank(r[Parent(i)]), rank(r[k]))
      decreases i
    {
      RiseOne(r, rank, i);
      r := Swap(r, i, Parent(i));
      i := Parent(i);
    }
    assert i > 0 ==> Edge(r, rank, i);
  }

  /** While an element sinks: only the edges below `hole` (and, until it has moved, the edge
      above `start`) may be out of order, and the children of `hole` fit under its parent. */
  ghost predicate Sinking<T>(h: seq<T>, rank: T -> Rank, start: nat, hole: nat, lo: nat) {
    && lo <= start <= hole < |h|
    && (forall k: nat ::
         0 < k < |h| && Parent(k) >= lo && Parent(k) != hole && (k != start || start < hole) ==> Edge(h, rank, k))
    && (hole > 0 && Parent(hole) >= lo ==>
          forall k: nat :: 0 < k < |h| && Parent(k) == hole ==> Leq(rank(h[Parent(hole)]), rank(h[k])))
  }

  function LesserChild<T>(h: seq<T>, rank: T -> Rank, at: nat): (child: nat)
    requires 2 * at + 1 < |h|
    ensures at < child < |h| && Parent(child) == at
    ensures forall k: nat :: 0 < k < |h| && Parent(k) == at ==> Leq(rank(h[child]), rank(h[k]))
  {
    var left := 2 * at + 1;
    var child := if left + 1 < |h| && !Leq(rank(h[left]), rank(h[left + 1])) then left + 1 else left;
    assert forall k: nat :: 0 < k < |h| && Parent(k) == at ==> k == left || k == left + 1;
    child
  }

  lemma SinkOneLevel<T>(h: seq<T>, rank: T -> Rank, start: nat, hole: nat, lo: nat, child: nat)
    requires Sinking(h, rank, start, hole, lo) && 2 * hole + 1 < |h|
    requires child == LesserChild(h, rank, hole) && !Leq(rank(h[hole]), rank(h[child]))
    ensures Sinking(Swap(h, hole, child), rank, start, child, lo)
  {
    var r := Swap(h, hole, child);
    forall k: nat | 0 < k < |r| && Parent(k) >= lo && Parent(k) != child
      ensures Edge(r, rank, k)
    {
      if Parent(k) != hole && k != hole {
        assert Edge(h, rank, k);
      }
    }
    forall k: nat | 0 < k < |r| && Parent(k) == child
      ensures Leq(rank(r[Parent(child)]), rank(r[k]))
    {
      assert Edge(h, rank, k);
    }
  }

  /** Go's heap.down on positions at or above lo: position i may be larger than its children. */
  method Down<T>(h: seq<T>, rank: T -> Rank, i: nat, ghost lo: nat) returns (r: seq<T>, moved: bool)
    requires Sinking(h, rank, i, i, lo)
    ensures multiset(r) == multiset(h) && |r| == |h|
    ensures !moved ==> r == h && forall k: nat :: 0 < k < |h| && Parent(k) == i ==> Edge(h, rank, k)
    ensures moved ==> HeapFrom(r, rank, lo)
  {
    r := h;
    var at := i;
    while 2 * at + 1 < |r|
      invariant |r| == |h| && multiset(r) == multiset(h)
      invariant at == i ==> r == h
      invariant Sinking(r, rank, i, at, lo)
      decreases |r| - at
    {
      var child := LesserChild(r, rank, at);
      if Leq(rank(r[at]), rank(r[child])) {
        break;
      }
      SinkOneLevel(r, rank, i, at, lo, child);
      r := Swap(r, at, child);
      at := child;
    }
    moved := at > i;
  }

  /** Go's heap.Push. */
  method Push<T>(h: seq<T>, rank: T -> Rank, x: T) returns (r: seq<T>)
    requires IsHeap(h, rank)
    ensures IsHeap(r, rank) && multiset(r) == multiset(h) + multiset{x} && |r| == |h| + 1
  {
    var longer := h + [x];
    forall k: nat | 0 < k < |longer| && k != |h|
      ensures Edge(longer, rank, k)
    {
      assert Edge(h, rank, k);
    }
    r := Up(longer, rank, |h|);
  }

  /** Go's heap.Pop: returns a minimum. */
  method Pop<T>(h: seq<T>, rank: T -> Rank) returns (x: T, r: seq<T>)
    requires IsHeap(h, rank) && |h| > 0
    ensures IsHeap(r, rank) && multiset(h) == multiset(r) + multiset{x} && |h| == |r| + 1
    ensures x == h[0] && forall y :: y in h ==> Leq(rank(x), rank(y))
  {
    RootIsLeastOfAll(h, rank);
    x := h[0];
    r := RemoveAt(h, rank, 0);
  }

  /** Go's heap.Remove at position i. */
  method RemoveAt<T>(h: seq<T>, rank: T -> Rank, i: nat) returns (r: seq<T>)
    requires IsHeap(h, rank) && i < |h|
    ensures IsHeap(r, rank) && multiset(h) == multiset(r) + multiset{h[i]} && |h| == |r| + 1
  {
    var n := |h| - 1;
    var swapped := Swap(h, i, n);
    var rest := swapped[..n];
    assert swapped == rest + [h[i]];
    if i == n {
      r := rest;
      forall k: nat | 0 < k < |r|
        ensures Edge(r, rank, k)
      {
        assert Edge(h, rank, k);
      }
      return;
    }
    forall k: nat | 0 < k < |rest| && Parent(k) != i && k != i
      ensures Edge(rest, rank, k)
    {
      assert Edge(h, rank, k);
    }
    if i > 0 {
      assert Edge(h, rank, i);
      forall k: nat | 0 < k < |rest| && Parent(k) == i
        ensures Leq(rank(rest[Parent(i)]), rank(rest[k]))
      {
        assert Edge(h, rank, k);
      }
    }
    var moved;
    r, moved := Down(rest, rank, i, 0);
    if !moved {
      r := Up(r, rank, i);
    }
  }

  /** Go's heap.Init. */
  method Init<T>(h: seq<T>, rank: T -> Rank) returns (r: seq<T>)
    ensures IsHeap(r, rank) && multiset(r) == multiset(h) && |r| == |h|
  {
    r := h;
    var i := |h| / 2;
    while i > 0
      invariant 0 <= i <= |h| / 2 && |r| == |h| && multiset(r) == multiset(h)
      invariant HeapFrom(r, rank, i)
    {
      i := i - 1;
      var moved;
      r, moved := Down(r, rank, i, i);
    }
  }

  method Insert<T>(s: seq<T>, rank: T -> Rank, x: T) returns (r: seq<T>)
    requires SortedBy(s, rank)
    ensures SortedBy(r, rank) && multiset(r) == multiset(s) + multiset{x} && |r| == |s| + 1
  {
    var k := |s|;
    while k > 0 && !Leq(rank(s[k - 1]), rank(x))
      invariant 0 <= k <= |s|
      invariant k < |s| ==> Leq(rank(x), rank(s[k]))
    {
      k := k - 1;
    }
    r := s[..k] + [x] + s[k..];
    SplicedInOrder(s, rank, x, k);
    assert s == s[..k] + s[k..];
  }

  lemma SplicedInOrder<T>(s: seq<T>, rank: T -> Rank, x: T, k: nat)
    requires SortedBy(s, rank) && k <= |s|
    requires k > 0 ==> Leq(rank(s[k - 1]), rank(x))
    requires k < |s| ==> Leq(rank(x), rank(s[k]))
    ensures SortedBy(s[..k] + [x] + s[k..], rank)
  {
    var r := s[..k] + [x] + s[k..];
    forall i: nat, j: nat | i < j < |r|
      ensures InOrder(r, rank, i, j)
    {
      if i == k {
        assert r[j] == s[j - 1];
        assert k < j - 1 ==> InOrder(s, rank, k, j - 1);
      } else if j == k {
        assert r[i] == s[i];
        assert i < k - 1 ==> InOrder(s, rank, i, k - 1);
      } else {
        assert InOrder(s, rank, if i < k then i else i - 1, if j < k then j else j - 1);
      }
    }
  }

  /** Go's sort.Sort, by insertion. */
  method Sort<T>(s: seq<T>, rank: T -> Rank) returns (r: seq<T>)
    ensures SortedBy(r, rank) && multiset(r) == multiset(s) && |r| == |s|
  {
    r := [];
    for n := 0 to |s|
      invariant SortedBy(r, rank) && multiset(r) == multiset(s[..n]) && |r| == n
    {
      assert s[..n + 1] == s[..n] + [s[n]];
      r := Insert(r, rank, s[n]);
    }
    assert s[..|s|] == s;
  }
}
