/** Transactions, and the contents of one account's list as a set of transactions.
    The functions on such sets are the reference behaviour of the list operations: the
    classes TxSortedMap and TxList are proved against them, and the pool uses them. */
module Transactions {
  import opened Basics

  type Address = nat
  type Byte = b: nat | b < 256

  const TX_SLOT_SIZE := 32 * 1024
  const TX_MAX_SIZE := 4 * TX_SLOT_SIZE

  /** A transaction also stands for its hash, which is taken to be collision free.
      `signed` says whether a sender can be recovered from the signature; `sender` is then that address. */
  datatype Tx = Tx(sender: Address, signed: bool, nonce: nat, price: nat, gas: nat, value: int,
                   data: seq<Byte>, create: bool, size: nat)

  function Cost(tx: Tx): int { tx.value + tx.price * tx.gas }

  function NumSlots(tx: Tx): nat { (tx.size + TX_SLOT_SIZE - 1) / TX_SLOT_SIZE }

  /** The slots are just enough for the transaction's size. */
  lemma SlotsHold(tx: Tx)
    ensures tx.size <= NumSlots(tx) * 32768 && (tx.size > 0 ==> (NumSlots(tx) - 1) * 32768 < tx.size)
    ensures tx.size == 0 ==> NumSlots(tx) == 0
  {
  }

  /** May `tx` replace `prior` at the same nonce: strictly dearer, and by at least bump percent. */
  predicate Outbids(prior: Tx, tx: Tx, bump: nat) {
    prior.price < tx.price && prior.price * (100 + bump) / 100 <= tx.price
  }

  predicate Payable(tx: Tx, balance: int, gasLimit: nat) {
    Cost(tx) <= balance && tx.gas <= gasLimit
  }

  // ---- one account's transactions ----

  /** At most one transaction per nonce. */
  ghost predicate OnePerNonce(c: set<Tx>) {
    forall x, y {:trigger SameNonce(x, y)} :: x in c && y in c && SameNonce(x, y) ==> x == y
  }

  predicate SameNonce(x: Tx, y: Tx) { x.nonce == y.nonce }

  lemma Alone(c: set<Tx>, x: Tx)
    requires OnePerNonce(c) && x in c
    ensures forall t :: t in c && t.nonce == x.nonce ==> t == x
  {
    forall t | t in c && t.nonce == x.nonce
      ensures t == x
    {
      assert SameNonce(t, x);
    }
  }

  predicate Occupied(c: set<Tx>, n: nat) {
    exists t :: t in c && t.nonce == n
  }

  /** The transaction at a nonce. */
  function TxAt(c: set<Tx>, n: nat): (tx: Tx)
    requires OnePerNonce(c) && Occupied(c, n)
    ensures tx in c && tx.nonce == n
  {
    assert forall x, y :: x in c && y in c && x.nonce == n && y.nonce == n ==> SameNonce(x, y);
    var t :| t in c && t.nonce == n;
    t
  }

  function Below(c: set<Tx>, n: nat): set<Tx> {
    set t | t in c && t.nonce < n
  }

  function AtLeast(c: set<Tx>, n: nat): set<Tx> {
    set t | t in c && t.nonce >= n
  }

  /** The contents once `tx` took its nonce. */
  function Placed(c: set<Tx>, tx: Tx): set<Tx> {
    (set t | t in c && t.nonce != tx.nonce) + {tx}
  }

  /** What a filter on cost and gas throws out, ... */
  function Unpayable(c: set<Tx>, balance: int, gasLimit: nat): set<Tx> {
    set t | t in c && !Payable(t, balance, gasLimit)
  }

  /** ... what falls with it in a strict list ... */
  function Invalidated(c: set<Tx>, balance: int, gasLimit: nat): set<Tx> {
    set t | t in c && Payable(t, balance, gasLimit) && exists u ::
        u in c && u.nonce < t.nonce && !Payable(u, balance, gasLimit)
  }

  /** ... and what stays. */
  function Kept(c: set<Tx>, strict: bool, balance: int, gasLimit: nat): set<Tx> {
    set t | t in c && Payable(t, balance, gasLimit)
            && (strict ==> forall u :: u in c && u.nonce < t.nonce ==> Payable(u, balance, gasLimit))
  }

  /** The `limit` lowest nonces. */
  function Lowest(c: set<Tx>, limit: nat): set<Tx> {
    set t | t in c && |Below(c, t.nonce)| < limit
  }

  /** The smallest nonce. */
  function First(c: set<Tx>): (n: nat)
    requires c != {}
    ensures Occupied(c, n) && forall t :: t in c ==> n <= t.nonce
  {
    FirstExists(c);
    var n: nat :| Occupied(c, n) && forall t :: t in c ==> n <= t.nonce;
    n
  }

  lemma FirstExists(c: set<Tx>)
    requires c != {}
    ensures exists n: nat :: Occupied(c, n) && forall t :: t in c ==> n <= t.nonce
  {
    var least :| least in c;
    while exists t :: t in c && t.nonce < least.nonce
      invariant least in c
      decreases least.nonce
    {
      var t :| t in c && t.nonce < least.nonce;
      least := t;
    }
    assert Occupied(c, least.nonce);
  }

  predicate Unbroken(c: set<Tx>, from: nat, to: nat) {
    forall n: nat :: from <= n <= to ==> Occupied(c, n)
  }

  /** The gap-free run from the smallest nonce, provided that nonce is at most start. */
  function Ready(c: set<Tx>, start: nat): set<Tx> {
    if c == {} || First(c) > start then {}
    else set t | t in c && Unbroken(c, First(c), t.nonce)
  }

  /** What Ready returns, said without Unbroken: everything up to the first hole. */
  lemma ReadyIsMaximalRun(c: set<Tx>, start: nat) returns (stop: nat)
    requires c != {} && First(c) <= start
    ensures First(c) < stop && !Occupied(c, stop) && Ready(c, start) == Below(c, stop)
    ensures forall n: nat :: First(c) <= n < stop ==> Occupied(c, n)
  {
    stop := First(c);
    ghost var low := First(c);
    while Occupied(c, stop)
      invariant low <= stop && forall n: nat :: low <= n < stop ==> Occupied(c, n)
      decreases AtLeast(c, stop)
    {
      assert AtLeast(c, stop + 1) <= AtLeast(c, stop);
      var t :| t in c && t.nonce == stop;
      assert t in AtLeast(c, stop) && t !in AtLeast(c, stop + 1);
      stop := stop + 1;
    }
    forall t | t in c
      ensures Unbroken(c, low, t.nonce) <==> t.nonce < stop
    {
      assert t.nonce >= stop ==> low <= stop <= t.nonce;
    }
  }

  /** The nonces of `c` are exactly those from `low` up to but excluding `high`. */
  ghost predicate Spans(c: set<Tx>, low: nat, high: nat) {
    low <= high && forall n: nat :: Occupied(c, n) <==> low <= n < high
  }

  lemma {:induction false} SpanLength(c: set<Tx>, low: nat, high: nat)
    requires Spans(c, low, high) && OnePerNonce(c)
    ensures |c| == high - low
    decreases high - low
  {
    if low == high {
      assert forall t :: t in c ==> Occupied(c, t.nonce);
      assert c == {};
    } else {
      assert Occupied(c, high - 1);
      var t := TxAt(c, high - 1);
      Alone(c, t);
      var rest := c - {t};
      forall n: nat
        ensures Occupied(rest, n) <==> low <= n < high - 1
      {
        assert Occupied(c, n) <==> low <= n < high;
        if low <= n < high - 1 {
          assert TxAt(c, n) in rest;
        }
      }
      SpanLength(rest, low, high - 1);
    }
  }

  /** A strict filter of a gap-free list leaves a gap-free prefix, cut at the first unpayable nonce. */
  lemma KeptIsPrefix(c: set<Tx>, low: nat, high: nat, balance: int, gasLimit: nat) returns (cut: nat)
    requires Spans(c, low, high) && OnePerNonce(c)
    ensures low <= cut <= high && Kept(c, true, balance, gasLimit) == Below(c, cut)
    ensures Spans(Kept(c, true, balance, gasLimit), low, cut)
    ensures cut < high ==> !Payable(TxAt(c, cut), balance, gasLimit)
  {
    cut := low;
    assert forall t :: t in c ==> Occupied(c, t.nonce);
    while cut < high && Payable(TxAt(c, cut), balance, gasLimit)
      invariant low <= cut <= high
      invariant forall t :: t in c && t.nonce < cut ==> Payable(t, balance, gasLimit)
    {
      Alone(c, TxAt(c, cut));
      cut := cut + 1;
    }
    if cut < high {
      Alone(c, TxAt(c, cut));
    }
    forall t | t in c
      ensures t in Kept(c, true, balance, gasLimit) <==> t.nonce < cut
    {
      if t.nonce >= cut {
        assert Occupied(c, t.nonce);
        assert TxAt(c, cut).nonce <= t.nonce;
      }
    }
    BelowSpans(c, low, high, cut);
  }

  lemma BelowSpans(c: set<Tx>, low: nat, high: nat, cut: nat)
    requires Spans(c, low, high) && low <= cut <= high
    ensures Spans(Below(c, cut), low, cut)
  {
    forall n: nat
      ensures Occupied(Below(c, cut), n) <==> low <= n < cut
    {
      assert Occupied(c, n) <==> low <= n < high;
      if low <= n < cut {
        var t :| t in c && t.nonce == n;
        assert t in Below(c, cut);
      }
    }
  }

  /** Kept, removed and (in a strict list) invalidated transactions partition the list,
      and a strict list keeps only nonces below everything it loses. */
  lemma FilterPartition(c: set<Tx>, strict: bool, balance: int, gasLimit: nat)
    requires OnePerNonce(c)
    ensures var removed, kept := Unpayable(c, balance, gasLimit), Kept(c, strict, balance, gasLimit);
            var invalid := if strict then Invalidated(c, balance, gasLimit) else {};
            && c == kept + removed + invalid
            && kept !! removed !! invalid
            && (strict ==> forall t, u :: t in kept && u in c - kept ==> t.nonce < u.nonce)
  {
    if strict {
      forall t, u | t in Kept(c, strict, balance, gasLimit) && u in c - Kept(c, strict, balance, gasLimit)
        ensures t.nonce < u.nonce
      {
        var bad :| bad in c && bad.nonce <= u.nonce && !Payable(bad, balance, gasLimit);
        assert bad.nonce >= t.nonce;
        Alone(c, t);
      }
    }
  }

  // ---- replacements at one nonce ----

  /** The list after a transaction was offered to it: it takes its nonce if that is free or if it outbids the holder. */
  function Offered(c: set<Tx>, tx: Tx, bump: nat): set<Tx>
    requires OnePerNonce(c)
  {
    if Takes(c, tx, bump) then Placed(c, tx) else c
  }

  predicate Takes(c: set<Tx>, tx: Tx, bump: nat)
    requires OnePerNonce(c)
  {
    Occupied(c, tx.nonce) ==> Outbids(TxAt(c, tx.nonce), tx, bump)
  }

  /** And after a whole slice was. */
  ghost function OfferedAll(c: set<Tx>, txs: seq<Tx>, bump: nat): (c': set<Tx>)
    requires OnePerNonce(c)
    ensures OnePerNonce(c')
  {
    if txs == [] then c else Offered(OfferedAll(c, txs[..|txs| - 1], bump), txs[|txs| - 1], bump)
  }

  /** The transactions that held a nonce one after the other meanwhile. */
  ghost function Holders(c: set<Tx>, txs: seq<Tx>, bump: nat, n: nat): seq<Tx>
    requires OnePerNonce(c)
  {
    if txs == [] then
      if Occupied(c, n) then [TxAt(c, n)] else []
    else
      var init, tx := txs[..|txs| - 1], txs[|txs| - 1];
      Holders(c, init, bump, n) + if tx.nonce == n && Takes(OfferedAll(c, init, bump), tx, bump) then [tx] else []
  }

  /** Each holder outbid the one before it, and the last one is still there. */
  lemma {:induction false} HoldersOutbid(c: set<Tx>, txs: seq<Tx>, bump: nat, n: nat)
    requires OnePerNonce(c)
    ensures var holders, now := Holders(c, txs, bump, n), OfferedAll(c, txs, bump);
            && (forall k :: 0 <= k < |holders| - 1 ==> Outbids(holders[k], holders[k + 1], bump))
            && (Occupied(now, n) <==> holders != [])
            && (holders != [] ==> TxAt(now, n) == holders[|holders| - 1])
  {
    if txs != [] {
      var init, tx := txs[..|txs| - 1], txs[|txs| - 1];
      HoldersOutbid(c, init, bump, n);
      OneMoreOffer(OfferedAll(c, init, bump), tx, bump, n);
    }
  }

  lemma OneMoreOffer(c: set<Tx>, tx: Tx, bump: nat, n: nat)
    requires OnePerNonce(c)
    ensures var c' := Offered(c, tx, bump);
            && OnePerNonce(c')
            && (tx.nonce == n && Takes(c, tx, bump) ==> Occupied(c', n) && TxAt(c', n) == tx)
            && (tx.nonce != n || !Takes(c, tx, bump) ==>
                  (Occupied(c', n) <==> Occupied(c, n)) && (Occupied(c, n) ==> TxAt(c', n) == TxAt(c, n)))
  {
    var c' := Offered(c, tx, bump);
    assert tx in Placed(c, tx);
    if Occupied(c, n) {
      assert Takes(c, tx, bump) && n != tx.nonce ==> TxAt(c, n) in c';
      Alone(c, TxAt(c, n));
    }
    assert OnePerNonce(c');
    if Occupied(c', n) {
      Alone(c', TxAt(c', n));
    }
  }

  /** A price raised by the bump k times, rounded down each time as the test does. */
  function Bumped(price: nat, bump: nat, k: nat): nat {
    if k == 0 then price else Bumped(price, bump, k - 1) * (100 + bump) / 100
  }

  lemma BumpMonotone(p: nat, q: nat, bump: nat)
    requires p <= q
    ensures p * (100 + bump) / 100 <= q * (100 + bump) / 100
  {
    assert p * (100 + bump) <= q * (100 + bump);
  }

  /** Over any number of replacements at one nonce the bumps compound, and the price rises strictly each time. */
  lemma {:induction false} ReplacementPricesRise(c: set<Tx>, txs: seq<Tx>, bump: nat, n: nat, i: nat, j: nat)
    requires OnePerNonce(c) && i <= j < |Holders(c, txs, bump, n)|
    ensures var holders := Holders(c, txs, bump, n);
            Bumped(holders[i].price, bump, j - i) <= holders[j].price && holders[i].price + (j - i) <= holders[j].price
    decreases j - i
  {
    var holders := Holders(c, txs, bump, n);
    if i < j {
      HoldersOutbid(c, txs, bump, n);
      ReplacementPricesRise(c, txs, bump, n, i, j - 1);
      assert Outbids(holders[j - 1], holders[j - 1 + 1], bump);
      BumpMonotone(Bumped(holders[i].price, bump, j - 1 - i), holders[j - 1].price, bump);
    }
  }

  // ---- transaction slices ----

  /** `s` lists `c`, each transaction once. */
  ghost predicate Enumerates(s: seq<Tx>, c: set<Tx>) {
    && (forall tx :: tx in s <==> tx in c)
    && (forall i, j :: 0 <= i < j < |s| ==> s[i] != s[j])
  }

  ghost predicate Ascending(s: seq<Tx>) {
    forall i, j :: 0 <= i < j < |s| ==> s[i].nonce < s[j].nonce
  }

  ghost predicate Descending(s: seq<Tx>) {
    forall i, j :: 0 <= i < j < |s| ==> s[i].nonce > s[j].nonce
  }

  lemma {:induction false} EnumerationLength(s: seq<Tx>, c: set<Tx>)
    requires Enumerates(s, c)
    ensures |s| == |c|
  {
    if s == [] {
      assert c == {};
    } else {
      DropFirst(s, c);
      EnumerationLength(s[1..], c - {s[0]});
    }
  }

  lemma DropFirst(s: seq<Tx>, c: set<Tx>)
    requires Enumerates(s, c) && s != []
    ensures s[0] in c && Enumerates(s[1..], c - {s[0]})
  {
    assert s == [s[0]] + s[1..];
    forall tx
      ensures tx in s[1..] <==> tx in c - {s[0]}
    {
      assert tx in s <==> tx in c;
    }
  }

  lemma DropLast(s: seq<Tx>, c: set<Tx>)
    requires Enumerates(s, c) && s != []
    ensures s[|s| - 1] in c && Enumerates(s[..|s| - 1], c - {s[|s| - 1]})
  {
    var last, init := s[|s| - 1], s[..|s| - 1];
    assert s == init + [last];
    forall tx
      ensures tx in init <==> tx in c - {last}
    {
      assert tx in s <==> tx in c;
    }
  }

  lemma EnumerateOneMore(s: seq<Tx>, c: set<Tx>, tx: Tx)
    requires Enumerates(s, c) && tx !in c
    ensures Enumerates(s + [tx], c + {tx})
  {
    assert forall i :: 0 <= i < |s| ==> s[i] in s;
  }

  lemma EnumerateBoth(s: seq<Tx>, c: set<Tx>, s': seq<Tx>, c': set<Tx>)
    requires Enumerates(s, c) && Enumerates(s', c') && c !! c'
    ensures Enumerates(s + s', c + c')
  {
    assert forall i :: 0 <= i < |s| ==> s[i] in s;
    assert forall i :: 0 <= i < |s'| ==> s'[i] in s';
  }

  lemma EnumerateMore(s: seq<Tx>, s': seq<Tx>, x: set<Tx>, y: set<Tx>, z: set<Tx>)
    requires x <= y <= z && Enumerates(s, y - x) && Enumerates(s', z - y)
    ensures Enumerates(s + s', z - x)
  {
    EnumerateBoth(s, y - x, s', z - y);
    assert z - x == (y - x) + (z - y);
  }

  /** A set of transactions has only one ascending enumeration. */
  lemma {:induction false} AscendingIsUnique(s: seq<Tx>, t: seq<Tx>, c: set<Tx>)
    requires Enumerates(s, c) && Enumerates(t, c) && Ascending(s) && Ascending(t)
    ensures s == t
  {
    EnumerationLength(s, c);
    EnumerationLength(t, c);
    if s != [] {
      assert s[0] in t && t[0] in s;
      DropFirst(s, c);
      DropFirst(t, c);
      AscendingIsUnique(s[1..], t[1..], c - {s[0]});
    }
  }

  /** Cutting an ascending enumeration at a position cuts the set at a nonce. */
  lemma PrefixIsBelow(s: seq<Tx>, c: set<Tx>, k: nat, n: nat)
    requires Enumerates(s, c) && Ascending(s) && k <= |s|
    requires forall i :: 0 <= i < k ==> s[i].nonce < n
    requires forall i :: k <= i < |s| ==> s[i].nonce >= n
    ensures Enumerates(s[..k], Below(c, n)) && k == |Below(c, n)|
    ensures Enumerates(s[k..], AtLeast(c, n))
  {
    assert s == s[..k] + s[k..];
    forall t
      ensures t in s[..k] <==> t in Below(c, n)
      ensures t in s[k..] <==> t in AtLeast(c, n)
    {
      assert t in s <==> t in c;
    }
    EnumerationLength(s[..k], Below(c, n));
  }

  /** The first k entries of an ascending enumeration are the k lowest nonces. */
  lemma PrefixIsLowest(s: seq<Tx>, c: set<Tx>, k: nat)
    requires Enumerates(s, c) && Ascending(s) && k <= |s|
    ensures Enumerates(s[..k], Lowest(c, k)) && |Lowest(c, k)| == k
  {
    forall i | 0 <= i < |s|
      ensures |Below(c, s[i].nonce)| == i
    {
      PrefixIsBelow(s, c, i, s[i].nonce);
    }
    forall t
      ensures t in s[..k] <==> t in Lowest(c, k)
    {
      if t in s[..k] {
        var i :| 0 <= i < k && s[i] == t;
        assert t in s;
      }
      if t in Lowest(c, k) {
        var i :| 0 <= i < |s| && s[i] == t;
        assert i < k;
      }
    }
    EnumerationLength(s[..k], Lowest(c, k));
  }

  // ---- the lowest nonces of a list ----

  lemma {:induction false} Listing(c: set<Tx>) returns (s: seq<Tx>)
    requires OnePerNonce(c)
    ensures Enumerates(s, c) && Ascending(s)
    decreases |c|
  {
    if c == {} {
      return [];
    }
    var first := TxAt(c, First(c));
    Alone(c, first);
    var rest := Listing(c - {first});
    s := [first] + rest;
    forall i | 0 <= i < |rest|
      ensures rest[i] in c && rest[i] != first && first.nonce < rest[i].nonce
    {
      assert rest[i] in rest;
    }
  }

  lemma LowestWhole(c: set<Tx>, k: nat)
    requires k >= |c|
    ensures Lowest(c, k) == c
  {
    forall t | t in c
      ensures |Below(c, t.nonce)| < k
    {
      SubsetSize(Below(c, t.nonce), c - {t});
    }
  }

  lemma LowestSize(c: set<Tx>, k: nat)
    requires OnePerNonce(c)
    ensures |Lowest(c, k)| == if k <= |c| then k else |c|
  {
    if k <= |c| {
      var s := Listing(c);
      EnumerationLength(s, c);
      PrefixIsLowest(s, c, k);
    } else {
      LowestWhole(c, k);
    }
  }

  lemma LowestShorter(c: set<Tx>)
    requires OnePerNonce(c) && c != {}
    ensures c - Lowest(c, |c| - 1) != {}
  {
    var low := Lowest(c, |c| - 1);
    LowestSize(c, |c| - 1);
    assert c == low + (c - low);
  }

  lemma LowestTwice(c: set<Tx>, j: nat, k: nat)
    requires OnePerNonce(c) && j <= k
    ensures Lowest(Lowest(c, k), j) == Lowest(c, j)
  {
    if k >= |c| {
      LowestWhole(c, k);
      return;
    }
    var s := Listing(c);
    EnumerationLength(s, c);
    PrefixIsLowest(s, c, k);
    PrefixIsLowest(s, c, j);
    PrefixIsLowest(s[..k], Lowest(c, k), j);
    assert s[..k][..j] == s[..j];
    assert forall t :: t in Lowest(c, j) <==> t in s[..j];
    assert forall t :: t in Lowest(Lowest(c, k), j) <==> t in s[..j];
  }

  /** Capping a list at one less takes exactly its highest nonce. */
  lemma AllButHighest(c: set<Tx>) returns (top: Tx)
    requires OnePerNonce(c) && c != {}
    ensures top in c && c - Lowest(c, |c| - 1) == {top} && Lowest(c, |c| - 1) == Below(c, top.nonce)
    ensures forall t :: t in c ==> t.nonce <= top.nonce
  {
    var s := Listing(c);
    EnumerationLength(s, c);
    PrefixIsLowest(s, c, |c| - 1);
    top := LastLeft(s, c, Lowest(c, |c| - 1));
  }

  lemma LastLeft(s: seq<Tx>, c: set<Tx>, low: set<Tx>) returns (top: Tx)
    requires Enumerates(s, c) && Ascending(s) && s != [] && Enumerates(s[..|s| - 1], low)
    ensures top in c && c - low == {top} && low == Below(c, top.nonce)
    ensures forall t :: t in c ==> t.nonce <= top.nonce
  {
    top := s[|s| - 1];
    DropLast(s, c);
    SameEnumeration(s[..|s| - 1], low, c - {top});
    LastIsHighest(s, c);
  }

  lemma SameEnumeration(s: seq<Tx>, x: set<Tx>, y: set<Tx>)
    requires Enumerates(s, x) && Enumerates(s, y)
    ensures x == y
  {
    assert forall t :: t in x <==> t in s;
  }

  lemma LastIsHighest(s: seq<Tx>, c: set<Tx>)
    requires Enumerates(s, c) && Ascending(s) && s != []
    ensures forall t :: t in c && t != s[|s| - 1] ==> t.nonce < s[|s| - 1].nonce
  {
    forall t | t in c && t != s[|s| - 1]
      ensures t.nonce < s[|s| - 1].nonce
    {
      assert t in s;
      var i :| 0 <= i < |s| && s[i] == t;
    }
  }
}
