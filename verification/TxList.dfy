/** txList: one account's transactions with the cached caps that let Filter skip its work. */
module TxLists {
  import opened Basics
  import opened Transactions
  import opened SortedMap

  ghost predicate Capped(c: set<Tx>, costcap: int, gascap: nat) {
    forall t :: t in c ==> Cost(t) <= costcap && t.gas <= gascap
  }

  class TxList {
    const strict: bool
    const txs: TxSortedMap
    var costcap: int
    var gascap: nat

    /** The caps bound every transaction in the list. */
    ghost predicate Valid()
      reads this, txs
    {
      txs.Valid() && Capped(txs.Contents(), costcap, gascap)
    }

    ghost function Contents(): set<Tx>
      reads this, txs
    {
      txs.Contents()
    }

    constructor (strict: bool)
      ensures Valid() && this.strict == strict && Contents() == {} && costcap == gascap == 0 && fresh(txs)
    {
      this.strict := strict;
      txs := new TxSortedMap();
      costcap, gascap := 0, 0;
    }

    /** Inserts unless the slot is taken by a transaction that the new one does not outbid. */
    method Add(tx: Tx, priceBump: nat) returns (inserted: bool, prior: Option<Tx>)
      requires Valid()
      modifies this, txs
      ensures Valid() && OnePerNonce(old(Contents()))
      ensures prior.Some? ==>
                inserted && Occupied(old(Contents()), tx.nonce) && prior.value == TxAt(old(Contents()), tx.nonce)
      ensures inserted <==> (Occupied(old(Contents()), tx.nonce) ==>
                Outbids(TxAt(old(Contents()), tx.nonce), tx, priceBump))
      ensures inserted ==>
                Contents() == Placed(old(Contents()), tx) && (prior.Some? <==> Occupied(old(Contents()), tx.nonce))
      ensures !inserted ==> unchanged(this) && unchanged(txs)
      ensures Contents() == Offered(old(Contents()), tx, priceBump)
      ensures inserted ==>
                && old(costcap) <= costcap && Cost(tx) <= costcap && (costcap == old(costcap) || costcap == Cost(tx))
                && gascap == Greater(old(gascap), tx.gas)
    {
      prior := txs.Get(tx.nonce);
      if prior.Some? {
        var threshold := prior.value.price * (100 + priceBump) / 100;
        if prior.value.price >= tx.price || threshold > tx.price {
          return false, None;
        }
      }
      txs.Put(tx);
      if costcap < Cost(tx) {
        costcap := Cost(tx);
      }
      if gascap < tx.gas {
        gascap := tx.gas;
      }
      inserted := true;
    }

    method Forward(threshold: nat) returns (removed: seq<Tx>)
      requires Valid()
      modifies txs
      ensures Valid() && Contents() == AtLeast(old(Contents()), threshold)
      ensures Enumerates(removed, Below(old(Contents()), threshold)) && Ascending(removed)
    {
      removed := txs.Forward(threshold);
    }

    /** The cap test at the top only saves work: the outcome is that of filtering every transaction. */
    method Filter(costLimit: int, gasLimit: nat) returns (removed: seq<Tx>, invalids: seq<Tx>)
      requires Valid()
      modifies this, txs
      ensures Valid() && Contents() == Kept(old(Contents()), strict, costLimit, gasLimit)
      ensures Enumerates(removed, Unpayable(old(Contents()), costLimit, gasLimit))
      ensures Enumerates(invalids, if strict then Invalidated(old(Contents()), costLimit, gasLimit) else {})
      ensures if old(costcap) <= costLimit && old(gascap) <= gasLimit then unchanged(this) && unchanged(txs)
              else costcap == costLimit && gascap == gasLimit
    {
      if costcap <= costLimit && gascap <= gasLimit {
        NothingUnpayable(Contents(), strict, costLimit, gasLimit);
        return [], [];
      }
      costcap, gascap := costLimit, gasLimit;
      ghost var was := Contents();
      removed := txs.Filter(TooDear(costLimit, gasLimit));
      invalids := [];
      if strict && |removed| > 0 {
        var lowest := LowestNonce(removed);
        invalids := txs.Filter(Over(lowest));
        StrictFilter(was, removed, lowest, costLimit, gasLimit);
      } else {
        LooseFilter(was, removed, strict, costLimit, gasLimit);
      }
    }

    method Cap(threshold: nat) returns (drops: seq<Tx>)
      requires Valid()
      modifies txs
      ensures Valid() && Contents() == Lowest(old(Contents()), threshold)
      ensures Enumerates(drops, old(Contents()) - Contents()) && Descending(drops)
    {
      drops := txs.Cap(threshold);
    }

    /** Removes whatever sits at the transaction's nonce, and in strict mode everything above it. */
    method Remove(tx: Tx) returns (found: bool, invalids: seq<Tx>)
      requires Valid()
      modifies txs
      ensures Valid() && found == Occupied(old(Contents()), tx.nonce)
      ensures Contents() ==
                if !found then old(Contents())
                else if strict then Below(old(Contents()), tx.nonce)
                else set t | t in old(Contents()) && t.nonce != tx.nonce
      ensures Enumerates(invalids, if found && strict then AtLeast(old(Contents()), tx.nonce + 1) else {})
    {
      ghost var was := Contents();
      found := txs.Remove(tx.nonce);
      invalids := [];
      if found {
        OverRemoved(was, tx.nonce);
        if strict {
          invalids := txs.Filter(Over(tx.nonce));
        }
      }
    }

    method TakeReady(start: nat) returns (ready: seq<Tx>)
      requires Valid()
      modifies txs
      ensures Valid() && Contents() == old(Contents()) - Ready(old(Contents()), start)
      ensures Enumerates(ready, Ready(old(Contents()), start)) && Ascending(ready)
    {
      ready := txs.TakeReady(start);
    }
  }

  method LowestNonce(txs: seq<Tx>) returns (lowest: nat)
    requires |txs| > 0
    ensures exists i :: 0 <= i < |txs| && txs[i].nonce == lowest
    ensures forall i :: 0 <= i < |txs| ==> lowest <= txs[i].nonce
  {
    lowest := txs[0].nonce;
    for i := 1 to |txs|
      invariant exists j :: 0 <= j < i && txs[j].nonce == lowest
      invariant forall j :: 0 <= j < i ==> lowest <= txs[j].nonce
    {
      if lowest > txs[i].nonce {
        lowest := txs[i].nonce;
      }
    }
  }

  // The two filters that Filter and Remove hand to the sorted map.
  function TooDear(costLimit: int, gasLimit: nat): Tx -> bool { tx => !Payable(tx, costLimit, gasLimit) }
  function Over(nonce: nat): Tx -> bool { (tx: Tx) => tx.nonce > nonce }

  lemma NothingUnpayable(c: set<Tx>, strict: bool, costLimit: int, gasLimit: nat)
    requires Capped(c, costLimit, gasLimit)
    ensures Kept(c, strict, costLimit, gasLimit) == c
    ensures Unpayable(c, costLimit, gasLimit) == {} && Invalidated(c, costLimit, gasLimit) == {}
  {
    assert forall t :: t in c ==> Payable(t, costLimit, gasLimit);
  }

  lemma OverRemoved(c: set<Tx>, n: nat)
    requires OnePerNonce(c) && Occupied(c, n)
    ensures c - {TxAt(c, n)} == set t | t in c && t.nonce != n
    ensures Dropped(c - {TxAt(c, n)}, Over(n)) == AtLeast(c, n + 1)
    ensures c - {TxAt(c, n)} - AtLeast(c, n + 1) == Below(c, n)
  {
    Alone(c, TxAt(c, n));
  }

  lemma LooseFilter(c: set<Tx>, removed: seq<Tx>, strict: bool, costLimit: int, gasLimit: nat)
    requires Enumerates(removed, Dropped(c, TooDear(costLimit, gasLimit))) && (strict ==> removed == [])
    ensures Enumerates(removed, Unpayable(c, costLimit, gasLimit))
    ensures c - Dropped(c, TooDear(costLimit, gasLimit)) == Kept(c, strict, costLimit, gasLimit)
    ensures strict ==> Invalidated(c, costLimit, gasLimit) == {}
  {
    assert Dropped(c, TooDear(costLimit, gasLimit)) == Unpayable(c, costLimit, gasLimit);
    if strict {
      assert forall t :: t in c ==> t !in Unpayable(c, costLimit, gasLimit);
    }
  }

  lemma StrictFilter(c: set<Tx>, removed: seq<Tx>, lowest: nat, costLimit: int, gasLimit: nat)
    requires OnePerNonce(c) && Enumerates(removed, Dropped(c, TooDear(costLimit, gasLimit)))
    requires exists i :: 0 <= i < |removed| && removed[i].nonce == lowest
    requires forall i :: 0 <= i < |removed| ==> lowest <= removed[i].nonce
    ensures Enumerates(removed, Unpayable(c, costLimit, gasLimit))
    ensures var mid := c - Dropped(c, TooDear(costLimit, gasLimit));
            && Dropped(mid, Over(lowest)) == Invalidated(c, costLimit, gasLimit)
            && mid - Dropped(mid, Over(lowest)) == Kept(c, true, costLimit, gasLimit)
  {
    assert Dropped(c, TooDear(costLimit, gasLimit)) == Unpayable(c, costLimit, gasLimit);
    var i :| 0 <= i < |removed| && removed[i].nonce == lowest;
    var worst := removed[i];
    assert worst in removed;
    assert forall t :: t in c && t.nonce < lowest ==> t !in removed;
    forall t | t in c && Payable(t, costLimit, gasLimit)
      ensures t.nonce > lowest <==> exists u :: u in c && u.nonce < t.nonce && !Payable(u, costLimit, gasLimit)
    {
      if t.nonce > lowest {
        assert worst.nonce < t.nonce && !Payable(worst, costLimit, gasLimit);
      }
    }
  }
}
