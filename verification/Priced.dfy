/** txLookup, the hash index of the pool, and txPricedList, its price heap with lazy deletion. */
module Priced {
  import opened Transactions
  import opened BinaryHeap

  /** Is the sender of the transaction among the given accounts. */
  predicate ContainsTx(accounts: set<Address>, tx: Tx) {
    tx.signed && tx.sender in accounts
  }

  // ---- the hash index ----

  /** The slots of all given transactions together. */
  ghost function SlotSum(txs: set<Tx>): int {
    if txs == {} then 0
    else
      var t :| t in txs;
      NumSlots(t) + SlotSum(txs - {t})
  }

  lemma {:induction false} SlotSumRemove(txs: set<Tx>, tx: Tx)
    requires tx in txs
    ensures SlotSum(txs) == NumSlots(tx) + SlotSum(txs - {tx})
  {
    var c :| c in txs && SlotSum(txs) == NumSlots(c) + SlotSum(txs - {c});
    if c != tx {
      SlotSumRemove(txs - {c}, tx);
      SlotSumRemove(txs - {tx}, c);
      assert txs - {c} - {tx} == txs - {tx} - {c};
    }
  }

  class TxLookup {
    var all: set<Tx>
    var slots: int

    ghost predicate Valid()
      reads this
    {
      slots == SlotSum(all)
    }

    constructor ()
      ensures Valid() && all == {}
    {
      all, slots := {}, 0;
    }

    /** Adding a transaction that is already indexed counts its slots twice. */
    method Add(tx: Tx)
      requires Valid()
      modifies this
      ensures all == old(all) + {tx} && slots == old(slots) + NumSlots(tx)
      ensures Valid() <==> tx !in old(all) || NumSlots(tx) == 0
    {
      slots := slots + NumSlots(tx);
      all := all + {tx};
      if tx in old(all) {
        assert all == old(all);
      } else {
        SlotSumRemove(all, tx);
        assert all - {tx} == old(all);
      }
    }

    /** The Go code dereferences the entry to count its slots: a missing hash would crash. */
    method Remove(tx: Tx)
      requires Valid() && tx in all
      modifies this
      ensures Valid() && all == old(all) - {tx}
    {
      SlotSumRemove(all, tx);
      slots := slots - NumSlots(tx);
      all := all - {tx};
    }
  }

  // ---- the lazy heap against the index ----

  /** Every pooled transaction has an entry in the heap. */
  ghost predicate Tracked(all: set<Tx>, items: seq<Tx>) {
    forall tx :: tx in all ==> tx in items
  }

  /** No pooled transaction has a second entry. */
  ghost predicate Single(all: set<Tx>, items: seq<Tx>) {
    forall tx :: tx in all ==> multiset(items)[tx] == 1
  }

  /** Entries whose transaction left the pool. */
  ghost function CountDead(all: set<Tx>, items: seq<Tx>): nat {
    if items == [] then 0 else (if items[0] in all then 0 else 1) + CountDead(all, items[1..])
  }

  /** Entries whose transaction is pooled. */
  ghost function CountLive(all: set<Tx>, bag: multiset<Tx>): nat {
    if all == {} then 0
    else
      var t :| t in all;
      bag[t] + CountLive(all - {t}, bag)
  }

  lemma {:induction false} DeadSplit(all: set<Tx>, items: seq<Tx>)
    ensures CountDead(all, items) + CountLive(all, multiset(items)) == |items|
  {
    if all == {} {
      AllDead(items);
    } else {
      var t :| t in all && CountLive(all, multiset(items)) == multiset(items)[t] + CountLive(all - {t},
          multiset(items));
      DeadSplit(all - {t}, items);
      OneMoreDead(all, items, t);
    }
  }

  lemma {:induction false} AllDead(items: seq<Tx>)
    ensures CountDead({}, items) == |items|
  {
    if items != [] {
      AllDead(items[1..]);
    }
  }

  lemma {:induction false} OneMoreDead(all: set<Tx>, items: seq<Tx>, tx: Tx)
    requires tx in all
    ensures CountDead(all - {tx}, items) == CountDead(all, items) + multiset(items)[tx]
  {
    if items != [] {
      OneMoreDead(all, items[1..], tx);
      assert items == [items[0]] + items[1..];
    }
  }

  lemma {:induction false} LiveBound(all: set<Tx>, bag: multiset<Tx>)
    requires forall t :: t in all ==> bag[t] >= 1
    ensures CountLive(all, bag) >= |all|
    ensures CountLive(all, bag) == |all| <==> forall t :: t in all ==> bag[t] == 1
  {
    if all != {} {
      var t :| t in all && CountLive(all, bag) == bag[t] + CountLive(all - {t}, bag);
      LiveBound(all - {t}, bag);
    }
  }

  /** When the counter balances heap and index, it is the number of dead entries exactly
      when no pooled transaction has two entries. */
  lemma StalesAreDead(all: set<Tx>, items: seq<Tx>, stales: int)
    requires Tracked(all, items) && stales + |all| == |items|
    ensures CountDead(all, items) <= stales
    ensures stales == CountDead(all, items) <==> Single(all, items)
  {
    DeadSplit(all, items);
    assert forall t :: t in all ==> t in multiset(items);
    LiveBound(all, multiset(items));
  }

  /** What Removed leaves behind: the counter raised, or the heap rebuilt from the index. */
  ghost predicate AfterRemoved(all: set<Tx>, items: seq<Tx>, stales: int, count: nat, items': seq<Tx>, stales': int) {
    if stales + count <= |items| / 4 then items' == items && stales' == stales + count
    else stales' == 0 && multiset(items') == multiset(all)
  }

  // ---- the heap order ----

  /** Cheapest first; of equally priced transactions the higher nonce is worse. */
  function RankOf(tx: Tx): Rank { (tx.price as int, -(tx.nonce as int)) }

  /** Said outright: cheaper, or as cheap and with no lower nonce. */
  ghost predicate NotBetter(x: Tx, y: Tx) {
    x.price < y.price || (x.price == y.price && x.nonce >= y.nonce)
  }

  /** Nothing that went is better than a remote transaction that stayed. Folded: `OpenWorst` is always true. */
  ghost predicate WorstWent(gone: set<Tx>, stayed: set<Tx>, locals: set<Address>) {
    forall key {:trigger OpenWorst(key)} :: OpenWorst(key) ==>
      forall x, y :: x in gone && y in stayed && !ContainsTx(locals, y) ==> NotBetter(x, y)
  }

  predicate OpenWorst(key: int) { true }

  lemma WorstWentPart(gone: set<Tx>, stayed: set<Tx>, locals: set<Address>, gone': set<Tx>, stayed': set<Tx>)
    requires WorstWent(gone, stayed, locals) && gone' <= gone && stayed' <= stayed
    ensures WorstWent(gone', stayed', locals)
  {
    assert OpenWorst(0);
  }

  const PriceRank: Tx -> Rank := (tx: Tx) => RankOf(tx)

  ghost predicate IsPriceHeap(items: seq<Tx>) {
    forall key {:trigger Look(key)} :: Look(key) ==>
      forall k: nat :: 0 < k < |items| ==> Leq(RankOf(items[Parent(k)]), RankOf(items[k]))
  }

  /** Always true. Keeps the definition above folded: a proof that uses it says `assert Look(0)`. */
  predicate Look(key: int) { true }

  lemma PriceHeap(items: seq<Tx>)
    ensures IsPriceHeap(items) <==> IsHeap(items, PriceRank)
  {
    assert Look(0);
    forall k: nat | 0 < k < |items|
      ensures Edge(items, PriceRank, k) <==> Leq(RankOf(items[Parent(k)]), RankOf(items[k]))
    {
    }
  }

  lemma CheapestFirst(items: seq<Tx>)
    requires IsPriceHeap(items) && |items| > 0
    ensures forall y :: y in items ==> Leq(RankOf(items[0]), RankOf(y)) && NotBetter(items[0], y)
  {
    PriceHeap(items);
    RootIsLeastOfAll(items, PriceRank);
  }

  method PopCheapest(items: seq<Tx>) returns (tx: Tx, rest: seq<Tx>)
    requires IsPriceHeap(items) && |items| > 0
    ensures IsPriceHeap(rest) && multiset(items) == multiset(rest) + multiset{tx} && |items| == |rest| + 1
    ensures tx == items[0] && forall y :: y in items ==> Leq(RankOf(tx), RankOf(y))
  {
    PriceHeap(items);
    tx, rest := Pop(items, PriceRank);
    PriceHeap(rest);
  }

  // ---- popping through the heap ----

  /** Entries popped so far: `gone` were dead, `save` stay in the pool, `drop` are to leave it. */
  ghost predicate Sifting(all: set<Tx>, locals: set<Address>, bag: multiset<Tx>,
                          items: seq<Tx>, save: seq<Tx>, drop: seq<Tx>, gone: multiset<Tx>) {
    IsPriceHeap(items) && forall key {:trigger Sifted(key)} :: Sifted(key) ==>
      && bag == multiset(items) + multiset(save) + multiset(drop) + gone
      && (forall tx :: tx in gone ==> tx !in all)
      && (forall tx :: tx in drop ==> tx in all && !ContainsTx(locals, tx))
      && (forall x, y :: x in drop && y in items ==> Leq(RankOf(x), RankOf(y)))
  }

  /** Always true; folds the definition above. */
  predicate Sifted(key: int) { true }

  lemma SiftPop(all: set<Tx>, locals: set<Address>, bag: multiset<Tx>, items: seq<Tx>, save: seq<Tx>, drop: seq<Tx>,
                gone: multiset<Tx>, tx: Tx, rest: seq<Tx>)
    requires Sifting(all, locals, bag, items, save, drop, gone)
    requires multiset(items) == multiset(rest) + multiset{tx} && IsPriceHeap(rest)
    requires forall y :: y in items ==> Leq(RankOf(tx), RankOf(y))
    ensures tx !in all ==> Sifting(all, locals, bag, rest, save, drop, gone + multiset{tx})
    ensures Sifting(all, locals, bag, rest, save + [tx], drop, gone)
    ensures tx in all && !ContainsTx(locals, tx) ==> Sifting(all, locals, bag, rest, save, drop + [tx], gone)
  {
    assert Sifted(0);
    forall y | y in rest
      ensures y in items
    {
      assert y in multiset(items);
    }
  }

  function SlotTotal(txs: seq<Tx>): int {
    if txs == [] then 0 else SlotTotal(txs[..|txs| - 1]) + NumSlots(txs[|txs| - 1])
  }

  /** Without its last member the list would not have freed enough. */
  predicate NoMoreThanNeeded(drop: seq<Tx>, slots: int) {
    drop != [] ==> SlotTotal(drop[..|drop| - 1]) < slots
  }

  lemma DropOneMore(drop: seq<Tx>, tx: Tx, slots: int)
    requires SlotTotal(drop) < slots
    ensures NoMoreThanNeeded(drop + [tx], slots) && SlotTotal(drop + [tx]) == SlotTotal(drop) + NumSlots(tx)
  {
    assert (drop + [tx])[..|drop|] == drop;
  }

  class TxPricedList {
    const all: TxLookup
    var items: seq<Tx>
    var stales: int

    ghost predicate Valid()
      reads this
    {
      IsPriceHeap(items)
    }

    /** Does counting that many more stale entries trigger a rebuild. */
    predicate Rebuilds(count: nat)
      reads this
    {
      stales + count > |items| / 4
    }

    constructor (all: TxLookup)
      ensures Valid() && this.all == all && items == [] && stales == 0
    {
      this.all := all;
      items, stales := [], 0;
    }

    method Put(tx: Tx)
      requires Valid()
      modifies this`items
      ensures Valid() && multiset(items) == multiset(old(items)) + multiset{tx} && |items| == |old(items)| + 1
    {
      PriceHeap(items);
      items := Push(items, PriceRank, tx);
      PriceHeap(items);
    }

    /** Counts entries that went stale; past a quarter of the heap, rebuilds it from the index. */
    method Removed(count: nat)
      requires Valid()
      modifies this
      ensures Valid()
      ensures AfterRemoved(all.all, old(items), old(stales), count, items, stales)
    {
      stales := stales + count;
      if stales <= |items| / 4 {
        return;
      }
      stales := 0;
      var reheap := Values(all.all);
      items := Init(reheap, PriceRank);
      PriceHeap(items);
    }

    static method Values(all: set<Tx>) returns (txs: seq<Tx>)
      ensures multiset(txs) == multiset(all)
    {
      txs := [];
      var todo := all;
      while todo != {}
        invariant todo <= all && multiset(txs) == multiset(all - todo)
        decreases todo
      {
        var tx :| tx in todo;
        assert all - (todo - {tx}) == (all - todo) + {tx};
        txs := txs + [tx];
        todo := todo - {tx};
      }
      assert all - {} == all;
    }

    /** Puts saved entries back. */
    method PushAll(save: seq<Tx>)
      requires Valid()
      modifies this`items
      ensures Valid() && multiset(items) == multiset(old(items)) + multiset(save)
    {
      for i := 0 to |save|
        invariant Valid() && multiset(items) == multiset(old(items)) + multiset(save[..i])
      {
        assert save[..i + 1] == save[..i] + [save[i]];
        Put(save[i]);
      }
      assert save[..|save|] == save;
    }

    /** Removes from the heap every live remote entry below the threshold, and returns them. */
    method Cap(threshold: nat, locals: set<Address>) returns (drop: seq<Tx>, ghost gone: multiset<Tx>)
      requires Valid()
      modifies this
      ensures Valid()
      ensures multiset(old(items)) == multiset(items) + multiset(drop) + gone
      ensures old(stales) - stales == |gone| && forall tx :: tx in gone ==> tx !in all.all
      ensures forall tx :: tx in drop ==> tx in all.all && !ContainsTx(locals, tx) && tx.price < threshold
      ensures forall tx :: tx in items && tx in all.all && !ContainsTx(locals, tx) ==> tx.price >= threshold
    {
      var save;
      drop, save, gone := PopBelow(threshold, locals);
      assert Sifted(0);
      ghost var left := items;
      PushAll(save);
      InEither(items, left, save);
    }

    method PopBelow(threshold: nat, locals: set<Address>)
      returns (drop: seq<Tx>, save: seq<Tx>, ghost gone: multiset<Tx>)
      requires Valid()
      modifies this
      ensures Sifting(all.all, locals, multiset(old(items)), items, save, drop, gone)
      ensures old(stales) - stales == |gone|
      ensures forall tx :: tx in drop ==> tx.price < threshold
      ensures forall tx :: tx in save ==> ContainsTx(locals, tx) || tx.price >= threshold
      ensures forall tx :: tx in items ==> tx.price >= threshold
    {
      drop, save, gone := [], [], multiset{};
      while |items| > 0
        invariant Sifting(all.all, locals, multiset(old(items)), items, save, drop, gone)
        invariant old(stales) - stales == |gone|
        invariant forall tx :: tx in drop ==> tx.price < threshold
        invariant forall tx :: tx in save ==> ContainsTx(locals, tx) || tx.price >= threshold
        decreases |items|
      {
        ghost var before := items;
        var tx;
        tx, items := PopCheapest(items);
        SiftPop(all.all, locals, multiset(old(items)), before, save, drop, gone, tx, items);
        if tx !in all.all {
          stales, gone := stales - 1, gone + multiset{tx};
        } else if tx.price >= threshold {
          save := save + [tx];
          InEither(before, items, [tx]);
          break;
        } else if ContainsTx(locals, tx) {
          save := save + [tx];
        } else {
          drop := drop + [tx];
        }
      }
    }

    /** Is a remote transaction no dearer than the cheapest pooled one. Drops dead heads on the way. */
    method Underpriced(tx: Tx, locals: set<Address>) returns (under: bool, ghost gone: multiset<Tx>)
      requires Valid()
      modifies this
      ensures Valid()
      ensures multiset(old(items)) == multiset(items) + gone
      ensures old(stales) - stales == |gone| && forall t :: t in gone ==> t !in all.all
      ensures ContainsTx(locals, tx) ==> !under
      ensures !ContainsTx(locals, tx) && Tracked(all.all, old(items)) ==>
                (under <==> all.all != {} && forall t :: t in all.all ==> tx.price <= t.price)
    {
      gone := multiset{};
      if ContainsTx(locals, tx) {
        return false, gone;
      }
      while |items| > 0 && items[0] !in all.all
        invariant Sifting(all.all, {}, multiset(old(items)), items, [], [], gone)
        invariant old(stales) - stales == |gone|
        decreases |items|
      {
        ghost var before := items;
        stales := stales - 1;
        var head;
        head, items := PopCheapest(items);
        SiftPop(all.all, {}, multiset(old(items)), before, [], [], gone, head, items);
        gone := gone + multiset{head};
      }
      assert Sifted(0);
      StillTracked(all.all, old(items), items, gone);
      if |items| == 0 {
        assert Tracked(all.all, old(items)) ==> all.all == {};
        return false, gone;
      }
      under := items[0].price >= tx.price;
      CheapestFirst(items);
    }

    /** Removes live remote entries, worst first, until `slots` slots are freed. */
    method Discard(slots: int, locals: set<Address>) returns (drop: seq<Tx>, ghost gone: multiset<Tx>)
      requires Valid()
      modifies this
      ensures Valid()
      ensures multiset(old(items)) == multiset(items) + multiset(drop) + gone
      ensures old(stales) - stales == |gone| && forall tx :: tx in gone ==> tx !in all.all
      ensures forall tx :: tx in drop ==> tx in all.all && !ContainsTx(locals, tx)
      ensures WorstWent((set x | x in drop), (set y | y in items && y in all.all), locals)
      ensures SlotTotal(drop) >= slots || forall tx :: tx in items && tx in all.all ==> ContainsTx(locals, tx)
      ensures NoMoreThanNeeded(drop, slots)
    {
      var save;
      drop, save, gone := PopSlots(slots, locals);
      assert Sifted(0);
      ghost var left := items;
      PushAll(save);
      InEither(items, left, save);
    }

    method PopSlots(slots: int, locals: set<Address>) returns (drop: seq<Tx>, save: seq<Tx>, ghost gone: multiset<Tx>)
      requires Valid()
      modifies this
      ensures Sifting(all.all, locals, multiset(old(items)), items, save, drop, gone)
      ensures old(stales) - stales == |gone|
      ensures SlotTotal(drop) >= slots || items == []
      ensures NoMoreThanNeeded(drop, slots)
      ensures forall tx :: tx in save ==> ContainsTx(locals, tx)
    {
      drop, save, gone := [], [], multiset{};
      var want := slots;
      while |items| > 0 && want > 0
        invariant Sifting(all.all, locals, multiset(old(items)), items, save, drop, gone)
        invariant old(stales) - stales == |gone|
        invariant want == slots - SlotTotal(drop)
        invariant NoMoreThanNeeded(drop, slots)
        invariant forall tx :: tx in save ==> ContainsTx(locals, tx)
        decreases |items|
      {
        ghost var before := items;
        var tx;
        tx, items := PopCheapest(items);
        SiftPop(all.all, locals, multiset(old(items)), before, save, drop, gone, tx, items);
        if tx !in all.all {
          stales, gone := stales - 1, gone + multiset{tx};
        } else if ContainsTx(locals, tx) {
          save := save + [tx];
        } else {
          DropOneMore(drop, tx, slots);
          drop := drop + [tx];
          want := want - NumSlots(tx);
        }
      }
    }
  }

  lemma InEither(whole: seq<Tx>, a: seq<Tx>, b: seq<Tx>)
    requires multiset(whole) == multiset(a) + multiset(b)
    ensures forall tx :: tx in whole <==> tx in a || tx in b
  {
    forall tx
      ensures tx in whole <==> tx in a || tx in b
    {
      assert tx in multiset(whole) <==> tx in multiset(a) || tx in multiset(b);
    }
  }

  lemma StillTracked(all: set<Tx>, before: seq<Tx>, items: seq<Tx>, gone: multiset<Tx>)
    requires multiset(before) == multiset(items) + gone
    requires forall t :: t in gone ==> t !in all
    ensures Tracked(all, before) ==> Tracked(all, items)
  {
    if Tracked(all, before) {
      forall tx | tx in all
        ensures tx in items
      {
        assert tx in multiset(before);
        assert tx in multiset(items);
      }
    }
  }
}
