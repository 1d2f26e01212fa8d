/** The pool's account maps as values, the invariants that tie them to the hash index,
    the price heap and the nonces, and the lemmas each pool operation rests on. */
module PoolState {
  import opened Transactions
  import opened Noncer
  import opened Priced
  import opened BinaryHeap

  /** pending or queue: the accounts that have a list, and the transactions in all lists.
      An account's list is what it sent. */
  datatype Accounts = Accounts(keys: set<Address>, txs: set<Tx>)

  const NO_ACCOUNTS := Accounts({}, {})

  function ListOf(m: Accounts, a: Address): set<Tx> {
    set t | t in m.txs && t.sender == a
  }

  /** Replace an account's list, removing the account when the list is empty. */
  function WithList(m: Accounts, a: Address, list: set<Tx>): Accounts {
    Accounts(if list == {} then m.keys - {a} else m.keys + {a}, (m.txs - ListOf(m, a)) + list)
  }

  ghost predicate SentBy(list: set<Tx>, a: Address) {
    forall t :: t in list ==> t.sender == a
  }

  lemma WithListOf(m: Accounts, a: Address, list: set<Tx>)
    requires SentBy(list, a)
    ensures ListOf(WithList(m, a, list), a) == list
    ensures forall b :: b != a ==> ListOf(WithList(m, a, list), b) == ListOf(m, b)
  {
  }

  /** Exactly the accounts with a non-empty list are present. */
  ghost predicate NoEmptyList(m: Accounts) {
    forall a :: a in m.keys <==> ListOf(m, a) != {}
  }

  lemma WithListNoEmpty(m: Accounts, a: Address, list: set<Tx>)
    requires NoEmptyList(m) && SentBy(list, a)
    ensures NoEmptyList(WithList(m, a, list))
  {
    WithListOf(m, a, list);
  }

  lemma SameList(m: Accounts, a: Address)
    requires a in m.keys <==> ListOf(m, a) != {}
    ensures WithList(m, a, ListOf(m, a)) == m
  {
    assert m.txs - ListOf(m, a) + ListOf(m, a) == m.txs;
  }

  predicate SameSlot(x: Tx, y: Tx) { x.sender == y.sender && x.nonce == y.nonce }

  /** No (account, nonce) slot is taken twice. */
  ghost predicate OnePerSlot(txs: set<Tx>) {
    forall x, y {:trigger SameSlot(x, y)} :: x in txs && y in txs && SameSlot(x, y) ==> x == y
  }

  /** The index is exactly the union of the disjoint maps, over slots taken once, and no list is empty. */
  ghost predicate Coherent(p: Accounts, q: Accounts, all: set<Tx>) {
    forall key {:trigger OpenBooks(key)} :: OpenBooks(key) ==>
      && NoEmptyList(p) && NoEmptyList(q)
      && p.txs !! q.txs && all == p.txs + q.txs
      && OnePerSlot(all)
      && forall t :: t in all ==> t.signed
  }

  // Always true. They keep the definitions that mention them folded: a proof that looks inside
  // such a definition calls Unfold, every other proof passes it on as a name.
  predicate OpenBooks(key: int) { true }

  predicate OpenMove(key: int) { true }

  predicate OpenDelta(key: int) { true }

  predicate OpenDrain(key: int) { true }

  predicate OpenDemote(key: int) { true }

  predicate OpenLower(key: int) { true }

  predicate OpenAdmit(key: int) { true }

  lemma Unfold()
    ensures OpenBooks(0) && OpenMove(0) && OpenDelta(0)
  {
  }

  /** What Coherent says about slots: pending and queue never share one. */
  lemma SlotsDisjoint(p: Accounts, q: Accounts, all: set<Tx>, x: Tx, y: Tx)
    requires Coherent(p, q, all) && x in p.txs && y in q.txs
    ensures !SameSlot(x, y)
  {
    Unfold();
    assert x in all && y in all;
  }

  /** Every operation that only moves or removes transactions of one account is an instance:
      its new lists share out some of its old transactions, and the index lost the rest. */
  lemma Relist(p: Accounts, q: Accounts, all: set<Tx>, a: Address, p': set<Tx>, q': set<Tx>, all': set<Tx>)
    requires Coherent(p, q, all)
    requires p' !! q' && p' + q' <= ListOf(p, a) + ListOf(q, a)
    requires all' == all - (ListOf(p, a) + ListOf(q, a)) + p' + q'
    ensures Coherent(WithList(p, a, p'), WithList(q, a, q'), all')
  {
    Unfold();
    assert SentBy(p', a) && SentBy(q', a);
    WithListNoEmpty(p, a, p');
    WithListNoEmpty(q, a, q');
  }

  /** A transaction enters a map over any prior one there, its slot being free in the other map. */
  lemma EnterQueue(p: Accounts, q: Accounts, all: set<Tx>, tx: Tx)
    requires Coherent(p, q, all) && tx.signed && !Occupied(ListOf(p, tx.sender), tx.nonce)
    ensures Coherent(p, Entered(q, tx), EnteredIndex(q, all, tx))
  {
    Unfold();
    var list := ListOf(q, tx.sender);
    assert SentBy(Placed(list, tx), tx.sender);
    WithListNoEmpty(q, tx.sender, Placed(list, tx));
    assert forall t :: t in p.txs && t.sender == tx.sender ==> t in ListOf(p, tx.sender);
    assert forall t :: t in p.txs ==> !SameSlot(t, tx);
    assert SameSlot(tx, tx);
  }

  lemma ReplacePending(p: Accounts, q: Accounts, all: set<Tx>, tx: Tx)
    requires Coherent(p, q, all) && tx.signed && Occupied(ListOf(p, tx.sender), tx.nonce)
    ensures Coherent(Entered(p, tx), q, EnteredIndex(p, all, tx))
  {
    Unfold();
    forall t | t in ListOf(q, tx.sender)
      ensures t.nonce != tx.nonce
    {
      var prior :| prior in ListOf(p, tx.sender) && prior.nonce == tx.nonce;
      SlotsDisjoint(p, q, all, prior, t);
    }
    EnterQueue(q, p, all, tx);
  }

  /** The map after `tx` took its slot. */
  function Entered(m: Accounts, tx: Tx): Accounts {
    WithList(m, tx.sender, Placed(ListOf(m, tx.sender), tx))
  }

  /** The index after `tx` took its slot in `m`. */
  function EnteredIndex(m: Accounts, all: set<Tx>, tx: Tx): set<Tx> {
    (set t | t in all && !(t in m.txs && SameSlot(t, tx))) + {tx}
  }

  lemma EnterSteps(m: Accounts, all: set<Tx>, tx: Tx)
    requires OnePerNonce(ListOf(m, tx.sender)) && m.txs <= all && tx !in m.txs
    ensures Occupied(ListOf(m, tx.sender), tx.nonce) ==>
              TxAt(ListOf(m, tx.sender), tx.nonce) in all &&
                  EnteredIndex(m, all, tx) == all - {TxAt(ListOf(m, tx.sender), tx.nonce)} + {tx}
    ensures !Occupied(ListOf(m, tx.sender), tx.nonce) ==> EnteredIndex(m, all, tx) == all + {tx}
  {
    var list := ListOf(m, tx.sender);
    if Occupied(list, tx.nonce) {
      Alone(list, TxAt(list, tx.nonce));
    }
    assert forall t :: t in m.txs && SameSlot(t, tx) <==> t in list && t.nonce == tx.nonce;
  }

  /** Is the slot of `tx` held by another pooled transaction. */
  ghost predicate SlotTaken(all: set<Tx>, tx: Tx) {
    exists t :: t in all && SameSlot(t, tx)
  }

  /** The pool without whatever holds the slot of `tx`. */
  function SlotFreed(all: set<Tx>, tx: Tx): set<Tx> {
    set t | t in all && !SameSlot(t, tx)
  }

  /** Does `tx` outbid whatever holds its slot. */
  ghost predicate OutbidsHolders(all: set<Tx>, tx: Tx, bump: nat) {
    forall t :: t in all && SameSlot(t, tx) ==> Outbids(t, tx, bump)
  }

  /** A slot's holder is the pending or else the queued transaction at its nonce. */
  lemma SlotHolder(p: Accounts, q: Accounts, all: set<Tx>, tx: Tx, bump: nat)
    requires Coherent(p, q, all) && tx !in all
    ensures var lp, lq := ListOf(p, tx.sender), ListOf(q, tx.sender);
            && OnePerNonce(lp) && OnePerNonce(lq)
            && (SlotTaken(all, tx) <==> Occupied(lp, tx.nonce) || Occupied(lq, tx.nonce))
            && (Occupied(lp, tx.nonce) ==>
                  && (OutbidsHolders(all, tx, bump) <==> Outbids(TxAt(lp, tx.nonce), tx, bump))
                  && EnteredIndex(p, all, tx) == SlotFreed(all, tx) + {tx})
            && (!Occupied(lp, tx.nonce) ==>
                  && (OutbidsHolders(all, tx, bump) <==>
                       (Occupied(lq, tx.nonce) ==> Outbids(TxAt(lq, tx.nonce), tx, bump)))
                  && EnteredIndex(q, all, tx) == SlotFreed(all, tx) + {tx})
  {
    Unfold();
    IndexHolds(p, q, all, tx.sender);
    var lp, lq := ListOf(p, tx.sender), ListOf(q, tx.sender);
    assert forall t :: t in all && SameSlot(t, tx) ==> t in lp || t in lq;
    if Occupied(lp, tx.nonce) {
      HolderIs(all, lp, tx);
    } else if Occupied(lq, tx.nonce) {
      HolderIs(all, lq, tx);
    }
  }

  lemma HolderIs(all: set<Tx>, list: set<Tx>, tx: Tx)
    requires OnePerSlot(all) && list <= all && SentBy(list, tx.sender) && OnePerNonce(list) && Occupied(list, tx.nonce)
    ensures forall t :: t in all && SameSlot(t, tx) <==> t == TxAt(list, tx.nonce)
  {
    var holder := TxAt(list, tx.nonce);
    forall t | t in all && SameSlot(t, tx)
      ensures t == holder
    {
      assert SameSlot(t, holder);
    }
  }

  /** The maps after `tx` took its slot: in pending where that slot was pending, else in the queue. */
  ghost predicate Seated(p: Accounts, q: Accounts, tx: Tx, p': Accounts, q': Accounts) {
    if Occupied(ListOf(p, tx.sender), tx.nonce) then p' == Entered(p, tx) && q' == q
    else p' == p && q' == Entered(q, tx)
  }

  lemma SeatedWhere(p: Accounts, q: Accounts, all: set<Tx>, tx: Tx, p': Accounts, q': Accounts)
    requires Coherent(p, q, all) && tx !in all && Seated(p, q, tx, p', q')
    ensures tx in p'.txs <==> Occupied(ListOf(p, tx.sender), tx.nonce)
    ensures p'.txs <= p.txs + {tx}
  {
    Unfold();
  }

  // ---- removing one transaction ----

  /** A pending transaction goes together with everything above it ... */
  function PendingWithout(p: Accounts, tx: Tx): Accounts {
    if tx in p.txs then WithList(p, tx.sender, Below(ListOf(p, tx.sender), tx.nonce)) else p
  }

  /** ... which is postponed into the queue; a queued transaction goes alone. */
  function QueueWithout(p: Accounts, q: Accounts, tx: Tx): Accounts {
    if tx in p.txs then WithList(q, tx.sender, ListOf(q, tx.sender) + AtLeast(ListOf(p, tx.sender), tx.nonce + 1))
    else WithList(q, tx.sender, ListOf(q, tx.sender) - {tx})
  }

  lemma WithoutIsPart(p: Accounts, tx: Tx)
    ensures PendingWithout(p, tx).txs <= p.txs
  {
  }

  lemma OccupiedInPart(p: Accounts, p': Accounts, a: Address, n: nat)
    requires p'.txs <= p.txs && Occupied(ListOf(p', a), n)
    ensures Occupied(ListOf(p, a), n)
  {
    var t :| t in ListOf(p', a) && t.nonce == n;
    assert t in ListOf(p, a);
  }

  /** Part of a pending list, once out of it, may be postponed into the queue. */
  lemma PendingIsMovable(p: Accounts, q: Accounts, all: set<Tx>, a: Address, list: set<Tx>, all': set<Tx>)
    requires Coherent(p, q, all) && list <= ListOf(p, a) && list + q.txs <= all'
    ensures Movable(q, all', a, list)
  {
    Unfold();
    forall x, y | x in ListOf(q, a) + list && y in ListOf(q, a) + list && SameNonce(x, y)
      ensures x == y
    {
      assert SameSlot(x, y);
    }
  }

  lemma RemoveCoherent(p: Accounts, q: Accounts, all: set<Tx>, tx: Tx)
    requires Coherent(p, q, all) && tx in all
    ensures Coherent(PendingWithout(p, tx), QueueWithout(p, q, tx), all - {tx})
    ensures tx in p.txs <==> Occupied(ListOf(p, tx.sender), tx.nonce)
    ensures Movable(q, all - {tx}, tx.sender, AtLeast(ListOf(p, tx.sender), tx.nonce + 1)) || tx !in p.txs
  {
    Unfold();
    var lp, lq := ListOf(p, tx.sender), ListOf(q, tx.sender);
    assert SameSlot(tx, tx);
    if Occupied(lp, tx.nonce) {
      var t :| t in lp && t.nonce == tx.nonce;
      assert SameSlot(t, tx);
      assert lp == Below(lp, tx.nonce) + {tx} + AtLeast(lp, tx.nonce + 1) by {
        assert forall u :: u in lp && u.nonce == tx.nonce ==> SameSlot(u, tx);
      }
      PendingIsMovable(p, q, all, tx.sender, AtLeast(lp, tx.nonce + 1), all - {tx});
      Relist(p, q, all, tx.sender, Below(lp, tx.nonce), lq + AtLeast(lp, tx.nonce + 1), all - {tx});
    } else {
      Relist(p, q, all, tx.sender, lp, lq - {tx}, all - {tx});
      SameList(p, tx.sender);
    }
  }

  // ---- moving a slice of transactions into a map ----

  ghost function Front(txs: seq<Tx>, k: nat): set<Tx>
    requires k <= |txs|
  {
    set i | 0 <= i < k :: txs[i]
  }

  /** Transactions of account `a` that are indexed and whose slots in `q` are free. */
  ghost predicate Movable(q: Accounts, all: set<Tx>, a: Address, list: set<Tx>) {
    forall key {:trigger OpenMove(key)} :: OpenMove(key) ==>
      && SentBy(list, a) && list <= all && list !! q.txs && q.txs <= all
      && OnePerNonce(ListOf(q, a) + list)
      && (a in q.keys <==> ListOf(q, a) != {})
  }

  /** The map gained the transactions `part` of one account (folded like Coherent). */
  ghost predicate Gained(q: Accounts, a: Address, part: set<Tx>, q': Accounts) {
    forall key {:trigger OpenDelta(key)} :: OpenDelta(key) ==> q' == WithList(q, a, ListOf(q, a) + part)
  }

  lemma GainedIs(q: Accounts, a: Address, part: set<Tx>, q': Accounts)
    ensures Gained(q, a, part, q') <==> q' == WithList(q, a, ListOf(q, a) + part)
  {
    Unfold();
  }

  lemma MoveNone(q: Accounts, all: set<Tx>, a: Address, txs: seq<Tx>, list: set<Tx>)
    requires Movable(q, all, a, list) && Enumerates(txs, list)
    ensures Gained(q, a, Front(txs, 0), q) && Front(txs, |txs|) == list
  {
    Unfold();
    SameList(q, a);
    assert ListOf(q, a) + Front(txs, 0) == ListOf(q, a);
  }

  /** The next transaction of the slice finds its slot free, and enters. */
  lemma MoveNext(q: Accounts, all: set<Tx>, a: Address, txs: seq<Tx>, k: nat, list: set<Tx>, q1: Accounts)
    requires Movable(q, all, a, list) && Enumerates(txs, list) && k < |txs| && Gained(q, a, Front(txs, k), q1)
    ensures var tx := txs[k];
            && tx.sender == a && tx in all && tx !in q1.txs && q1.txs <= all
            && OnePerNonce(ListOf(q1, a)) && !Occupied(ListOf(q1, a), tx.nonce)
    ensures Gained(q, a, Front(txs, k + 1), Entered(q1, txs[k]))
  {
    Unfold();
    var front, tx := Front(txs, k), txs[k];
    assert tx in txs;
    forall t | t in front
      ensures t in list && t != tx
    {
      assert t in txs;
    }
    assert Front(txs, k + 1) == front + {tx};
    WithListOf(q, a, ListOf(q, a) + front);
    Alone(ListOf(q, a) + list, tx);
    assert Placed(ListOf(q1, a), tx) == ListOf(q, a) + Front(txs, k + 1);
    assert q1.txs - ListOf(q1, a) == q.txs - ListOf(q, a);
  }

  // ---- the price heap ----

  /** The stale counter is exact: it balances heap and index, and no pooled transaction has two entries. */
  ghost predicate Exact(all: set<Tx>, items: seq<Tx>, stales: int) {
    stales + |all| == |items| && Single(all, items)
  }

  /** Dropping `count` transactions from the index and reporting them keeps the heap complete and the counter exact. */
  lemma DropKeepsPriced(all: set<Tx>, items: seq<Tx>, stales: int, all': set<Tx>, count: nat, items': seq<Tx>,
                        stales': int)
    requires all' <= all && |all'| == |all| - count
    requires AfterRemoved(all', items, stales, count, items', stales')
    ensures Tracked(all, items) ==> Tracked(all', items')
    ensures Exact(all, items, stales) ==> Exact(all', items', stales')
    ensures forall t :: t in items' ==> t in items || t in all'
    ensures stales + count > |items| / 4 ==> forall t :: t in items' ==> t in all'
  {
    if stales + count > |items| / 4 {
      forall t
        ensures t in items' <==> t in all'
      {
        assert t in multiset(items') <==> t in multiset(all');
      }
      assert |multiset(items')| == |multiset(all')|;
    }
  }

  lemma PutKeepsPriced(all: set<Tx>, items: seq<Tx>, stales: int, tx: Tx, items': seq<Tx>)
    requires tx !in all && multiset(items') == multiset(items) + multiset{tx}
    ensures Tracked(all, items) ==> Tracked(all + {tx}, items')
    ensures Exact(all, items, stales) ==> (Exact(all + {tx}, items', stales) <==> tx !in items)
    ensures forall t :: t in items' ==> t in items || t == tx
  {
    assert |multiset(items')| == |items| + 1;
    forall t | t in items'
      ensures t in items || t == tx
    {
      assert t in multiset(items');
    }
    forall t | t in all + {tx} && Tracked(all, items)
      ensures t in items'
    {
      assert t in all ==> t in multiset(items);
      assert t in multiset(items');
    }
    assert tx in items <==> multiset(items)[tx] > 0;
    assert tx in all + {tx};
  }

  /** Where the counter goes wrong: a transaction re-enters while a dead copy of it is still in the heap. With four
      live entries beside it one dead entry triggers no rebuild. */
  lemma ReentryMiscounts(a: Tx, b: Tx, c: Tx, d: Tx, tx: Tx)
    requires |{a, b, c, d, tx}| == 5
    ensures var all, items := {a, b, c, d}, [a, b, c, d, tx];
            && Exact(all, items, 1) && 1 <= |items| / 4 && CountDead(all, items) == 1
            && !Exact(all + {tx}, items + [tx], 1) && CountDead(all + {tx}, items + [tx]) == 0
  {
    var all, items := {a, b, c, d}, [a, b, c, d, tx];
    FourAlive(a, b, c, d, tx);
    PutKeepsPriced(all, items, 1, tx, items + [tx]);
    StalesAreDead(all, items, 1);
    NoneDead(all + {tx}, items + [tx]);
  }

  lemma FourAlive(a: Tx, b: Tx, c: Tx, d: Tx, tx: Tx)
    requires |{a, b, c, d, tx}| == 5
    ensures tx !in {a, b, c, d} && Exact({a, b, c, d}, [a, b, c, d, tx], 1)
  {
    Distinct5(a, b, c, d, tx);
    assert multiset([a, b, c, d, tx]) == multiset{a, b, c, d, tx};
  }

  lemma Distinct5(a: Tx, b: Tx, c: Tx, d: Tx, e: Tx)
    requires |{a, b, c, d, e}| == 5
    ensures a != b && a != c && a != d && a != e && b != c && b != d && b != e && c != d && c != e && d != e
    ensures |{a, b, c, d}| == 4
  {
  }

  lemma {:induction false} NoneDead(all: set<Tx>, items: seq<Tx>)
    requires forall t :: t in items ==> t in all
    ensures CountDead(all, items) == 0
  {
    if items != [] {
      NoneDead(all, items[1..]);
    }
  }

  /** What adding transactions did to the index: it gained only accepted ones, and a local transaction left
      only for one in its slot. */
  ghost predicate Admitted(all0: set<Tx>, locals: set<Address>, accepted: set<Tx>, all: set<Tx>) {
    forall key {:trigger OpenAdmit(key)} :: OpenAdmit(key) ==>
      && all <= all0 + accepted
      && forall t :: t in all0 && t !in all && ContainsTx(locals, t) ==> SlotTaken(accepted, t)
  }

  lemma AdmitNone(all: set<Tx>, locals: set<Address>)
    ensures Admitted(all, locals, {}, all)
  {
  }

  lemma AdmitNext(all0: set<Tx>, locals0: set<Address>, accepted: set<Tx>, all: set<Tx>, locals: set<Address>, tx: Tx,
                  ok: bool, all': set<Tx>)
    requires Admitted(all0, locals0, accepted, all) && locals0 <= locals && all' <= if ok then all + {tx} else all
    requires forall t :: t in all && t !in all' ==> !ContainsTx(locals, t) || (ok && SameSlot(t, tx))
    ensures Admitted(all0, locals0, accepted + (if ok then {tx} else {}), all')
  {
    assert OpenAdmit(0);
    var accepted' := accepted + (if ok then {tx} else {});
    forall t | t in all0 && t !in all' && ContainsTx(locals0, t)
      ensures SlotTaken(accepted', t)
    {
      if t in all {
        assert SameSlot(tx, t) && tx in accepted';
      } else {
        var u :| u in accepted && SameSlot(u, t);
        assert u in accepted';
      }
    }
  }

  /** Transactions of which the heap has no copy, dead or alive, each once. */
  ghost predicate NewTo(items: seq<Tx>, txs: seq<Tx>) {
    NoneTwice(txs) && forall t :: t in txs ==> t !in items
  }

  /** The heap holds no transaction beyond those it held and the first k of a slice. */
  ghost predicate OnlyNew(items0: seq<Tx>, txs: seq<Tx>, k: nat, items: seq<Tx>)
    requires k <= |txs|
  {
    forall t :: t in items ==> t in items0 || t in Front(txs, k)
  }

  lemma OnlyNewNext(items0: seq<Tx>, txs: seq<Tx>, k: nat, items: seq<Tx>)
    requires k < |txs| && OnlyNew(items0, txs, k, items)
    ensures NewTo(items0, txs) ==> txs[k] !in items
    ensures Front(txs, k + 1) == Front(txs, k) + {txs[k]}
  {
    assert txs[k] in txs;
  }

  /** Taking `drop` out of heap and index, and dead entries `gone` out of the heap. */
  lemma PopKeepsPriced(all: set<Tx>, items: seq<Tx>, stales: int, drop: seq<Tx>, gone: multiset<Tx>, items': seq<Tx>,
                       stales': int)
    requires multiset(items) == multiset(items') + multiset(drop) + gone && stales - stales' == |gone|
    requires (forall t :: t in gone ==> t !in all) && forall t :: t in drop ==> t in all
    ensures Tracked(all, items) ==> Tracked(all - Front(drop, |drop|), items')
    ensures Exact(all, items, stales) ==> Exact(all - Front(drop, |drop|), items', stales')
    ensures forall t :: t in items' ==> t in items
  {
    var all' := all - Front(drop, |drop|);
    forall t | t in all'
      ensures multiset(items)[t] == multiset(items')[t]
    {
      assert t !in gone && t !in drop && t !in multiset(drop);
    }
    forall t | t in items'
      ensures t in items
    {
      assert t in multiset(items');
      assert t in multiset(items);
    }
    forall t | t in all' && Tracked(all, items)
      ensures t in items'
    {
      assert t in multiset(items);
      assert t in multiset(items');
    }
    if Exact(all, items, stales) {
      SingleDrops(all, items, drop, gone, items');
      assert |multiset(items)| == |items'| + |drop| + |gone|;
    }
  }

  /** What a price cap leaves of the pool. */
  lemma CapLeaves(all: set<Tx>, items: seq<Tx>, drop: seq<Tx>, gone: multiset<Tx>, items': seq<Tx>, price: nat,
                  locals: set<Address>)
    requires Tracked(all, items) && multiset(items) == multiset(items') + multiset(drop) + gone
    requires (forall t :: t in gone ==> t !in all) && forall t ::
              t in drop ==> !ContainsTx(locals, t) && t.price < price
    requires forall t :: t in items' && t in all && !ContainsTx(locals, t) ==> t.price >= price
    ensures all - Front(drop, |drop|) == set t | t in all && (t.price >= price || ContainsTx(locals, t))
  {
    forall t | t in all && t !in Front(drop, |drop|)
      ensures t.price >= price || ContainsTx(locals, t)
    {
      assert t in multiset(items) && t !in drop && t !in multiset(drop);
      assert t in multiset(items');
    }
  }

  /** Without doubled entries nothing is popped twice. */
  lemma DropsOnce(all: set<Tx>, items: seq<Tx>, drop: seq<Tx>, gone: multiset<Tx>, items': seq<Tx>)
    requires multiset(items) == multiset(items') + multiset(drop) + gone && Single(all, items)
    requires forall t :: t in drop ==> t in all
    ensures NoneTwice(drop)
  {
    forall i, j | 0 <= i < j < |drop|
      ensures drop[i] != drop[j]
    {
      assert drop[i] in drop;
      assert multiset(drop)[drop[i]] <= multiset(items)[drop[i]] == 1;
      if drop[i] == drop[j] {
        Repeated(drop, i, j);
      }
    }
  }

  ghost predicate NoneTwice(txs: seq<Tx>) {
    forall i, j :: 0 <= i < j < |txs| ==> txs[i] != txs[j]
  }

  /** The slots that dropping popped entries frees: as many as were counted, unless an entry was popped twice. */
  lemma {:induction false} DroppedSlots(all: set<Tx>, drop: seq<Tx>)
    requires forall t :: t in drop ==> t in all
    ensures SlotSum(all) - SlotSum(all - Front(drop, |drop|)) <= SlotTotal(drop)
    ensures NoneTwice(drop) ==> SlotSum(all) - SlotSum(all - Front(drop, |drop|)) == SlotTotal(drop)
  {
    if drop == [] {
      assert all - Front(drop, 0) == all;
    } else {
      DroppedSlots(all, drop[..|drop| - 1]);
      DropOneMoreSlots(all, drop);
    }
  }

  /** Of entries that take slots, exactly those popped once free what was counted for them. */
  lemma DroppedExactly(all: set<Tx>, drop: seq<Tx>)
    requires forall t :: t in drop ==> t in all && t.size > 0
    ensures SlotSum(all) - SlotSum(all - Front(drop, |drop|)) == SlotTotal(drop) <==> NoneTwice(drop)
  {
    DroppedSlots(all, drop);
    if !NoneTwice(drop) {
      DroppedTooFew(all, drop);
    }
  }

  lemma {:induction false} DroppedTooFew(all: set<Tx>, drop: seq<Tx>)
    requires !NoneTwice(drop) && forall t :: t in drop ==> t in all && t.size > 0
    ensures SlotSum(all) - SlotSum(all - Front(drop, |drop|)) < SlotTotal(drop)
  {
    var init, last := drop[..|drop| - 1], drop[|drop| - 1];
    DropOneMoreSlots(all, drop);
    if last in init {
      DroppedSlots(all, init);
    } else {
      DroppedTooFew(all, init);
    }
  }

  lemma DropOneMoreSlots(all: set<Tx>, drop: seq<Tx>)
    requires drop != [] && forall t :: t in drop ==> t in all
    ensures var init, last := drop[..|drop| - 1], drop[|drop| - 1];
            var freed, before := SlotSum(all - Front(drop, |drop|)), SlotSum(all - Front(init, |init|));
            && before - freed == (if last in init then 0 else NumSlots(last))
            && (NoneTwice(drop) <==> NoneTwice(init) && last !in init)
  {
    var n := |drop| - 1;
    var init, last := drop[..n], drop[n];
    var left := all - Front(init, n);
    FrontOneMore(drop);
    assert all - Front(drop, |drop|) == left - {last};
    if last in init {
      assert left - {last} == left;
    } else {
      SlotSumRemove(left, last);
    }
  }

  lemma FrontOneMore(drop: seq<Tx>)
    requires drop != []
    ensures var init, last := drop[..|drop| - 1], drop[|drop| - 1];
            && Front(drop, |drop|) == Front(init, |init|) + {last} && (last in init <==> last in Front(init, |init|))
            && (NoneTwice(drop) <==> NoneTwice(init) && last !in init)
  {
    var n := |drop| - 1;
    var init, last := drop[..n], drop[n];
    assert forall i :: 0 <= i < n ==> drop[i] == init[i];
    if last in init {
      var i :| 0 <= i < n && init[i] == last;
      assert drop[i] == drop[n];
    } else {
      assert forall i :: 0 <= i < n ==> init[i] in init;
    }
  }

  /** A doubled entry frees less than was counted. */
  lemma DoubledEntryFreesTooLittle(tx: Tx)
    requires tx.size > 0
    ensures SlotTotal([tx, tx]) == 2 * NumSlots(tx) &&
            SlotSum({tx}) - SlotSum({tx} - Front([tx, tx], 2)) == NumSlots(tx) > 0
  {
    DroppedSlots({tx}, [tx]);
    assert [tx, tx][..1] == [tx] && [tx][..0] == [];
    assert Front([tx, tx], 2) == {tx} == Front([tx], 1);
  }

  lemma SingleDrops(all: set<Tx>, items: seq<Tx>, drop: seq<Tx>, gone: multiset<Tx>, items': seq<Tx>)
    requires multiset(items) == multiset(items') + multiset(drop) + gone && Single(all, items)
    requires forall t :: t in drop ==> t in all
    ensures |all - Front(drop, |drop|)| == |all| - |drop|
  {
    DropsOnce(all, items, drop, gone, items');
    var dropped := Front(drop, |drop|);
    assert Enumerates(drop, dropped);
    EnumerationLength(drop, dropped);
    assert all == (all - dropped) + dropped;
  }

  // ---- virtual nonces ----

  datatype ChainState = ChainState(nonces: Table<nat>, balances: Table<nat>)
  {
    function Nonce(a: Address): nat { NonceIn(nonces, a) }

    function Balance(a: Address): nat { Lookup(balances, a, 0) }
  }

  /** Each account's pending nonces run without gap from its chain nonce to its virtual nonce. */
  ghost predicate Runs(p: Accounts, chain: Table<nat>, nonces: Table<nat>) {
    forall a :: Spans(ListOf(p, a), NonceIn(chain, a), Virtual(nonces, chain, a))
  }

  lemma RunsUpdate(p: Accounts, chain: Table<nat>, nonces: Table<nat>, a: Address, list: set<Tx>, v: nat)
    requires Runs(p, chain, nonces) && Spans(list, NonceIn(chain, a), v) && SentBy(list, a)
    ensures Runs(WithList(p, a, list), chain, Put(nonces, a, v))
  {
    WithListOf(p, a, list);
    forall b
      ensures Spans(ListOf(WithList(p, a, list), b), NonceIn(chain, b), Virtual(Put(nonces, a, v), chain, b))
    {
      assert Spans(ListOf(p, b), NonceIn(chain, b), Virtual(nonces, chain, b));
    }
  }

  lemma RunsRemove(p: Accounts, chain: Table<nat>, nonces: Table<nat>, tx: Tx)
    requires Runs(p, chain, nonces) && tx in p.txs
    ensures tx.nonce < Virtual(nonces, chain, tx.sender)
    ensures Runs(PendingWithout(p, tx), chain, Put(nonces, tx.sender, tx.nonce))
  {
    var a := tx.sender;
    assert Spans(ListOf(p, a), NonceIn(chain, a), Virtual(nonces, chain, a));
    assert tx in ListOf(p, a);
    assert Occupied(ListOf(p, a), tx.nonce);
    BelowSpans(ListOf(p, a), NonceIn(chain, a), Virtual(nonces, chain, a), tx.nonce);
    RunsUpdate(p, chain, nonces, a, Below(ListOf(p, a), tx.nonce), tx.nonce);
  }

  // ---- payable pending lists ----

  /** Every pending transaction is payable in this state. */
  ghost predicate AllPayable(p: Accounts, state: ChainState, gasLimit: nat) {
    forall key {:trigger OpenPay(key)} :: OpenPay(key) ==>
      forall t :: t in p.txs ==> Payable(t, state.Balance(t.sender), gasLimit)
  }

  predicate OpenPay(key: int) { true }

  lemma NonePayable(state: ChainState, gasLimit: nat)
    ensures AllPayable(NO_ACCOUNTS, state, gasLimit)
  {
  }

  lemma PayablePart(p: Accounts, p': Accounts, state: ChainState, gasLimit: nat)
    requires AllPayable(p, state, gasLimit) && p'.txs <= p.txs
    ensures AllPayable(p', state, gasLimit)
  {
    assert OpenPay(0);
  }

  lemma PayableMore(p: Accounts, tx: Tx, p': Accounts, state: ChainState, gasLimit: nat)
    requires AllPayable(p, state, gasLimit) && p'.txs <= p.txs + {tx} && Payable(tx, state.Balance(tx.sender), gasLimit)
    ensures AllPayable(p', state, gasLimit)
  {
    assert OpenPay(0);
  }

  // ---- promotion ----

  /** The queued transactions of an account that are neither stale nor too costly. */
  function Eligible(list: set<Tx>, nonce: nat, balance: int, gasLimit: nat): set<Tx> {
    Kept(AtLeast(list, nonce), false, balance, gasLimit)
  }

  /** What stays queued: a remote account keeps only the lowest nonces. */
  function Requeued(list: set<Tx>, local: bool, limit: nat): set<Tx> {
    if local then list else Lowest(list, limit)
  }

  lemma IndexHolds(p: Accounts, q: Accounts, all: set<Tx>, a: Address)
    requires Coherent(p, q, all)
    ensures p.txs <= all && q.txs <= all && p.txs !! q.txs && OnePerNonce(ListOf(p, a)) && OnePerNonce(ListOf(q, a))
  {
    Unfold();
    forall x, y | SameNonce(x, y) &&
        ((x in ListOf(p, a) && y in ListOf(p, a)) || (x in ListOf(q, a) && y in ListOf(q, a)))
      ensures x == y
    {
      assert SameSlot(x, y);
    }
  }

  lemma MovePart(m: Accounts, all: set<Tx>, a: Address, list: set<Tx>, part: set<Tx>)
    requires Movable(m, all, a, list) && part <= list
    ensures Movable(m, all, a, part)
  {
    Unfold();
  }

  lemma QueuedIsMovable(p: Accounts, q: Accounts, all: set<Tx>, a: Address, list: set<Tx>, all': set<Tx>)
    requires Coherent(p, q, all) && list <= ListOf(q, a) && list + p.txs <= all'
    ensures Movable(p, all', a, list)
  {
    Unfold();
    forall x, y | x in ListOf(p, a) + list && y in ListOf(p, a) + list && SameNonce(x, y)
      ensures x == y
    {
      assert SameSlot(x, y);
    }
  }

  lemma EligibleParts(list: set<Tx>, nonce: nat, balance: int, gasLimit: nat)
    ensures var rest := Eligible(list, nonce, balance, gasLimit);
            var stale, costly := Below(list, nonce), Unpayable(AtLeast(list, nonce), balance, gasLimit);
            rest <= list && list - rest == stale + costly && stale !! costly && |list - rest| == |stale| + |costly|
  {
  }

  /** Promotion moves queued transactions to pending, which loses nothing. */
  lemma PromotionAdds(p: Accounts, q: Accounts, all: set<Tx>, a: Address, ready: set<Tx>)
    requires Coherent(p, q, all) && ready <= ListOf(q, a)
    ensures var p' := WithList(p, a, ListOf(p, a) + ready);
            p.txs <= p'.txs && p'.txs - p.txs == ready
  {
    Unfold();
  }

  /** The nonce overlay after promoting the first k of an ascending slice. */
  ghost function NoncesAfter(nonces: Table<nat>, a: Address, txs: seq<Tx>, k: nat): Table<nat>
    requires k <= |txs|
  {
    if k == 0 then nonces else Put(nonces, a, txs[k - 1].nonce + 1)
  }

  lemma NoncesStep(nonces: Table<nat>, a: Address, txs: seq<Tx>, k: nat)
    requires k < |txs|
    ensures Put(NoncesAfter(nonces, a, txs, k), a, txs[k].nonce + 1) == NoncesAfter(nonces, a, txs, k + 1)
  {
    if k > 0 {
      PutTwice(nonces, a, txs[k - 1].nonce + 1, txs[k].nonce + 1);
    }
  }

  /** The books after an account's queue lost what is not in `list`, then `ready` to pending, then all but `rest`. */
  lemma PromoteCoherent(p: Accounts, q: Accounts, all: set<Tx>, a: Address, list: set<Tx>, ready: set<Tx>,
                        rest: set<Tx>, all1: set<Tx>, all2: set<Tx>)
    requires Coherent(p, q, all) && list <= ListOf(q, a) && ready <= list && rest <= list - ready
    requires all1 == all - (ListOf(q, a) - list) && all2 == all1 - ((list - ready) - rest)
    ensures Coherent(WithList(p, a, ListOf(p, a) + ready), WithList(q, a, rest), all2)
    ensures all2 <= all && |all2| == |all| - (|ListOf(q, a) - list| + |(list - ready) - rest|)
  {
    Unfold();
    var dropped, capped := ListOf(q, a) - list, (list - ready) - rest;
    assert all == all2 + (dropped + capped) && all2 !! (dropped + capped) && dropped !! capped;
    Relist(p, q, all, a, ListOf(p, a) + ready, rest, all2);
  }

  lemma PutTwice<T>(t: Table<T>, a: Address, v: T, w: T)
    ensures Put(Put(t, a, v), a, w) == Put(t, a, w)
  {
    assert t.at[a := v][a := w] == t.at[a := w];
  }

  /** The virtual nonce after promoting an ascending slice. */
  function Next(promoted: seq<Tx>, v: nat): nat {
    if promoted == [] then v else promoted[|promoted| - 1].nonce + 1
  }

  lemma LastOfRun(txs: seq<Tx>, c: set<Tx>, low: nat, high: nat)
    requires Enumerates(txs, c) && Ascending(txs) && Spans(c, low, high) && low < high
    ensures txs != [] && txs[|txs| - 1].nonce + 1 == high
  {
    assert Occupied(c, high - 1);
    var t :| t in c && t.nonce == high - 1;
    var i :| 0 <= i < |txs| && txs[i] == t;
    var last := txs[|txs| - 1];
    assert last in txs;
    assert Occupied(c, last.nonce);
  }

  /** Promotion extends a gap-free list at its virtual nonce. */
  lemma PromoteSpans(pa: set<Tx>, eligible: set<Tx>, c: nat, v: nat, promoted: seq<Tx>)
    requires Spans(pa, c, v) && OnePerNonce(pa + eligible) && pa !! eligible
    requires forall t :: t in eligible ==> t.nonce >= c
    requires Enumerates(promoted, Ready(eligible, v)) && Ascending(promoted)
    ensures Spans(pa + Ready(eligible, v), c, Next(promoted, v))
  {
    var ready := Ready(eligible, v);
    if ready == {} {
      EnumerationLength(promoted, ready);
      assert pa + ready == pa;
      return;
    }
    assert First(eligible) == v by {
      var first :| first in eligible && first.nonce == First(eligible);
      if first.nonce < v {
        assert Occupied(pa, first.nonce);
        var t :| t in pa && t.nonce == first.nonce;
        assert SameNonce(t, first);
      }
    }
    var stop := ReadyIsMaximalRun(eligible, v);
    RunSpans(eligible, v, stop);
    LastOfRun(promoted, ready, v, stop);
    JoinSpans(pa, ready, c, v, stop);
  }

  lemma RunSpans(c: set<Tx>, low: nat, stop: nat)
    requires low <= stop && (forall t :: t in c ==> t.nonce >= low) && forall n: nat ::
              low <= n < stop ==> Occupied(c, n)
    ensures Spans(Below(c, stop), low, stop)
  {
    forall n: nat
      ensures Occupied(Below(c, stop), n) <==> low <= n < stop
    {
      if low <= n < stop {
        assert Occupied(c, n);
        var t :| t in c && t.nonce == n;
        assert t in Below(c, stop);
      }
    }
  }

  lemma JoinSpans(a: set<Tx>, b: set<Tx>, low: nat, mid: nat, high: nat)
    requires Spans(a, low, mid) && Spans(b, mid, high)
    ensures Spans(a + b, low, high)
  {
    forall n: nat
      ensures Occupied(a + b, n) <==> low <= n < high
    {
      assert Occupied(a, n) <==> low <= n < mid;
      assert Occupied(b, n) <==> mid <= n < high;
      if Occupied(a, n) {
        var t :| t in a && t.nonce == n;
        assert t in a + b;
      }
      if Occupied(b, n) {
        var t :| t in b && t.nonce == n;
        assert t in a + b;
      }
      if Occupied(a + b, n) {
        var t :| t in a + b && t.nonce == n;
        assert t in a ==> Occupied(a, n);
        assert t in b ==> Occupied(b, n);
      }
    }
  }

  // ---- pending lists between a new head and the end of a reorg run ----

  ghost predicate GapFreeFrom(c: set<Tx>, low: nat) {
    forall t, n: nat :: t in c && low <= n <= t.nonce ==> Occupied(c, n)
  }

  /** While promoting for a new head: no gap from the new chain nonce on, and either nothing was
      promoted yet or the part from the chain nonce on is payable and ends at the virtual nonce. */
  ghost predicate Rising(pa: set<Tx>, c: nat, v: nat, balance: int, gasLimit: nat) {
    && GapFreeFrom(pa, c)
    && (v == c || (c < v && Spans(AtLeast(pa, c), c, v) && forall t ::
         t in pa && t.nonce >= c ==> Payable(t, balance, gasLimit)))
  }

  /** After demotion: gap free from the chain nonce, and an empty list left the virtual nonce there. */
  ghost predicate Settled(pa: set<Tx>, c: nat, v: nat) {
    (exists top: nat :: Spans(pa, c, top)) && (pa == {} ==> v == c)
  }

  lemma SpansIsRising(pa: set<Tx>, c: nat, v: nat, c': nat, balance: int, gasLimit: nat)
    requires Spans(pa, c, v) && c <= c'
    ensures Rising(pa, c', c', balance, gasLimit)
  {
    forall t, n: nat | t in pa && c' <= n <= t.nonce
      ensures Occupied(pa, n)
    {
      assert Occupied(pa, t.nonce);
    }
  }

  lemma PromoteRises(pa: set<Tx>, eligible: set<Tx>, c: nat, v: nat, promoted: seq<Tx>, balance: int, gasLimit: nat)
    requires Rising(pa, c, v, balance, gasLimit) && OnePerNonce(pa + eligible) && pa !! eligible
    requires forall t :: t in eligible ==> t.nonce >= c && Payable(t, balance, gasLimit)
    requires Enumerates(promoted, Ready(eligible, v)) && Ascending(promoted)
    ensures Rising(pa + Ready(eligible, v), c, Next(promoted, v), balance, gasLimit)
  {
    var ready := Ready(eligible, v);
    if ready == {} {
      EnumerationLength(promoted, ready);
      assert pa + ready == pa;
      return;
    }
    var upper := AtLeast(pa, c);
    if v == c {
      NothingAbove(pa, eligible, c);
      assert upper == {};
      assert Spans(upper, c, v);
    }
    PromoteSpans(upper, eligible, c, v, promoted);
    assert AtLeast(pa + ready, c) == upper + ready;
    var next := Next(promoted, v);
    assert promoted != [] by {
      var t :| t in ready;
      assert t in promoted;
    }
    assert c < next by {
      var t :| t in ready;
      assert Occupied(upper + ready, t.nonce);
    }
    forall t, n: nat | t in pa + ready && c <= n <= t.nonce
      ensures Occupied(pa + ready, n)
    {
      assert t in upper + ready;
      assert Occupied(upper + ready, t.nonce);
      assert Occupied(upper + ready, n);
    }
  }

  lemma NothingAbove(pa: set<Tx>, eligible: set<Tx>, c: nat)
    requires GapFreeFrom(pa, c) && OnePerNonce(pa + eligible) && pa !! eligible
    requires Ready(eligible, c) != {} && forall t :: t in eligible ==> t.nonce >= c
    ensures AtLeast(pa, c) == {}
  {
    var first :| first in eligible && first.nonce == First(eligible);
    forall t | t in pa
      ensures t.nonce < c
    {
      if t.nonce >= c {
        assert Occupied(pa, c);
        var u :| u in pa && u.nonce == c;
        assert SameNonce(u, first);
      }
    }
  }

  /** Every account is Rising: what holds while promoting for a new head. */
  ghost predicate Climbs(p: Accounts, state: ChainState, gasLimit: nat, nonces: Table<nat>) {
    forall a :: Rising(ListOf(p, a), state.Nonce(a), Virtual(nonces, state.nonces, a), state.Balance(a), gasLimit)
  }

  lemma EligibleFacts(p: Accounts, q: Accounts, all: set<Tx>, a: Address, nonce: nat, balance: int, gasLimit: nat)
    requires Coherent(p, q, all)
    ensures var list := Eligible(ListOf(q, a), nonce, balance, gasLimit);
            && OnePerNonce(ListOf(p, a) + list) && ListOf(p, a) !! list && SentBy(ListOf(p, a) + list, a)
            && forall t :: t in list ==> t.nonce >= nonce && Payable(t, balance, gasLimit)
  {
    Unfold();
    var list := Eligible(ListOf(q, a), nonce, balance, gasLimit);
    forall x, y | x in ListOf(p, a) + list && y in ListOf(p, a) + list && SameNonce(x, y)
      ensures x == y
    {
      assert SameSlot(x, y);
    }
  }

  lemma RunsPromote(p: Accounts, q: Accounts, all: set<Tx>, a: Address, state: ChainState, gasLimit: nat,
                    nonces: Table<nat>, promoted: seq<Tx>)
    requires Coherent(p, q, all) && Runs(p, state.nonces, nonces) && Ascending(promoted)
    requires Enumerates(promoted,
                        Ready(Eligible(ListOf(q, a), state.Nonce(a), state.Balance(a), gasLimit),
                              Virtual(nonces, state.nonces, a)))
    ensures var v := Virtual(nonces, state.nonces, a);
            var ready := Ready(Eligible(ListOf(q, a), state.Nonce(a), state.Balance(a), gasLimit), v);
            Runs(WithList(p, a, ListOf(p, a) + ready), state.nonces, Put(nonces, a, Next(promoted, v)))
  {
    var c, v := state.Nonce(a), Virtual(nonces, state.nonces, a);
    var list := Eligible(ListOf(q, a), c, state.Balance(a), gasLimit);
    EligibleFacts(p, q, all, a, c, state.Balance(a), gasLimit);
    PromoteSpans(ListOf(p, a), list, c, v, promoted);
    RunsUpdate(p, state.nonces, nonces, a, ListOf(p, a) + Ready(list, v), Next(promoted, v));
  }

  lemma ClimbsPromote(p: Accounts, q: Accounts, all: set<Tx>, a: Address, state: ChainState, gasLimit: nat,
                      nonces: Table<nat>, promoted: seq<Tx>)
    requires Coherent(p, q, all) && Climbs(p, state, gasLimit, nonces) && Ascending(promoted)
    requires Enumerates(promoted,
                        Ready(Eligible(ListOf(q, a), state.Nonce(a), state.Balance(a), gasLimit),
                              Virtual(nonces, state.nonces, a)))
    ensures var v := Virtual(nonces, state.nonces, a);
            var ready := Ready(Eligible(ListOf(q, a), state.Nonce(a), state.Balance(a), gasLimit), v);
            Climbs(WithList(p, a, ListOf(p, a) + ready), state, gasLimit, Put(nonces, a, Next(promoted, v)))
  {
    var c, v := state.Nonce(a), Virtual(nonces, state.nonces, a);
    var list := Eligible(ListOf(q, a), c, state.Balance(a), gasLimit);
    EligibleFacts(p, q, all, a, c, state.Balance(a), gasLimit);
    assert Rising(ListOf(p, a), c, v, state.Balance(a), gasLimit);
    PromoteRises(ListOf(p, a), list, c, v, promoted, state.Balance(a), gasLimit);
    WithListOf(p, a, ListOf(p, a) + Ready(list, v));
    var P, N := WithList(p, a, ListOf(p, a) + Ready(list, v)), Put(nonces, a, Next(promoted, v));
    forall b
      ensures Rising(ListOf(P, b), state.Nonce(b), Virtual(N, state.nonces, b), state.Balance(b), gasLimit)
    {
      assert Rising(ListOf(p, b), state.Nonce(b), Virtual(nonces, state.nonces, b), state.Balance(b), gasLimit);
    }
  }

  // ---- nothing left to promote ----

  /** An account's queue after promotion: nothing stale or unpayable, nothing that continues the pending run, and
      no more than a remote account may queue. */
  ghost predicate Drained(list: set<Tx>, nonce: nat, v: nat, balance: int, gasLimit: nat, local: bool, limit: nat) {
    && (forall t :: t in list ==> t.nonce >= nonce && Payable(t, balance, gasLimit))
    && Ready(list, v) == {}
    && (local || |list| <= limit)
  }

  lemma PromoteDrains(list: set<Tx>, nonce: nat, v: nat, balance: int, gasLimit: nat, local: bool, limit: nat,
                      promoted: seq<Tx>)
    requires OnePerNonce(list) && Enumerates(promoted, Ready(Eligible(list, nonce, balance, gasLimit), v)) &&
             Ascending(promoted)
    ensures var eligible := Eligible(list, nonce, balance, gasLimit);
            Drained(Requeued(eligible - Ready(eligible, v), local, limit), nonce, Next(promoted, v), balance, gasLimit,
                    local, limit)
  {
    var eligible := Eligible(list, nonce, balance, gasLimit);
    var ready := Ready(eligible, v);
    var left := eligible - ready;
    if !local {
      LowestSize(left, limit);
    }
    NothingReady(eligible, v, promoted);
    ReadyOfPart(left, Requeued(left, local, limit), Next(promoted, v), Next(promoted, v));
  }

  /** Once the ready run is out, nothing continues it. */
  lemma NothingReady(c: set<Tx>, v: nat, promoted: seq<Tx>)
    requires OnePerNonce(c) && Enumerates(promoted, Ready(c, v)) && Ascending(promoted)
    ensures Ready(c - Ready(c, v), Next(promoted, v)) == {}
  {
    var ready := Ready(c, v);
    if c == {} || First(c) > v {
      EnumerationLength(promoted, ready);
      assert c - ready == c;
      return;
    }
    var stop := ReadyIsMaximalRun(c, v);
    RunSpans(c, First(c), stop);
    LastOfRun(promoted, ready, First(c), stop);
    var left := c - ready;
    ReadyEmpty(left, stop);
    if left != {} {
      var t :| t in left && t.nonce == First(left);
      assert t.nonce == stop ==> Occupied(c, stop);
    }
  }

  /** Nothing is ready exactly when the list is empty or starts above the nonce. */
  lemma ReadyEmpty(c: set<Tx>, v: nat)
    ensures Ready(c, v) == {} <==> c == {} || First(c) > v
  {
    if c != {} && First(c) <= v {
      var u :| u in c && u.nonce == First(c);
      assert Unbroken(c, First(c), u.nonce);
      assert u in Ready(c, v);
    }
  }

  lemma ReadyOfPart(c: set<Tx>, part: set<Tx>, v: nat, v': nat)
    requires part <= c && Ready(c, v) == {} && v' <= v
    ensures Ready(part, v') == {}
  {
    ReadyEmpty(c, v);
    ReadyEmpty(part, v');
    if part != {} {
      var t :| t in part && t.nonce == First(part);
      assert t in c;
    }
  }

  /** Every account of `done` is drained. */
  ghost predicate AllDrained(q: Accounts, state: ChainState, gasLimit: nat, nonces: Table<nat>, locals: set<Address>,
                             limit: nat, done: set<Address>) {
    forall key {:trigger OpenDrain(key)} :: OpenDrain(key) ==> forall a :: a in done ==>
      Drained(ListOf(q, a), state.Nonce(a), Virtual(nonces, state.nonces, a), state.Balance(a), gasLimit, a in locals,
              limit)
  }

  lemma DrainOne(q: Accounts, state: ChainState, gasLimit: nat, nonces: Table<nat>, locals: set<Address>, limit: nat,
                 done: set<Address>, a: Address, promoted: seq<Tx>)
    requires AllDrained(q, state, gasLimit, nonces, locals, limit, done) && OnePerNonce(ListOf(q, a)) &&
             Ascending(promoted)
    requires Enumerates(promoted,
                        Ready(Eligible(ListOf(q, a), state.Nonce(a), state.Balance(a), gasLimit),
                              Virtual(nonces, state.nonces, a)))
    ensures var v := Virtual(nonces, state.nonces, a);
            var eligible := Eligible(ListOf(q, a), state.Nonce(a), state.Balance(a), gasLimit);
            var rest := Requeued(eligible - Ready(eligible, v), a in locals, limit);
            AllDrained(WithList(q, a, rest), state, gasLimit, Put(nonces, a, Next(promoted, v)), locals, limit,
                       done + {a})
  {
    var v := Virtual(nonces, state.nonces, a);
    var eligible := Eligible(ListOf(q, a), state.Nonce(a), state.Balance(a), gasLimit);
    var rest := Requeued(eligible - Ready(eligible, v), a in locals, limit);
    PromoteDrains(ListOf(q, a), state.Nonce(a), v, state.Balance(a), gasLimit, a in locals, limit, promoted);
    assert SentBy(rest, a);
    DrainAnother(q, state, gasLimit, nonces, locals, limit, done, a, rest, Next(promoted, v));
  }

  lemma DrainAnother(q: Accounts, state: ChainState, gasLimit: nat, nonces: Table<nat>, locals: set<Address>,
                     limit: nat, done: set<Address>, a: Address, rest: set<Tx>, v: nat)
    requires AllDrained(q, state, gasLimit, nonces, locals, limit, done) && SentBy(rest, a)
    requires Drained(rest, state.Nonce(a), v, state.Balance(a), gasLimit, a in locals, limit)
    ensures AllDrained(WithList(q, a, rest), state, gasLimit, Put(nonces, a, v), locals, limit, done + {a})
  {
    assert OpenDrain(0);
    WithListOf(q, a, rest);
  }

  lemma DrainNone(q: Accounts, state: ChainState, gasLimit: nat, nonces: Table<nat>, locals: set<Address>, limit: nat,
                  done: set<Address>, a: Address)
    requires AllDrained(q, state, gasLimit, nonces, locals, limit, done) && ListOf(q, a) == {}
    ensures AllDrained(q, state, gasLimit, nonces, locals, limit, done + {a})
  {
    assert OpenDrain(0);
  }

  // ---- demotion ----

  /** Everything, when the chain nonce itself is missing. */
  function BehindGap(kept: set<Tx>, nonce: nat): set<Tx> {
    if Occupied(kept, nonce) then {} else kept
  }

  /** What stays pending of an account: payable from the chain nonce on without a gap at the front. */
  function Surviving(list: set<Tx>, nonce: nat, balance: int, gasLimit: nat): set<Tx> {
    var kept := Kept(AtLeast(list, nonce), true, balance, gasLimit);
    kept - BehindGap(kept, nonce)
  }

  /** What goes back to the queue: what a dropped transaction invalidated, or everything behind a front gap. */
  function Postponed(list: set<Tx>, nonce: nat, balance: int, gasLimit: nat): set<Tx> {
    var upper := AtLeast(list, nonce);
    Invalidated(upper, balance, gasLimit) + BehindGap(Kept(upper, true, balance, gasLimit), nonce)
  }

  /** The parts of a pending list under demotion. */
  lemma DemoteParts(list: set<Tx>, nonce: nat, balance: int, gasLimit: nat)
    requires OnePerNonce(list)
    ensures var upper := AtLeast(list, nonce);
            var stale, costly := Below(list, nonce), Unpayable(upper, balance, gasLimit);
            var stay, back := Surviving(list, nonce, balance, gasLimit), Postponed(list, nonce, balance, gasLimit);
            && stay + back <= list && stay !! back
            && list - (stay + back) == stale + costly && stale !! costly
            && |list - (stay + back)| == |stale| + |costly|
  {
    FilterPartition(AtLeast(list, nonce), true, balance, gasLimit);
  }

  /** The books once the stale and unpayable pending transactions left the index and the list is split. */
  lemma DemoteCoherent(p: Accounts, q: Accounts, all: set<Tx>, a: Address, nonce: nat, balance: int, gasLimit: nat,
                       all': set<Tx>, count: nat)
    requires Coherent(p, q, all)
    requires all' == all - (Below(ListOf(p, a), nonce) + Unpayable(AtLeast(ListOf(p, a), nonce), balance, gasLimit))
    requires count == |Below(ListOf(p, a), nonce)| + |Unpayable(AtLeast(ListOf(p, a), nonce), balance, gasLimit)|
    ensures var stay, back :=
            Surviving(ListOf(p, a), nonce, balance, gasLimit), Postponed(ListOf(p, a), nonce, balance, gasLimit);
            && Coherent(WithList(p, a, stay), WithList(q, a, ListOf(q, a) + back), all')
            && Movable(q, all', a, back)
    ensures all' <= all && |all'| == |all| - count
  {
    var list := ListOf(p, a);
    IndexHolds(p, q, all, a);
    DemoteParts(list, nonce, balance, gasLimit);
    SplitCoherent(p, q, all, a, Surviving(list, nonce, balance, gasLimit), Postponed(list, nonce, balance, gasLimit),
                  all');
  }

  lemma SplitCoherent(p: Accounts, q: Accounts, all: set<Tx>, a: Address, stay: set<Tx>, back: set<Tx>, all': set<Tx>)
    requires Coherent(p, q, all) && stay + back <= ListOf(p, a) && stay !! back
    requires all' == all - (ListOf(p, a) - (stay + back))
    ensures Coherent(WithList(p, a, stay), WithList(q, a, ListOf(q, a) + back), all')
    ensures Movable(q, all', a, back)
    ensures all' <= all && |all'| == |all| - |ListOf(p, a) - (stay + back)|
  {
    Unfold();
    var gone := ListOf(p, a) - (stay + back);
    assert all == all' + gone && all' !! gone;
    Relist(p, q, all, a, stay, ListOf(q, a) + back, all');
    PendingIsMovable(p, q, all, a, back, all');
  }

  /** Moving in two slices is moving their union. */
  lemma MoveTwice(q: Accounts, all: set<Tx>, a: Address, x: set<Tx>, y: set<Tx>)
    requires Movable(q, all, a, x + y) && x !! y
    ensures Movable(q, all, a, x)
    ensures var q1 := WithList(q, a, ListOf(q, a) + x);
            && Movable(q1, all, a, y)
            && WithList(q1, a, ListOf(q1, a) + y) == WithList(q, a, ListOf(q, a) + (x + y))
  {
    Unfold();
    var q1 := WithList(q, a, ListOf(q, a) + x);
    WithListOf(q, a, ListOf(q, a) + x);
    assert ListOf(q1, a) + y == ListOf(q, a) + (x + y);
    assert q1.txs - ListOf(q1, a) == q.txs - ListOf(q, a);
  }

  // ---- pending lists through demotion ----

  lemma GapFreeSpans(pa: set<Tx>, c: nat) returns (top: nat)
    requires GapFreeFrom(pa, c)
    ensures Spans(AtLeast(pa, c), c, top)
  {
    top := c;
    while Occupied(pa, top)
      invariant c <= top && forall n: nat :: c <= n < top ==> Occupied(pa, n)
      decreases AtLeast(pa, top)
    {
      var t :| t in pa && t.nonce == top;
      assert t in AtLeast(pa, top) && t !in AtLeast(pa, top + 1);
      top := top + 1;
    }
    forall n: nat
      ensures Occupied(AtLeast(pa, c), n) <==> c <= n < top
    {
      if Occupied(AtLeast(pa, c), n) {
        var t :| t in AtLeast(pa, c) && t.nonce == n;
        assert top <= n ==> Occupied(pa, top);
      }
      if c <= n < top {
        assert Occupied(pa, n);
        var t :| t in pa && t.nonce == n;
        assert t in AtLeast(pa, c);
      }
    }
  }

  lemma DemoteSettles(pa: set<Tx>, c: nat, v: nat, balance: int, gasLimit: nat)
    requires Rising(pa, c, v, balance, gasLimit) && OnePerNonce(pa)
    ensures Settled(Surviving(pa, c, balance, gasLimit), c, v)
  {
    var upper := AtLeast(pa, c);
    var top := GapFreeSpans(pa, c);
    var cut := KeptIsPrefix(upper, c, top, balance, gasLimit);
    var kept := Kept(upper, true, balance, gasLimit);
    assert Occupied(kept, c) <==> c < cut;
    if c == cut {
      assert forall t :: t in kept ==> Occupied(kept, t.nonce);
      assert kept == {};
    }
    assert Surviving(pa, c, balance, gasLimit) == kept;
    if c < v {
      assert kept == upper;
      assert Occupied(upper, c);
    }
  }

  /** Every account is Settled: what holds from demotion to the final nonce update. */
  ghost predicate AllSettled(p: Accounts, chain: Table<nat>, nonces: Table<nat>) {
    forall a :: Settled(ListOf(p, a), NonceIn(chain, a), Virtual(nonces, chain, a))
  }

  /** During demotion: accounts still to do are Rising, the others Settled. */
  ghost predicate HalfSettled(p: Accounts, state: ChainState, gasLimit: nat, nonces: Table<nat>, todo: set<Address>) {
    forall a ::
      if a in todo then Rising(ListOf(p, a), state.Nonce(a), Virtual(nonces, state.nonces, a), state.Balance(a),
                               gasLimit)
      else Settled(ListOf(p, a), state.Nonce(a), Virtual(nonces, state.nonces, a))
  }

  lemma DemotionStarts(p: Accounts, q: Accounts, all: set<Tx>, state: ChainState, gasLimit: nat, nonces: Table<nat>)
    requires Coherent(p, q, all) && Climbs(p, state, gasLimit, nonces)
    ensures HalfSettled(p, state, gasLimit, nonces, p.keys)
  {
    Unfold();
    forall a | a !in p.keys
      ensures Settled(ListOf(p, a), state.Nonce(a), Virtual(nonces, state.nonces, a))
    {
      assert ListOf(p, a) == {};
      assert Rising(ListOf(p, a), state.Nonce(a), Virtual(nonces, state.nonces, a), state.Balance(a), gasLimit);
      assert !Occupied(AtLeast(ListOf(p, a), state.Nonce(a)), state.Nonce(a));
      assert Spans(ListOf(p, a), state.Nonce(a), state.Nonce(a));
    }
  }

  lemma DemotionStep(p: Accounts, q: Accounts, all: set<Tx>, state: ChainState, gasLimit: nat, nonces: Table<nat>,
                     todo: set<Address>, a: Address)
    requires Coherent(p, q, all) && HalfSettled(p, state, gasLimit, nonces, todo) && a in todo
    ensures HalfSettled(WithList(p, a, Surviving(ListOf(p, a), state.Nonce(a), state.Balance(a), gasLimit)), state,
                        gasLimit, nonces, todo - {a})
  {
    var stay := Surviving(ListOf(p, a), state.Nonce(a), state.Balance(a), gasLimit);
    IndexHolds(p, q, all, a);
    assert Rising(ListOf(p, a), state.Nonce(a), Virtual(nonces, state.nonces, a), state.Balance(a), gasLimit);
    DemoteSettles(ListOf(p, a), state.Nonce(a), Virtual(nonces, state.nonces, a), state.Balance(a), gasLimit);
    WithListOf(p, a, stay);
  }

  lemma DemotionEnds(p: Accounts, state: ChainState, gasLimit: nat, nonces: Table<nat>)
    requires HalfSettled(p, state, gasLimit, nonces, {})
    ensures AllSettled(p, state.nonces, nonces)
  {
  }

  /** Every account outside `todo` kept exactly what survives demotion and queued exactly what that postpones; the
      others are untouched. */
  ghost predicate AllDemoted(p0: Accounts, q0: Accounts, state: ChainState, gasLimit: nat, p: Accounts, q: Accounts,
                             todo: set<Address>) {
    forall key {:trigger OpenDemote(key)} ::
        OpenDemote(key) ==> forall a {:trigger ListOf(p, a)} {:trigger ListOf(q, a)} ::
      if a in todo then ListOf(p, a) == ListOf(p0, a) && ListOf(q, a) == ListOf(q0, a)
      else
        && ListOf(p, a) == Surviving(ListOf(p0, a), state.Nonce(a), state.Balance(a), gasLimit)
        && ListOf(q, a) == ListOf(q0, a) + Postponed(ListOf(p0, a), state.Nonce(a), state.Balance(a), gasLimit)
  }

  lemma DemotedNone(p: Accounts, q: Accounts, all: set<Tx>, state: ChainState, gasLimit: nat)
    requires Coherent(p, q, all)
    ensures AllDemoted(p, q, state, gasLimit, p, q, p.keys)
  {
    Unfold();
    forall a | a !in p.keys
      ensures ListOf(p, a) == Surviving(ListOf(p, a), state.Nonce(a), state.Balance(a), gasLimit)
      ensures ListOf(q, a) == ListOf(q, a) + Postponed(ListOf(p, a), state.Nonce(a), state.Balance(a), gasLimit)
    {
      assert ListOf(p, a) == {};
    }
  }

  lemma DemotedOne(p0: Accounts, q0: Accounts, state: ChainState, gasLimit: nat, p: Accounts, q: Accounts,
                   todo: set<Address>, a: Address)
    requires AllDemoted(p0, q0, state, gasLimit, p, q, todo) && a in todo
    ensures var stay, back :=
            Surviving(ListOf(p, a), state.Nonce(a), state.Balance(a), gasLimit),
                Postponed(ListOf(p, a), state.Nonce(a), state.Balance(a), gasLimit);
            AllDemoted(p0, q0, state, gasLimit, WithList(p, a, stay), WithList(q, a, ListOf(q, a) + back), todo - {a})
  {
    assert OpenDemote(0);
    var stay, back := Surviving(ListOf(p, a), state.Nonce(a), state.Balance(a), gasLimit),
        Postponed(ListOf(p, a), state.Nonce(a), state.Balance(a), gasLimit);
    assert SentBy(stay, a) && SentBy(ListOf(q, a) + back, a);
    WithListOf(p, a, stay);
    WithListOf(q, a, ListOf(q, a) + back);
  }

  lemma RunsReplace(p: Accounts, chain: Table<nat>, nonces: Table<nat>, tx: Tx)
    requires Runs(p, chain, nonces) && Occupied(ListOf(p, tx.sender), tx.nonce)
    ensures Runs(Entered(p, tx), chain, nonces)
  {
    var a, list := tx.sender, ListOf(p, tx.sender);
    assert SentBy(Placed(list, tx), a);
    WithListOf(p, a, Placed(list, tx));
    forall n: nat
      ensures Occupied(Placed(list, tx), n) <==> Occupied(list, n)
    {
      if n == tx.nonce {
        assert tx in Placed(list, tx);
      } else if Occupied(list, n) {
        var t :| t in list && t.nonce == n;
        assert t in Placed(list, tx);
      }
    }
    forall b
      ensures Spans(ListOf(Entered(p, tx), b), NonceIn(chain, b), Virtual(nonces, chain, b))
    {
      assert Spans(ListOf(p, b), NonceIn(chain, b), Virtual(nonces, chain, b));
    }
  }

  /** A slot taken over in a map whose transactions are indexed, as separate steps. */
  lemma SlotFacts(p: Accounts, q: Accounts, all: set<Tx>, tx: Tx)
    requires Coherent(p, q, all) && tx !in all
    ensures p.txs <= all && q.txs <= all && tx !in p.txs && tx !in q.txs
    ensures OnePerNonce(ListOf(p, tx.sender)) && OnePerNonce(ListOf(q, tx.sender))
  {
    IndexHolds(p, q, all, tx.sender);
  }

  // ---- removing queued transactions of one account ----

  /** The queue lost the transactions `gone` of one account (folded like Coherent). */
  ghost predicate Lost(q: Accounts, a: Address, gone: set<Tx>, q': Accounts) {
    forall key {:trigger OpenDelta(key)} :: OpenDelta(key) ==> q' == WithList(q, a, ListOf(q, a) - gone)
  }

  lemma LostIs(q: Accounts, a: Address, gone: set<Tx>, q': Accounts)
    ensures Lost(q, a, gone, q') <==> q' == WithList(q, a, ListOf(q, a) - gone)
  {
    Unfold();
  }

  lemma LoseNext(q: Accounts, a: Address, txs: seq<Tx>, k: nat, gone: set<Tx>, q1: Accounts, q2: Accounts)
    requires Enumerates(txs, gone) && gone <= ListOf(q, a) && k < |txs|
    requires Lost(q, a, Front(txs, k), q1) && Lost(q1, a, {txs[k]}, q2)
    ensures Lost(q, a, Front(txs, k + 1), q2)
  {
    Unfold();
    var front, tx := Front(txs, k), txs[k];
    assert Front(txs, k + 1) == front + {tx};
    WithListOf(q, a, ListOf(q, a) - front);
    assert ListOf(q1, a) - {tx} == ListOf(q, a) - Front(txs, k + 1);
    assert q1.txs - ListOf(q1, a) == q.txs - ListOf(q, a);
  }

  lemma StillThere(q: Accounts, a: Address, txs: seq<Tx>, k: nat, gone: set<Tx>, q1: Accounts)
    requires Enumerates(txs, gone) && gone <= ListOf(q, a) && k < |txs| && Lost(q, a, Front(txs, k), q1)
    ensures txs[k].sender == a && txs[k] in q1.txs
  {
    Unfold();
    assert txs[k] in txs;
  }

  lemma LoseNone(p: Accounts, q: Accounts, all: set<Tx>, a: Address, txs: seq<Tx>, gone: set<Tx>)
    requires Coherent(p, q, all) && Enumerates(txs, gone) && gone <= ListOf(q, a)
    ensures Lost(q, a, Front(txs, 0), q) && Front(txs, |txs|) == gone
    ensures |WithList(q, a, ListOf(q, a) - gone).txs| == |q.txs| - |gone|
  {
    Unfold();
    SameList(q, a);
    assert ListOf(q, a) - Front(txs, 0) == ListOf(q, a);
    LoseCount(q, a, gone);
  }

  lemma LoseCount(q: Accounts, a: Address, gone: set<Tx>)
    requires gone <= ListOf(q, a)
    ensures |WithList(q, a, ListOf(q, a) - gone).txs| == |q.txs| - |gone|
  {
    var left := WithList(q, a, ListOf(q, a) - gone).txs;
    assert left == q.txs - gone && q.txs == left + gone;
  }

  function SentByAny(txs: set<Tx>, accounts: set<Address>): set<Tx> {
    set t | t in txs && t.sender in accounts
  }

  lemma SendersListed(p: Accounts, q: Accounts, all: set<Tx>)
    requires Coherent(p, q, all)
    ensures q.txs == SentByAny(q.txs, q.keys)
  {
    Unfold();
    forall t | t in q.txs
      ensures t.sender in q.keys
    {
      assert t in ListOf(q, t.sender);
    }
  }

  lemma PendingSendersListed(p: Accounts, q: Accounts, all: set<Tx>)
    requires Coherent(p, q, all)
    ensures p.txs == SentByAny(p.txs, p.keys)
  {
    Unfold();
    forall t | t in p.txs
      ensures t.sender in p.keys
    {
      assert t in ListOf(p, t.sender);
    }
  }

  lemma EvictList(q: Accounts, txs: set<Tx>, kept: set<Address>, a: Address)
    requires q.txs == SentByAny(txs, kept)
    ensures WithList(q, a, ListOf(q, a) - ListOf(q, a)).txs == SentByAny(txs, kept - {a})
  {
  }

  // ---- a reorg run ----

  /** The chain moved on: no account nonce fell. */
  ghost predicate Advanced(chain: Table<nat>, chain': Table<nat>) {
    forall a :: NonceIn(chain, a) <= NonceIn(chain', a)
  }

  /** A gap-free pool, seen from the new head with a fresh nonce table. */
  lemma ClimbStarts(p: Accounts, chain: Table<nat>, nonces: Table<nat>, state: ChainState, gasLimit: nat)
    requires Runs(p, chain, nonces) && Advanced(chain, state.nonces)
    ensures Climbs(p, state, gasLimit, Table(map[]))
  {
    forall a
      ensures Rising(ListOf(p, a), state.Nonce(a), Virtual(Table(map[]), state.nonces, a), state.Balance(a), gasLimit)
    {
      assert Spans(ListOf(p, a), NonceIn(chain, a), Virtual(nonces, chain, a));
      SpansIsRising(ListOf(p, a), NonceIn(chain, a), Virtual(nonces, chain, a), state.Nonce(a), state.Balance(a),
                    gasLimit);
    }
  }

  lemma RunsSettle(p: Accounts, chain: Table<nat>, nonces: Table<nat>)
    requires Runs(p, chain, nonces)
    ensures AllSettled(p, chain, nonces)
  {
    forall a
      ensures Settled(ListOf(p, a), NonceIn(chain, a), Virtual(nonces, chain, a))
    {
      assert Spans(ListOf(p, a), NonceIn(chain, a), Virtual(nonces, chain, a));
      assert !Occupied({}, NonceIn(chain, a));
    }
  }

  /** During the final nonce update: accounts still to do are Settled, the others in step. */
  ghost predicate HalfUpdated(p: Accounts, chain: Table<nat>, nonces: Table<nat>, todo: set<Address>) {
    forall a ::
      if a in todo then Settled(ListOf(p, a), NonceIn(chain, a), Virtual(nonces, chain, a))
      else Spans(ListOf(p, a), NonceIn(chain, a), Virtual(nonces, chain, a))
  }

  lemma UpdateStarts(p: Accounts, q: Accounts, all: set<Tx>, chain: Table<nat>, nonces: Table<nat>)
    requires Coherent(p, q, all) && AllSettled(p, chain, nonces)
    ensures HalfUpdated(p, chain, nonces, p.keys)
  {
    Unfold();
    forall a | a !in p.keys
      ensures Spans(ListOf(p, a), NonceIn(chain, a), Virtual(nonces, chain, a))
    {
      assert ListOf(p, a) == {};
      assert Settled(ListOf(p, a), NonceIn(chain, a), Virtual(nonces, chain, a));
    }
  }

  lemma UpdateStep(p: Accounts, chain: Table<nat>, nonces: Table<nat>, todo: set<Address>, a: Address, txs: seq<Tx>)
    requires HalfUpdated(p, chain, nonces, todo) && a in todo && Enumerates(txs, ListOf(p, a)) && Ascending(txs) &&
             txs != []
    ensures HalfUpdated(p, chain, Put(nonces, a, txs[|txs| - 1].nonce + 1), todo - {a})
  {
    var c, last := NonceIn(chain, a), txs[|txs| - 1];
    assert Settled(ListOf(p, a), c, Virtual(nonces, chain, a));
    var top: nat :| Spans(ListOf(p, a), c, top);
    assert last in txs;
    assert Occupied(ListOf(p, a), last.nonce);
    LastOfRun(txs, ListOf(p, a), c, top);
  }

  lemma UpdateEnds(p: Accounts, chain: Table<nat>, nonces: Table<nat>)
    requires HalfUpdated(p, chain, nonces, {})
    ensures Runs(p, chain, nonces)
  {
  }

  /** `v` is one past the highest nonce of a list. */
  ghost predicate PastLast(list: set<Tx>, v: nat) {
    v > 0 && Occupied(list, v - 1) && forall t :: t in list ==> t.nonce < v
  }

  lemma LastIsPastLast(list: set<Tx>, txs: seq<Tx>)
    requires Enumerates(txs, list) && Ascending(txs) && txs != []
    ensures PastLast(list, txs[|txs| - 1].nonce + 1)
  {
    var last := txs[|txs| - 1];
    assert last in txs;
    forall t | t in list
      ensures t.nonce <= last.nonce
    {
      assert t in txs;
    }
  }

  lemma QueuedListed(p: Accounts, q: Accounts, all: set<Tx>, a: Address)
    requires Coherent(p, q, all)
    ensures OnePerNonce(ListOf(q, a)) && (a in q.keys <==> ListOf(q, a) != {})
  {
    Unfold();
    IndexHolds(p, q, all, a);
  }

  lemma PendingListed(p: Accounts, q: Accounts, all: set<Tx>, a: Address)
    requires Coherent(p, q, all)
    ensures OnePerNonce(ListOf(p, a)) && (a in p.keys <==> ListOf(p, a) != {})
  {
    Unfold();
    IndexHolds(p, q, all, a);
  }

  /** In a gap-free pool the virtual nonce is the chain nonce plus the length of the pending list. */
  lemma VirtualNonceCounts(p: Accounts, q: Accounts, all: set<Tx>, chain: Table<nat>, nonces: Table<nat>, a: Address)
    requires Coherent(p, q, all) && Runs(p, chain, nonces)
    ensures Virtual(nonces, chain, a) == NonceIn(chain, a) + |ListOf(p, a)|
  {
    IndexHolds(p, q, all, a);
    SpanLength(ListOf(p, a), NonceIn(chain, a), Virtual(nonces, chain, a));
  }

  // ---- nothing executable is left in a queue ----

  /** No virtual nonce rose. */
  ghost predicate Lowered(chain: Table<nat>, before: Table<nat>, after: Table<nat>) {
    forall key {:trigger OpenLower(key)} ::
        OpenLower(key) ==> forall a :: Virtual(after, chain, a) <= Virtual(before, chain, a)
  }

  lemma LoweredSame(chain: Table<nat>, nonces: Table<nat>)
    ensures Lowered(chain, nonces, nonces)
  {
  }

  lemma LoweredPut(chain: Table<nat>, nonces: Table<nat>, a: Address, v: nat)
    requires v <= Virtual(nonces, chain, a)
    ensures Lowered(chain, nonces, Put(nonces, a, v))
  {
  }

  lemma LoweredTwice(chain: Table<nat>, x: Table<nat>, y: Table<nat>, z: Table<nat>)
    requires Lowered(chain, x, y) && Lowered(chain, y, z)
    ensures Lowered(chain, x, z)
  {
    assert OpenLower(0);
  }

  /** A pending run determines its virtual nonce. */
  lemma RunsFixNonces(p: Accounts, chain: Table<nat>, x: Table<nat>, y: Table<nat>)
    requires Runs(p, chain, x) && Runs(p, chain, y)
    ensures Lowered(chain, x, y) && forall a :: Virtual(y, chain, a) == Virtual(x, chain, a)
  {
    forall a
      ensures Virtual(y, chain, a) == Virtual(x, chain, a)
    {
      var c, v, w := NonceIn(chain, a), Virtual(x, chain, a), Virtual(y, chain, a);
      assert Spans(ListOf(p, a), c, v) && Spans(ListOf(p, a), c, w);
      assert Occupied(ListOf(p, a), v) <==> c <= v < w;
      assert Occupied(ListOf(p, a), w) <==> c <= w < v;
    }
  }

  /** No queued transaction of these accounts continues its pending run. */
  ghost predicate AllIdle(q: Accounts, chain: Table<nat>, nonces: Table<nat>, done: set<Address>) {
    forall key {:trigger OpenDrain(key)} ::
        OpenDrain(key) ==> forall a :: a in done ==> Ready(ListOf(q, a), Virtual(nonces, chain, a)) == {}
  }

  lemma DrainedIsIdle(q: Accounts, state: ChainState, gasLimit: nat, nonces: Table<nat>, locals: set<Address>,
                      limit: nat, done: set<Address>)
    requires AllDrained(q, state, gasLimit, nonces, locals, limit, done)
    ensures AllIdle(q, state.nonces, nonces, done)
  {
    assert OpenDrain(0);
  }

  /** Dropping queued transactions and lowering nonces makes nothing executable. */
  lemma IdleStays(q: Accounts, q': Accounts, chain: Table<nat>, nonces: Table<nat>, nonces': Table<nat>,
                  done: set<Address>)
    requires AllIdle(q, chain, nonces, done) && q'.txs <= q.txs && Lowered(chain, nonces, nonces')
    ensures AllIdle(q', chain, nonces', done)
  {
    assert OpenDrain(0);
    assert OpenLower(0);
    forall a | a in done
      ensures Ready(ListOf(q', a), Virtual(nonces', chain, a)) == {}
    {
      ReadyOfPart(ListOf(q, a), ListOf(q', a), Virtual(nonces, chain, a), Virtual(nonces', chain, a));
    }
  }
}
