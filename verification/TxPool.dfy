/** The transaction pool: pending and queued lists, the hash index, the price heap and the
    virtual nonces, and the operations that keep them consistent. Lists are held by value;
    list operations are the functions that class TxList refines. */
module Pool {
  import opened Basics
  import opened Transactions
  import opened BinaryHeap
  import SortedMap
  import opened Priced
  import opened Noncer
  import opened PoolState
  import opened Intrinsic
  import opened Admission
  import opened Truncation
  import opened ResetRun

  datatype Config = Config(priceBump: nat, accountSlots: nat, globalSlots: nat, accountQueue: nat, globalQueue: nat,
                           lifetime: int)
  {
    /** What sanitize enforces. */
    predicate Sane() {
      priceBump >= 1 && accountSlots >= 1 && globalSlots >= 1 && accountQueue >= 1 && globalQueue >= 1 && lifetime >= 1
    }
  }

  /** The accepted transactions of a slice, and the senders of those that replaced nothing. */
  ghost function AcceptedOf(txs: seq<Tx>, rs: seq<Outcome>): set<Tx>
    requires |rs| <= |txs|
  {
    set i | 0 <= i < |rs| && rs[i].Accepted? :: txs[i]
  }

  ghost function DirtyOf(txs: seq<Tx>, rs: seq<Outcome>): set<Address>
    requires |rs| <= |txs|
  {
    set i | 0 <= i < |rs| && rs[i] == Accepted(false) :: txs[i].sender
  }

  lemma OneMoreOutcome(txs: seq<Tx>, rs: seq<Outcome>, r: Outcome)
    requires |rs| < |txs|
    ensures var tx := txs[|rs|];
            && AcceptedOf(txs, rs + [r]) == AcceptedOf(txs, rs) + (if r.Accepted? then {tx} else {})
            && DirtyOf(txs, rs + [r]) == DirtyOf(txs, rs) + (if r == Accepted(false) then {tx.sender} else {})
  {
  }

  /** A new chain head: its state, its gas limit, and whether the next block is past Istanbul. */
  datatype Head = Head(state: ChainState, gasLimit: nat, istanbul: bool)

  /** What a run is asked to reset to; a reset fails when it meets a missing block or state. */
  datatype Request = NoReset | ResetFails | ResetTo(head: Head, reinject: seq<Tx>)

  class TxPool {
    const config: Config
    const all: TxLookup
    const priced: TxPricedList
    var pendingNonces: TxNoncer
    var currentState: ChainState
    var currentMaxGas: nat
    var istanbul: bool
    var gasPrice: nat
    var locals: set<Address>
    var pending: Accounts
    var queue: Accounts
    var beats: Table<int>

    /** The parts are well formed, whatever the relation between them. */
    ghost predicate Shaped()
      reads this, all, priced, pendingNonces
    {
      && config.Sane()
      && all.Valid() && priced.Valid() && priced.all == all
      && pendingNonces.fallback == currentState.nonces
    }

    /** Slots are disjoint, the index is the union of the lists, no list is empty, and
        every pooled transaction is in the price heap. */
    ghost predicate Valid()
      reads this, all, priced, pendingNonces
    {
      && Shaped()
      && Coherent(pending, queue, all.all)
      && Tracked(all.all, priced.items)
    }

    /** Pending lists run gap free from the chain nonce to the virtual nonce. */
    ghost predicate Contiguous()
      reads this, pendingNonces
    {
      Runs(pending, currentState.nonces, pendingNonces.nonces)
    }

    /** On the way from a new head: no gaps from the new chain nonces on (see Rising). */
    ghost predicate Advancing()
      reads this, pendingNonces
    {
      Climbs(pending, currentState, currentMaxGas, pendingNonces.nonces)
    }

    /** Gap free from the chain nonces, virtual nonces not yet updated (see Settled). */
    ghost predicate Resting()
      reads this, pendingNonces
    {
      AllSettled(pending, currentState.nonces, pendingNonces.nonces)
    }

    /** The stale counter is the number of dead heap entries. */
    ghost predicate ExactStales()
      reads all, priced
    {
      Exact(all.all, priced.items, priced.stales)
    }

    /** Every pending transaction is payable in the head state. */
    ghost predicate Solvent()
      reads this
    {
      AllPayable(pending, currentState, currentMaxGas)
    }

    /** What ExactStales means: the counter is the number of heap entries whose transaction left the pool. */
    lemma StalesCountDead()
      requires Valid() && ExactStales()
      ensures priced.stales == CountDead(all.all, priced.items)
    {
      StalesAreDead(all.all, priced.items, priced.stales);
    }

    /** What Contiguous means for the virtual nonce. */
    lemma NonceIsChainPlusPending(a: Address)
      requires Valid() && Contiguous()
      ensures pendingNonces.Nonce(a) == currentState.Nonce(a) + |ListOf(pending, a)|
    {
      VirtualNonceCounts(pending, queue, all.all, currentState.nonces, pendingNonces.nonces, a);
    }

    /** A new pool on the given head state. */
    constructor (config: Config, state: ChainState, maxGas: nat, istanbul: bool, priceLimit: nat, locals: set<Address>)
      requires config.Sane()
      ensures Valid() && Contiguous() && ExactStales() && Solvent()
      ensures pending == queue == NO_ACCOUNTS && this.locals == locals && this.config == config && beats == Table(map[])
      ensures currentState == state && currentMaxGas == maxGas && this.istanbul == istanbul && gasPrice == priceLimit
      ensures fresh(all) && fresh(priced) && fresh(pendingNonces)
    {
      this.config := config;
      var lookup := new TxLookup();
      this.all := lookup;
      this.priced := new TxPricedList(lookup);
      this.pendingNonces := new TxNoncer(state.nonces);
      currentState, currentMaxGas, this.istanbul, gasPrice := state, maxGas, istanbul, priceLimit;
      this.locals, pending, queue, beats := locals, NO_ACCOUNTS, NO_ACCOUNTS, Table(map[]);
      NonePayable(state, maxGas);
    }

    /** A list as a slice, in whatever order a map iteration gives. */
    static method Slice(list: set<Tx>) returns (txs: seq<Tx>)
      ensures Enumerates(txs, list) && |txs| == |list|
    {
      txs := [];
      var todo := list;
      while todo != {}
        invariant todo <= list && Enumerates(txs, list - todo)
        decreases todo
      {
        var tx :| tx in todo;
        EnumerateOneMore(txs, list - todo, tx);
        assert list - (todo - {tx}) == (list - todo) + {tx};
        todo := todo - {tx};
        txs := txs + [tx];
      }
      assert list - {} == list;
      EnumerationLength(txs, list);
    }

    /** A list in nonce order. */
    static method Flatten(list: set<Tx>) returns (txs: seq<Tx>)
      requires OnePerNonce(list)
      ensures Enumerates(txs, list) && Ascending(txs)
    {
      var any := Slice(list);
      txs := Sort(any, SortedMap.TxRank);
      SortedMap.SortedEnumeration(any, txs, list);
    }

    /** Takes transactions out of the hash index. */
    method Unindex(txs: seq<Tx>, ghost gone: set<Tx>)
      requires all.Valid() && Enumerates(txs, gone) && gone <= all.all
      modifies all
      ensures all.Valid() && all.all == old(all.all) - gone
    {
      for k := 0 to |txs|
        invariant all.Valid() && all.all == old(all.all) - (set i | 0 <= i < k :: txs[i])
      {
        assert txs[k] in txs;
        all.Remove(txs[k]);
      }
      assert (set i | 0 <= i < |txs| :: txs[i]) == gone;
    }

    // ---- one transaction into or out of the index and the heap ----

    /** all.Remove followed by priced.Removed(1). */
    method DropOne(tx: Tx)
      requires Shaped() && tx in all.all
      modifies all, priced
      ensures Shaped() && all.all == old(all.all) - {tx}
      ensures old(Tracked(all.all, priced.items)) ==> Tracked(all.all, priced.items)
      ensures old(ExactStales()) ==> ExactStales()
      ensures forall t :: t in priced.items ==> t in old(priced.items) || t in all.all
      ensures old(priced.Rebuilds(1)) ==> forall t :: t in priced.items ==> t in all.all
      ensures !old(priced.Rebuilds(1)) ==> priced.items == old(priced.items)
    {
      all.Remove(tx);
      ReportDropped(1, old(all.all));
    }

    /** all.Add followed by priced.Put. */
    method PutOne(tx: Tx)
      requires Shaped() && tx !in all.all
      modifies all, priced
      ensures Shaped() && all.all == old(all.all) + {tx}
      ensures old(Tracked(all.all, priced.items)) ==> Tracked(all.all, priced.items)
      ensures old(ExactStales()) ==> (ExactStales() <==> tx !in old(priced.items))
      ensures forall t :: t in priced.items ==> t in old(priced.items) || t == tx
    {
      all.Add(tx);
      priced.Put(tx);
      PutKeepsPriced(old(all.all), old(priced.items), priced.stales, tx, priced.items);
    }

    /** Index and heap once a transaction took its slot in a map: the one it replaced leaves, and it enters
        unless it is only moving between the maps. */
    method EnterIndex(m: Accounts, tx: Tx)
      requires Shaped() && OnePerNonce(ListOf(m, tx.sender)) && m.txs <= all.all && tx !in m.txs
      modifies all, priced
      ensures Shaped() && all.all == EnteredIndex(m, old(all.all), tx)
      ensures !Occupied(ListOf(m, tx.sender), tx.nonce) && tx in old(all.all) ==> unchanged(all) && unchanged(priced)
      ensures old(Tracked(all.all, priced.items)) ==> Tracked(all.all, priced.items)
      ensures old(Tracked(all.all, priced.items)) ==>
                forall t :: t in priced.items ==> t in old(priced.items) || t == tx
      ensures old(ExactStales()) ==>
                (ExactStales() <==> old(tx in all.all || tx !in priced.items || ClearsCopies(m, tx)))
    {
      EnterSteps(m, all.all, tx);
      if Occupied(ListOf(m, tx.sender), tx.nonce) {
        DropOne(TxAt(ListOf(m, tx.sender), tx.nonce));
      }
      if tx !in all.all {
        PutOne(tx);
      }
    }

    /** Does the transaction replace one, and does that trigger a rebuild of the heap. */
    ghost predicate ClearsCopies(m: Accounts, tx: Tx)
      reads priced
    {
      Occupied(ListOf(m, tx.sender), tx.nonce) && priced.Rebuilds(1)
    }

    /** Inserts into the queue, over a transaction it outbids. */
    method EnqueueTx(tx: Tx) returns (inserted: bool, replaced: bool)
      requires Shaped() && OnePerNonce(ListOf(queue, tx.sender)) && queue.txs <= all.all && tx !in queue.txs
      modifies this`queue, all, priced
      ensures Shaped()
      ensures replaced ==> inserted && Occupied(ListOf(old(queue), tx.sender), tx.nonce)
      ensures inserted <==> (Occupied(ListOf(old(queue), tx.sender), tx.nonce) ==>
                Outbids(TxAt(ListOf(old(queue), tx.sender), tx.nonce), tx, config.priceBump))
      ensures !inserted ==> queue == old(queue) && unchanged(all) && unchanged(priced)
      ensures inserted ==>
                && queue == Entered(old(queue), tx)
                && replaced == Occupied(ListOf(old(queue), tx.sender), tx.nonce)
                && all.all == EnteredIndex(old(queue), old(all.all), tx)
      ensures inserted && !replaced && tx in old(all.all) ==> unchanged(all) && unchanged(priced)
      ensures inserted && tx !in old(all.all) ==>
                && (old(Tracked(all.all, priced.items)) ==> Tracked(all.all, priced.items))
                && (old(ExactStales()) ==>
                     (ExactStales() <==> tx !in old(priced.items) || (replaced && old(priced.Rebuilds(1)))))
      ensures old(Tracked(all.all, priced.items)) ==>
                forall t :: t in priced.items ==> t in old(priced.items) || t == tx
    {
      var list := ListOf(queue, tx.sender);
      replaced := Occupied(list, tx.nonce);
      inserted := replaced ==> Outbids(TxAt(list, tx.nonce), tx, config.priceBump);
      if !inserted {
        return false, false;
      }
      EnterIndex(queue, tx);
      queue := Entered(queue, tx);
    }

    // ---- moving and removing ----

    /** Postpones transactions that left the pending list. Each is still indexed and finds its
        queue slot free, so each is inserted and nothing else changes. */
    method Demote(a: Address, txs: seq<Tx>, ghost list: set<Tx>)
      requires Shaped() && Enumerates(txs, list) && Movable(queue, all.all, a, list)
      modifies this`queue, all, priced
      ensures Shaped() && unchanged(all) && unchanged(priced)
      ensures queue == WithList(old(queue), a, ListOf(old(queue), a) + list)
    {
      MoveNone(queue, all.all, a, txs, list);
      for k := 0 to |txs|
        invariant Shaped() && unchanged(all) && unchanged(priced)
        invariant Gained(old(queue), a, Front(txs, k), queue)
      {
        MoveNext(old(queue), all.all, a, txs, k, list, queue);
        var inserted, replaced := EnqueueTx(txs[k]);
      }
      GainedIs(old(queue), a, list, queue);
    }

    /** Replaces an account's pending list; an account left without one loses its heartbeat. */
    method SetPending(a: Address, list: set<Tx>)
      modifies this`pending, this`beats
      ensures pending == old(WithList(pending, a, list))
      ensures beats == if list == {} then Drop(old(beats), a) else old(beats)
    {
      pending := WithList(pending, a, list);
      if list == {} {
        beats := Drop(beats, a);
      }
    }

    /** Cuts a pending list at the transaction, postpones what was above it, lowers the virtual nonce. */
    method Unpend(tx: Tx)
      requires Shaped() && tx in pending.txs
      requires Movable(queue, all.all, tx.sender, AtLeast(ListOf(pending, tx.sender), tx.nonce + 1))
      modifies this`pending, this`queue, this`beats, all, priced, pendingNonces
      ensures Shaped() && unchanged(all) && unchanged(priced)
      ensures pending == PendingWithout(old(pending), tx)
      ensures queue == QueueWithout(old(pending), old(queue), tx)
      ensures pendingNonces.nonces == Put(old(pendingNonces.nonces), tx.sender,
                                          Lesser(tx.nonce, old(pendingNonces.Nonce(tx.sender))))
      ensures beats == if Below(ListOf(old(pending), tx.sender), tx.nonce) == {} then Drop(old(beats), tx.sender)
              else old(beats)
    {
      CutPending(tx.sender, tx.nonce);
      pendingNonces.SetIfLower(tx.sender, tx.nonce);
    }

    /** Cuts a pending list below a nonce and postpones what was above it. */
    method CutPending(a: Address, nonce: nat)
      requires Shaped() && Movable(queue, all.all, a, AtLeast(ListOf(pending, a), nonce + 1))
      modifies this`pending, this`queue, this`beats, all, priced
      ensures Shaped() && unchanged(all) && unchanged(priced)
      ensures pending == old(WithList(pending, a, Below(ListOf(pending, a), nonce)))
      ensures queue == old(WithList(queue, a, ListOf(queue, a) + AtLeast(ListOf(pending, a), nonce + 1)))
      ensures beats == if Below(ListOf(old(pending), a), nonce) == {} then Drop(old(beats), a) else old(beats)
    {
      var list := ListOf(pending, a);
      var upper := AtLeast(list, nonce + 1);
      var invalids := Slice(upper);
      SetPending(a, Below(list, nonce));
      Demote(a, invalids, upper);
    }

    method RemoveTx(tx: Tx, outofbound: bool)
      requires Shaped() && Coherent(pending, queue, all.all)
      modifies this`pending, this`queue, this`beats, all, priced, pendingNonces
      ensures Shaped() && Coherent(pending, queue, all.all)
      ensures all.all == old(all.all) - {tx}
      ensures tx !in old(all.all) ==>
                pending == old(pending) && queue == old(queue) && unchanged(priced) && unchanged(pendingNonces)
      ensures tx in old(all.all) ==>
                && pending == PendingWithout(old(pending), tx)
                && queue == QueueWithout(old(pending), old(queue), tx)
      ensures tx !in old(pending.txs) ==> unchanged(pendingNonces) && beats == old(beats)
      ensures tx in old(all.all) && tx in old(pending.txs) ==>
                && pendingNonces.nonces == Put(old(pendingNonces.nonces), tx.sender,
                                               Lesser(tx.nonce, old(pendingNonces.Nonce(tx.sender))))
                && beats == if Below(ListOf(old(pending), tx.sender), tx.nonce) == {} then Drop(old(beats), tx.sender)
                   else old(beats)
      ensures !outofbound ==> unchanged(priced)
      ensures outofbound ==> (old(Tracked(all.all, priced.items)) ==> Tracked(all.all, priced.items))
      ensures outofbound ==> (old(ExactStales()) ==> ExactStales())
      ensures old(Contiguous()) ==> Contiguous()
      ensures pending.txs <= old(pending).txs
    {
      if tx !in all.all {
        return;
      }
      WithoutIsPart(pending, tx);
      RemoveCoherent(pending, queue, all.all, tx);
      if old(Contiguous()) && tx in pending.txs {
        RunsRemove(pending, currentState.nonces, pendingNonces.nonces, tx);
      }
      if outofbound {
        DropOne(tx);
      } else {
        all.Remove(tx);
      }
      if Occupied(ListOf(pending, tx.sender), tx.nonce) {
        Unpend(tx);
      } else {
        queue := WithList(queue, tx.sender, ListOf(queue, tx.sender) - {tx});
      }
    }

    /** Inserts into the pending list and moves the virtual nonce past the transaction. */
    method PromoteTx(addr: Address, tx: Tx, now: int) returns (inserted: bool)
      requires Shaped() && tx.sender == addr
      requires OnePerNonce(ListOf(pending, addr)) && pending.txs <= all.all && tx !in pending.txs
      requires Occupied(ListOf(pending, addr), tx.nonce) ==> tx in all.all
      modifies this`pending, this`beats, all, priced, pendingNonces
      ensures Shaped()
      ensures inserted <==> (Occupied(ListOf(old(pending), addr), tx.nonce) ==>
                Outbids(TxAt(ListOf(old(pending), addr), tx.nonce), tx, config.priceBump))
      ensures inserted ==>
                && pending == Entered(old(pending), tx)
                && all.all == EnteredIndex(old(pending), old(all.all), tx)
                && pendingNonces.nonces == Put(old(pendingNonces.nonces), addr, tx.nonce + 1)
      ensures !inserted ==> pending == old(pending) && all.all == old(all.all) - {tx} && unchanged(pendingNonces)
      ensures beats == if inserted then Put(old(beats), addr, now) else old(beats)
      ensures !Occupied(ListOf(old(pending), addr), tx.nonce) && tx in old(all.all) ==>
                unchanged(all) && unchanged(priced)
      ensures old(Tracked(all.all, priced.items)) ==> Tracked(all.all, priced.items)
      ensures old(ExactStales()) ==> (ExactStales() <==> tx in old(all.all) || tx !in old(priced.items))
    {
      var list := ListOf(pending, addr);
      var taken := Occupied(list, tx.nonce);
      inserted := taken ==> Outbids(TxAt(list, tx.nonce), tx, config.priceBump);
      if !inserted {
        DropOne(tx);
        return;
      }
      EnterIndex(pending, tx);
      pending := Entered(pending, tx);
      beats := Put(beats, addr, now);
      pendingNonces.Set(addr, tx.nonce + 1);
    }

    // ---- promoting ----

    /** Promotion into a free slot always inserts and replaces nothing. */
    method PromoteFree(tx: Tx, now: int)
      requires Shaped() && tx in all.all && pending.txs <= all.all && tx !in pending.txs
      requires OnePerNonce(ListOf(pending, tx.sender)) && !Occupied(ListOf(pending, tx.sender), tx.nonce)
      modifies this`pending, this`beats, all, priced, pendingNonces
      ensures Shaped() && unchanged(all) && unchanged(priced)
      ensures pending == Entered(old(pending), tx)
      ensures pendingNonces.nonces == Put(old(pendingNonces.nonces), tx.sender, tx.nonce + 1)
    {
      var inserted := PromoteTx(tx.sender, tx, now);
    }

    /** Promotes a slice of transactions whose pending slots are free: all are inserted. */
    method PromoteAll(a: Address, txs: seq<Tx>, ghost list: set<Tx>, now: int)
      requires Shaped() && Enumerates(txs, list) && Movable(pending, all.all, a, list)
      modifies this`pending, this`beats, all, priced, pendingNonces
      ensures Shaped() && unchanged(all) && unchanged(priced)
      ensures pending == WithList(old(pending), a, ListOf(old(pending), a) + list)
      ensures pendingNonces.nonces == NoncesAfter(old(pendingNonces.nonces), a, txs, |txs|)
    {
      MoveNone(pending, all.all, a, txs, list);
      for k := 0 to |txs|
        invariant Shaped() && unchanged(all) && unchanged(priced)
        invariant Gained(old(pending), a, Front(txs, k), pending)
        invariant pendingNonces.nonces == NoncesAfter(old(pendingNonces.nonces), a, txs, k)
      {
        MoveNext(old(pending), all.all, a, txs, k, list, pending);
        NoncesStep(old(pendingNonces.nonces), a, txs, k);
        PromoteFree(txs[k], now);
      }
      GainedIs(old(pending), a, list, pending);
    }

    /** Enforces the per-account queue limit on a remote account's remaining list. */
    method CapQueue(a: Address, list: set<Tx>) returns (kept: set<Tx>, count: nat)
      requires Shaped() && list <= all.all
      modifies all
      ensures Shaped() && kept == old(Requeued(list, a in locals, config.accountQueue))
      ensures all.all == old(all.all) - (list - kept) && count == |list - kept| && kept <= list
      ensures a in locals ==> kept == list
    {
      kept, count := list, 0;
      if a !in locals {
        kept := Lowest(list, config.accountQueue);
        var caps := Slice(list - kept);
        Unindex(caps, list - kept);
        count := |caps|;
      }
    }

    /** Unindexes the stale and the unpayable transactions of a list; returns the part that is not stale. */
    method Weed(list: set<Tx>, nonce: nat, balance: int, gasLimit: nat) returns (upper: set<Tx>, count: nat)
      requires Shaped() && list <= all.all
      modifies all
      ensures Shaped() && upper == AtLeast(list, nonce)
      ensures all.all == old(all.all) - (Below(list, nonce) + Unpayable(upper, balance, gasLimit))
      ensures count == |Below(list, nonce)| + |Unpayable(upper, balance, gasLimit)|
    {
      var olds := Slice(Below(list, nonce));
      Unindex(olds, Below(list, nonce));
      upper := AtLeast(list, nonce);
      var drops := Slice(Unpayable(upper, balance, gasLimit));
      Unindex(drops, Unpayable(upper, balance, gasLimit));
      count := |olds| + |drops|;
    }

    /** Moves the run that continues at the virtual nonce from the remaining list to pending. */
    method PromoteReady(a: Address, list: set<Tx>, now: int) returns (promoted: seq<Tx>, ready: set<Tx>)
      requires Shaped() && Movable(pending, all.all, a, list) && OnePerNonce(list)
      modifies this`pending, this`beats, all, priced, pendingNonces
      ensures Shaped() && unchanged(all) && unchanged(priced)
      ensures ready == Ready(list, old(pendingNonces.Nonce(a))) <= list && Enumerates(promoted, ready) &&
              Ascending(promoted)
      ensures pending == WithList(old(pending), a, ListOf(old(pending), a) + ready)
      ensures pendingNonces.nonces == Put(old(pendingNonces.nonces), a, Next(promoted, old(pendingNonces.Nonce(a))))
    {
      var v := pendingNonces.Get(a);
      ready := Ready(list, v);
      promoted := Flatten(ready);
      MovePart(pending, all.all, a, list, ready);
      PromoteAll(a, promoted, ready, now);
      PutTwice(old(pendingNonces.nonces), a, v, Next(promoted, v));
    }

    /** The account's queued transactions that are neither stale nor too costly. */
    ghost function EligibleOf(a: Address): set<Tx>
      reads this
    {
      Eligible(ListOf(queue, a), currentState.Nonce(a), currentState.Balance(a), currentMaxGas)
    }

    /** Those of them that continue the pending run. */
    ghost function ReadyOf(a: Address): set<Tx>
      reads this, pendingNonces
    {
      Ready(EligibleOf(a), pendingNonces.Nonce(a))
    }

    /** And those that stay queued. */
    ghost function RequeuedOf(a: Address): set<Tx>
      reads this, pendingNonces
    {
      Requeued(EligibleOf(a) - ReadyOf(a), a in locals, config.accountQueue)
    }

    /** Drops stale, unpayable and excess queued transactions of an account and promotes the ready ones. */
    method PromoteListed(a: Address, now: int) returns (promoted: seq<Tx>)
      requires Valid()
      modifies this`pending, this`queue, this`beats, all, priced, pendingNonces
      ensures Valid() && all.all <= old(all.all)
      ensures old(ExactStales()) ==> ExactStales()
      ensures Enumerates(promoted, old(ReadyOf(a))) && Ascending(promoted)
      ensures pending == old(WithList(pending, a, ListOf(pending, a) + ReadyOf(a)))
      ensures queue == old(WithList(queue, a, RequeuedOf(a)))
      ensures pendingNonces.nonces == Put(old(pendingNonces.nonces), a, Next(promoted, old(pendingNonces.Nonce(a))))
    {
      var count;
      promoted, count := MoveListed(a, now);
      ReportDropped(count, old(all.all));
    }

    /** The part of PromoteListed before the price heap is told. */
    method MoveListed(a: Address, now: int) returns (promoted: seq<Tx>, count: nat)
      requires Shaped() && Coherent(pending, queue, all.all)
      modifies this`pending, this`queue, this`beats, all, priced, pendingNonces
      ensures Shaped() && Coherent(pending, queue, all.all) && unchanged(priced)
      ensures all.all <= old(all.all) && |all.all| == |old(all.all)| - count
      ensures Enumerates(promoted, old(ReadyOf(a))) && Ascending(promoted)
      ensures pending == old(WithList(pending, a, ListOf(pending, a) + ReadyOf(a)))
      ensures queue == old(WithList(queue, a, RequeuedOf(a)))
      ensures pendingNonces.nonces == Put(old(pendingNonces.nonces), a, Next(promoted, old(pendingNonces.Nonce(a))))
    {
      ghost var p, q, all0 := pending, queue, all.all;
      IndexHolds(p, q, all0, a);
      EligibleParts(ListOf(q, a), currentState.Nonce(a), currentState.Balance(a), currentMaxGas);
      var upper, dropped := Weed(ListOf(queue, a), currentState.Nonce(a), currentState.Balance(a), currentMaxGas);
      var eligible := Kept(upper, false, currentState.Balance(a), currentMaxGas);
      ghost var all1 := all.all;
      QueuedIsMovable(p, q, all0, a, eligible, all1);
      var run, rest, capped;
      promoted, run, rest, capped := PromoteEligible(a, eligible, now);
      PromoteCoherent(p, q, all0, a, eligible, run, rest, all1, all.all);
      queue := WithList(queue, a, rest);
      count := dropped + capped;
    }

    /** Moves the ready ones of an account's remaining transactions to pending and caps the others. */
    method PromoteEligible(a: Address, eligible: set<Tx>, now: int)
      returns (promoted: seq<Tx>, run: set<Tx>, rest: set<Tx>, capped: nat)
      requires Shaped() && Movable(pending, all.all, a, eligible) && OnePerNonce(eligible) && eligible <= all.all
      modifies this`pending, this`beats, all, priced, pendingNonces
      ensures Shaped() && unchanged(priced)
      ensures run == Ready(eligible, old(pendingNonces.Nonce(a))) <= eligible
      ensures Enumerates(promoted, run) && Ascending(promoted)
      ensures rest == Requeued(eligible - run, a in locals, config.accountQueue) <= eligible - run
      ensures all.all == old(all.all) - ((eligible - run) - rest) && capped == |(eligible - run) - rest|
      ensures pending == WithList(old(pending), a, ListOf(old(pending), a) + run)
      ensures pendingNonces.nonces == Put(old(pendingNonces.nonces), a, Next(promoted, old(pendingNonces.Nonce(a))))
    {
      promoted, run := PromoteReady(a, eligible, now);
      rest, capped := CapQueue(a, eligible - run);
    }

    /** Accounts whose queues have nothing left to promote, drop or cap. */
    ghost predicate DrainedFor(done: set<Address>)
      reads this, pendingNonces
    {
      AllDrained(queue, currentState, currentMaxGas, pendingNonces.nonces, locals, config.accountQueue, done)
    }

    /** Accounts whose lists are exactly what promotion makes of those in `p` and `q` with nonces `n`. */
    ghost predicate PromotedSince(p: Accounts, q: Accounts, n: Table<nat>, done: set<Address>)
      reads this, pendingNonces
    {
      AllPromoted(p, q, n, Terms(currentState, currentMaxGas, locals, config.accountQueue), pending, queue,
                  pendingNonces.nonces, done)
    }

    /** Promotion of an account that has a queue, and what it keeps. */
    method PromoteQueued(a: Address, now: int) returns (promoted: seq<Tx>)
      requires Valid()
      modifies this`pending, this`queue, this`beats, all, priced, pendingNonces
      ensures Valid() && all.all <= old(all.all)
      ensures old(ExactStales()) ==> ExactStales()
      ensures old(Contiguous()) ==> Contiguous()
      ensures old(Advancing()) ==> Advancing()
      ensures Enumerates(promoted, old(ReadyOf(a))) && Ascending(promoted)
      ensures pending == old(WithList(pending, a, ListOf(pending, a) + ReadyOf(a)))
      ensures queue == old(WithList(queue, a, RequeuedOf(a)))
      ensures pendingNonces.nonces == Put(old(pendingNonces.nonces), a, Next(promoted, old(pendingNonces.Nonce(a))))
      ensures old(pending).txs <= pending.txs && pending.txs - old(pending).txs == old(ReadyOf(a))
    {
      PromotionAdds(pending, queue, all.all, a, ReadyOf(a));
      promoted := PromoteListed(a, now);
      if old(Contiguous()) {
        RunsPromote(old(pending), old(queue), old(all.all), a, currentState, currentMaxGas, old(pendingNonces.nonces),
                    promoted);
      }
      if old(Advancing()) {
        ClimbsPromote(old(pending), old(queue), old(all.all), a, currentState, currentMaxGas, old(pendingNonces.nonces),
                      promoted);
      }
    }

    /** One account, whether or not it has a queue. */
    method PromoteAccount(a: Address, now: int, ghost p: Accounts, ghost q: Accounts, ghost n: Table<nat>,
                          ghost done: set<Address>)
      returns (promoted: seq<Tx>)
      requires Valid() && DrainedFor(done) && PromotedSince(p, q, n, done)
      modifies this`pending, this`queue, this`beats, all, priced, pendingNonces
      ensures Valid() && DrainedFor(done + {a}) && PromotedSince(p, q, n, done + {a})
      ensures old(ExactStales()) ==> ExactStales()
      ensures old(Contiguous()) ==> Contiguous()
      ensures old(Advancing()) ==> Advancing()
      ensures all.all <= old(all.all) && old(pending).txs <= pending.txs &&
              Enumerates(promoted, pending.txs - old(pending).txs)
    {
      ghost var w := Terms(currentState, currentMaxGas, locals, config.accountQueue);
      QueuedListed(pending, queue, all.all, a);
      promoted := [];
      if a in queue.keys {
        promoted := PromoteQueued(a, now);
        ghost var nonces := old(pendingNonces.nonces);
        DrainOne(old(queue), currentState, currentMaxGas, nonces, locals, config.accountQueue, done, a, promoted);
        PromotedOne(p, q, n, w, old(pending), old(queue), nonces, done, a, Next(promoted, old(pendingNonces.Nonce(a))));
      } else {
        DrainNone(queue, currentState, currentMaxGas, pendingNonces.nonces, locals, config.accountQueue, done, a);
        PromotedAbsent(p, q, n, w, pending, queue, pendingNonces.nonces, done, a);
        assert pending.txs - pending.txs == {};
      }
    }

    /** priced.Removed for transactions that already left the index. */
    method ReportDropped(count: nat, ghost before: set<Tx>)
      requires Shaped() && all.all <= before && |all.all| == |before| - count
      modifies priced
      ensures Shaped()
      ensures Tracked(before, old(priced.items)) ==> Tracked(all.all, priced.items)
      ensures Exact(before, old(priced.items), old(priced.stales)) ==> ExactStales()
      ensures forall t :: t in priced.items ==> t in old(priced.items) || t in all.all
      ensures old(priced.Rebuilds(count)) ==> forall t :: t in priced.items ==> t in all.all
      ensures !old(priced.Rebuilds(count)) ==> priced.items == old(priced.items)
    {
      priced.Removed(count);
      DropKeepsPriced(before, old(priced.items), old(priced.stales), all.all, count, priced.items, priced.stales);
    }

    /** One account of several, with the transactions promoted so far. */
    method PromoteNext(a: Address, now: int, soFar: seq<Tx>, ghost p: Accounts, ghost q: Accounts, ghost n: Table<nat>,
                       ghost done: set<Address>)
      returns (promoted: seq<Tx>)
      requires Valid() && DrainedFor(done) && PromotedSince(p, q, n, done)
      requires p.txs <= pending.txs && Enumerates(soFar, pending.txs - p.txs)
      modifies this`pending, this`queue, this`beats, all, priced, pendingNonces
      ensures Valid() && DrainedFor(done + {a}) && PromotedSince(p, q, n, done + {a})
      ensures all.all <= old(all.all) && p.txs <= pending.txs && Enumerates(promoted, pending.txs - p.txs)
      ensures old(ExactStales()) ==> ExactStales()
      ensures old(Contiguous()) ==> Contiguous()
      ensures old(Advancing()) ==> Advancing()
    {
      var more := PromoteAccount(a, now, p, q, n, done);
      EnumerateMore(soFar, more, p.txs, old(pending).txs, pending.txs);
      promoted := soFar + more;
    }

    method PromoteExecutables(accounts: seq<Address>, now: int) returns (promoted: seq<Tx>)
      requires Valid()
      modifies this`pending, this`queue, this`beats, all, priced, pendingNonces
      ensures Valid() && DrainedFor(Among(accounts))
      ensures PromotedSince(old(pending), old(queue), old(pendingNonces.nonces), Among(accounts))
      ensures all.all <= old(all.all) && old(pending).txs <= pending.txs &&
              Enumerates(promoted, pending.txs - old(pending).txs)
      ensures old(ExactStales()) ==> ExactStales()
      ensures old(Contiguous()) ==> Contiguous()
      ensures old(Solvent()) ==> Solvent()
      ensures old(Advancing()) ==> Advancing()
    {
      promoted := [];
      ghost var done := {};
      PromotedNone(pending, queue, pendingNonces.nonces,
                   Terms(currentState, currentMaxGas, locals, config.accountQueue));
      assert pending.txs - pending.txs == {};
      for i := 0 to |accounts|
        invariant Valid() && DrainedFor(done) && done == Among(accounts[..i])
        invariant PromotedSince(old(pending), old(queue), old(pendingNonces.nonces), done)
        invariant all.all <= old(all.all) && old(pending).txs <= pending.txs &&
                  Enumerates(promoted, pending.txs - old(pending).txs)
        invariant old(ExactStales()) ==> ExactStales()
        invariant old(Contiguous()) ==> Contiguous()
        invariant old(Advancing()) ==> Advancing()
      {
        promoted := PromoteNext(accounts[i], now, promoted, old(pending), old(queue), old(pendingNonces.nonces), done);
        AmongOne(accounts, i);
        done := done + {accounts[i]};
      }
      assert accounts[..|accounts|] == accounts;
      if old(Solvent()) {
        PromotedPayable(old(pending), old(queue), old(pendingNonces.nonces), TermsNow(), pending, queue,
                        pendingNonces.nonces, done);
      }
    }

    // ---- demoting ----

    ghost function SurvivingOf(a: Address): set<Tx>
      reads this
    {
      Surviving(ListOf(pending, a), currentState.Nonce(a), currentState.Balance(a), currentMaxGas)
    }

    ghost function PostponedOf(a: Address): set<Tx>
      reads this
    {
      Postponed(ListOf(pending, a), currentState.Nonce(a), currentState.Balance(a), currentMaxGas)
    }

    /** Postpones the invalidated transactions, and the kept ones too when they are behind a gap. */
    method Postpone(a: Address, invalid: set<Tx>, kept: set<Tx>, nonce: nat)
      requires Shaped() && invalid !! kept && Movable(queue, all.all, a, invalid + BehindGap(kept, nonce))
      modifies this`pending, this`queue, this`beats, all, priced
      ensures Shaped() && unchanged(all) && unchanged(priced)
      ensures queue == old(WithList(queue, a, ListOf(queue, a) + (invalid + BehindGap(kept, nonce))))
      ensures pending == old(WithList(pending, a, kept - BehindGap(kept, nonce)))
    {
      PostponeBoth(a, invalid, BehindGap(kept, nonce));
      SetPending(a, kept - BehindGap(kept, nonce));
    }

    /** Two slices one after the other. */
    method PostponeBoth(a: Address, invalid: set<Tx>, behind: set<Tx>)
      requires Shaped() && invalid !! behind && Movable(queue, all.all, a, invalid + behind)
      modifies this`queue, all, priced
      ensures Shaped() && unchanged(all) && unchanged(priced)
      ensures queue == old(WithList(queue, a, ListOf(queue, a) + (invalid + behind)))
    {
      MoveTwice(queue, all.all, a, invalid, behind);
      var invalids := Slice(invalid);
      Demote(a, invalids, invalid);
      var gapped := Slice(behind);
      Demote(a, gapped, behind);
    }

    /** Drops an account's stale and unpayable pending transactions from the index and the heap. */
    method WeedPending(a: Address) returns (upper: set<Tx>)
      requires Valid()
      modifies all, priced
      ensures Shaped() && Tracked(all.all, priced.items) && all.all <= old(all.all)
      ensures old(ExactStales()) ==> ExactStales()
      ensures upper == old(AtLeast(ListOf(pending, a), currentState.Nonce(a)))
      ensures Movable(queue, all.all, a, old(PostponedOf(a)))
      ensures Coherent(WithList(pending, a, old(SurvivingOf(a))),
                       WithList(queue, a, ListOf(queue, a) + old(PostponedOf(a))), all.all)
    {
      var count;
      upper, count := UnindexPending(a);
      ReportDropped(count, old(all.all));
    }

    /** The part of WeedPending before the price heap is told. */
    method UnindexPending(a: Address) returns (upper: set<Tx>, count: nat)
      requires Shaped() && Coherent(pending, queue, all.all)
      modifies all
      ensures Shaped() && all.all <= old(all.all) && |all.all| == |old(all.all)| - count
      ensures upper == old(AtLeast(ListOf(pending, a), currentState.Nonce(a)))
      ensures Movable(queue, all.all, a, old(PostponedOf(a)))
      ensures Coherent(WithList(pending, a, old(SurvivingOf(a))),
                       WithList(queue, a, ListOf(queue, a) + old(PostponedOf(a))), all.all)
    {
      ghost var all0, list := all.all, ListOf(pending, a);
      IndexHolds(pending, queue, all0, a);
      upper, count := Weed(ListOf(pending, a), currentState.Nonce(a), currentState.Balance(a), currentMaxGas);
      DemoteCoherent(pending, queue, all0, a, currentState.Nonce(a), currentState.Balance(a), currentMaxGas, all.all,
                     count);
    }

    /** Drops stale and unpayable pending transactions of an account and postpones what they invalidate. */
    method DemoteAccount(a: Address)
      requires Valid()
      modifies this`pending, this`queue, this`beats, all, priced
      ensures Valid() && all.all <= old(all.all)
      ensures old(ExactStales()) ==> ExactStales()
      ensures pending == old(WithList(pending, a, SurvivingOf(a)))
      ensures queue == old(WithList(queue, a, ListOf(queue, a) + PostponedOf(a)))
    {
      var nonce, balance, gasLimit := currentState.Nonce(a), currentState.Balance(a), currentMaxGas;
      var upper := WeedPending(a);
      Postpone(a, Invalidated(upper, balance, gasLimit), Kept(upper, true, balance, gasLimit), nonce);
    }

    /** One account of the sweep. */
    method DemoteNext(a: Address, ghost p0: Accounts, ghost q0: Accounts, ghost todo: set<Address>)
      requires Valid() && AllDemoted(p0, q0, currentState, currentMaxGas, pending, queue, todo) && a in todo
      modifies this`pending, this`queue, this`beats, all, priced
      ensures Valid() && AllDemoted(p0, q0, currentState, currentMaxGas, pending, queue, todo - {a}) &&
              all.all <= old(all.all)
      ensures old(ExactStales()) ==> ExactStales()
      ensures old(HalfSettled(pending, currentState, currentMaxGas, pendingNonces.nonces, todo)) ==>
                HalfSettled(pending, currentState, currentMaxGas, pendingNonces.nonces, todo - {a})
    {
      DemotedOne(p0, q0, currentState, currentMaxGas, pending, queue, todo, a);
      if HalfSettled(pending, currentState, currentMaxGas, pendingNonces.nonces, todo) {
        DemotionStep(pending, queue, all.all, currentState, currentMaxGas, pendingNonces.nonces, todo, a);
      }
      DemoteAccount(a);
    }

    method DemoteUnexecutables()
      requires Valid()
      modifies this`pending, this`queue, this`beats, all, priced
      ensures Valid() && AllDemoted(old(pending), old(queue), currentState, currentMaxGas, pending, queue, {}) &&
              all.all <= old(all.all)
      ensures old(ExactStales()) ==> ExactStales()
      ensures old(Advancing()) ==> Resting()
    {
      var todo := pending.keys;
      DemotedNone(pending, queue, all.all, currentState, currentMaxGas);
      if old(Advancing()) {
        DemotionStarts(pending, queue, all.all, currentState, currentMaxGas, pendingNonces.nonces);
      }
      while todo != {}
        invariant Valid() && AllDemoted(old(pending), old(queue), currentState, currentMaxGas, pending, queue, todo) &&
                  all.all <= old(all.all)
        invariant old(ExactStales()) ==> ExactStales()
        invariant old(Advancing()) ==> HalfSettled(pending, currentState, currentMaxGas, pendingNonces.nonces, todo)
        decreases todo
      {
        var a :| a in todo;
        DemoteNext(a, old(pending), old(queue), todo);
        todo := todo - {a};
      }
      if old(Advancing()) {
        DemotionEnds(pending, currentState, currentMaxGas, pendingNonces.nonces);
      }
    }

    // ---- adding ----

    ghost function GateNow(): Gate
      reads this
    {
      Gate(currentState, currentMaxGas, istanbul, gasPrice, locals, config.priceBump,
           config.globalSlots + config.globalQueue)
    }

    ghost function BooksNow(): Books
      reads this, all
    {
      Books(pending, queue, all.all)
    }

    ghost predicate Acceptable(tx: Tx, local: bool)
      reads this
    {
      Admissible(GateNow(), tx, local)
    }

    ghost predicate Fault(tx: Tx, local: bool, e: Outcome)
      reads this
    {
      Faulty(GateNow(), tx, local, e)
    }

    method ValidateTx(tx: Tx, local: bool) returns (err: Option<Outcome>)
      ensures err.None? <==> Acceptable(tx, local)
      ensures err.Some? ==> Fault(tx, local, err.value)
    {
      if tx.size > TX_MAX_SIZE {
        return Some(OversizedData);
      }
      if tx.value < 0 {
        return Some(NegativeValue);
      }
      if currentMaxGas < tx.gas {
        return Some(GasLimit);
      }
      if !tx.signed {
        return Some(InvalidSender);
      }
      if !(local || tx.sender in locals) && gasPrice > tx.price {
        return Some(Underpriced);
      }
      if currentState.Nonce(tx.sender) > tx.nonce {
        return Some(NonceTooLow);
      }
      if currentState.Balance(tx.sender) < Cost(tx) {
        return Some(InsufficientFunds);
      }
      var intrinsic := IntrinsicGas(tx.data, tx.create, true, istanbul);
      if intrinsic.OutOfGas? {
        return Some(Outcome.OutOfGas);
      }
      if tx.gas < intrinsic.amount {
        return Some(IntrinsicGasTooLow);
      }
      return None;
    }

    /** Removes from the pool transactions that were already popped off the price heap. */
    method RemoveAll(drop: seq<Tx>)
      requires Shaped() && Coherent(pending, queue, all.all)
      modifies this`pending, this`queue, this`beats, all, priced, pendingNonces
      ensures Shaped() && Coherent(pending, queue, all.all) && unchanged(priced)
      ensures all.all == old(all.all) - Front(drop, |drop|) && pending.txs <= old(pending).txs
      ensures old(Contiguous()) ==> Contiguous()
    {
      for k := 0 to |drop|
        invariant Shaped() && Coherent(pending, queue, all.all) && unchanged(priced)
        invariant all.all == old(all.all) - Front(drop, k) && pending.txs <= old(pending).txs
        invariant old(Contiguous()) ==> Contiguous()
      {
        RemoveTx(drop[k], false);
        assert Front(drop, k + 1) == Front(drop, k) + {drop[k]};
      }
    }

    /** Frees slots by dropping remote transactions, cheapest first. */
    method DiscardWorst(slots: int) returns (drop: seq<Tx>)
      requires Valid()
      modifies this`pending, this`queue, this`beats, all, priced, pendingNonces
      ensures Valid() && pending.txs <= old(pending).txs
      ensures all.all == old(all.all) - Front(drop, |drop|)
      ensures forall x :: x in drop ==> x in old(all.all) && !ContainsTx(locals, x)
      ensures WorstWent(Front(drop, |drop|), all.all, locals)
      ensures SlotTotal(drop) >= slots || forall y :: y in all.all ==> ContainsTx(locals, y)
      ensures NoMoreThanNeeded(drop, slots)
      ensures old(all.slots) - all.slots <= SlotTotal(drop)
      ensures old(ExactStales()) ==> old(all.slots) - all.slots == SlotTotal(drop)
      ensures old(Contiguous()) ==> Contiguous()
      ensures old(ExactStales()) ==> ExactStales()
      ensures forall t :: t in priced.items ==> t in old(priced.items)
    {
      drop := PopWorst(slots);
      RemoveAll(drop);
    }

    /** Takes the entries of those transactions off the price heap. */
    method PopWorst(slots: int) returns (drop: seq<Tx>)
      requires Valid()
      modifies priced
      ensures Shaped() && Tracked(all.all - Front(drop, |drop|), priced.items)
      ensures forall x :: x in drop ==> x in all.all && !ContainsTx(locals, x)
      ensures WorstWent(Front(drop, |drop|), all.all - Front(drop, |drop|), locals)
      ensures SlotTotal(drop) >= slots || forall y :: y in all.all - Front(drop, |drop|) ==> ContainsTx(locals, y)
      ensures NoMoreThanNeeded(drop, slots)
      ensures SlotSum(all.all) - SlotSum(all.all - Front(drop, |drop|)) <= SlotTotal(drop)
      ensures old(ExactStales()) ==>
                && SlotSum(all.all) - SlotSum(all.all - Front(drop, |drop|)) == SlotTotal(drop)
                && Exact(all.all - Front(drop, |drop|), priced.items, priced.stales)
      ensures forall t :: t in priced.items ==> t in old(priced.items)
    {
      ghost var gone;
      drop, gone := priced.Discard(slots, locals);
      DroppedSlots(all.all, drop);
      if old(ExactStales()) {
        DropsOnce(all.all, old(priced.items), drop, gone, priced.items);
      }
      PopKeepsPriced(all.all, old(priced.items), old(priced.stales), drop, gone, priced.items, priced.stales);
      WorstWentPart((set x | x in drop), (set y | y in priced.items && y in all.all), locals, Front(drop, |drop|),
                    all.all - Front(drop, |drop|));
    }

    /** Raises or lowers the minimum price and drops remote transactions below it. */
    method SetGasPrice(price: nat)
      requires Valid()
      modifies this`gasPrice, this`pending, this`queue, this`beats, all, priced, pendingNonces
      ensures Valid() && gasPrice == price
      ensures all.all == set t | t in old(all.all) && (t.price >= price || ContainsTx(locals, t))
      ensures old(Solvent()) ==> Solvent()
      ensures old(Contiguous()) ==> Contiguous()
      ensures old(ExactStales()) ==> ExactStales()
    {
      gasPrice := price;
      DropBelow(price);
      if old(Solvent()) {
        PayablePart(old(pending), pending, currentState, currentMaxGas);
      }
    }

    method DropBelow(price: nat)
      requires Valid()
      modifies this`pending, this`queue, this`beats, all, priced, pendingNonces
      ensures Valid() && pending.txs <= old(pending).txs
      ensures all.all == set t | t in old(all.all) && (t.price >= price || ContainsTx(locals, t))
      ensures old(Contiguous()) ==> Contiguous()
      ensures old(ExactStales()) ==> ExactStales()
    {
      var drop, gone := priced.Cap(price, locals);
      CapLeaves(all.all, old(priced.items), drop, gone, priced.items, price, locals);
      PopKeepsPriced(all.all, old(priced.items), old(priced.stales), drop, gone, priced.items, priced.stales);
      RemoveAll(drop);
    }

    /** Is a remote transaction no dearer than everything pooled. */
    method IsUnderpriced(tx: Tx, local: bool) returns (under: bool)
      requires Valid()
      modifies priced
      ensures Valid()
      ensures under <==>
                !local && !ContainsTx(locals, tx) && all.all != {} && forall t :: t in all.all ==> tx.price <= t.price
      ensures old(ExactStales()) ==> ExactStales()
      ensures forall t :: t in priced.items ==> t in old(priced.items)
    {
      if local {
        return false;
      }
      ghost var gone;
      under, gone := priced.Underpriced(tx, locals);
      PopKeepsPriced(all.all, old(priced.items), old(priced.stales), [], gone, priced.items, priced.stales);
      assert all.all - Front([], 0) == all.all;
    }

    /** As many transactions as both limits allow together. */
    ghost predicate Full()
      reads this, all
    {
      |all.all| >= config.globalSlots + config.globalQueue
    }

    ghost predicate NoBetter(tx: Tx, local: bool)
      reads this, all
    {
      NoDearer(GateNow(), all.all, tx, local)
    }

    /** In a full pool, refuses an underpriced transaction or drops worse ones for it. */
    method MakeRoom(tx: Tx, local: bool) returns (ok: bool)
      requires Valid()
      modifies this`pending, this`queue, this`beats, all, priced, pendingNonces
      ensures Valid() && all.all <= old(all.all)
      ensures !ok ==> all.all == old(all.all) && pending == old(pending) && queue == old(queue)
      ensures !ok <==> old(Full() && NoBetter(tx, local))
      ensures forall t :: t in old(all.all) && t !in all.all ==> ok && !ContainsTx(locals, t)
      ensures !old(Full()) ==> pending == old(pending) && queue == old(queue) && unchanged(all) && unchanged(priced)
      ensures pending.txs <= old(pending).txs
      ensures WorstWent(old(all.all) - all.all, all.all, locals)
      ensures ok && old(Full()) && old(ExactStales()) ==>
                all.slots + NumSlots(tx) <= config.globalSlots + config.globalQueue || forall y ::
                    y in all.all ==> ContainsTx(locals, y)
      ensures old(Contiguous()) ==> Contiguous()
      ensures old(ExactStales()) ==> ExactStales()
      ensures forall t :: t in priced.items ==> t in old(priced.items)
    {
      ok := true;
      if |all.all| >= config.globalSlots + config.globalQueue {
        var under := IsUnderpriced(tx, local);
        if under {
          return false;
        }
        var drop := DiscardWorst(all.slots - (config.globalSlots + config.globalQueue) + NumSlots(tx));
        WorstWentPart(Front(drop, |drop|), all.all, locals, old(all.all) - all.all, all.all);
      }
    }

    /** The same, without the order in which others had to go. */
    method MakeSomeRoom(tx: Tx, local: bool) returns (ok: bool)
      requires Valid()
      modifies this`pending, this`queue, this`beats, all, priced, pendingNonces
      ensures Valid() && all.all <= old(all.all)
      ensures !ok ==> all.all == old(all.all) && pending == old(pending) && queue == old(queue)
      ensures !ok <==> old(Full() && NoBetter(tx, local))
      ensures forall t :: t in old(all.all) && t !in all.all ==> ok && !ContainsTx(locals, t)
      ensures !old(Full()) ==> pending == old(pending) && queue == old(queue) && unchanged(all) && unchanged(priced)
      ensures pending.txs <= old(pending).txs
      ensures old(Contiguous()) ==> Contiguous()
      ensures old(ExactStales()) ==> ExactStales()
      ensures forall t :: t in priced.items ==> t in old(priced.items)
    {
      ok := MakeRoom(tx, local);
    }

    /** Takes over a pending slot from a transaction it outbids. */
    method ReplaceTx(tx: Tx) returns (ok: bool)
      requires Valid() && tx !in all.all && tx.signed && Occupied(ListOf(pending, tx.sender), tx.nonce)
      modifies this`pending, all, priced
      ensures Valid() && OnePerNonce(ListOf(old(pending), tx.sender)) && tx !in queue.txs
      ensures ok <==> Outbids(TxAt(ListOf(old(pending), tx.sender), tx.nonce), tx, config.priceBump)
      ensures ok ==> pending == Entered(old(pending), tx) && all.all == EnteredIndex(old(pending), old(all.all), tx)
      ensures !ok ==> pending == old(pending) && unchanged(all) && unchanged(priced)
      ensures old(Contiguous()) ==> Contiguous()
      ensures ok && old(ExactStales()) ==> (ExactStales() <==> tx !in old(priced.items) || old(priced.Rebuilds(1)))
      ensures forall t :: t in priced.items ==> t in old(priced.items) || t == tx
    {
      SlotFacts(pending, queue, all.all, tx);
      var prior := TxAt(ListOf(pending, tx.sender), tx.nonce);
      ok := Outbids(prior, tx, config.priceBump);
      if ok {
        ReplacePending(pending, queue, all.all, tx);
        if old(Contiguous()) {
          RunsReplace(pending, currentState.nonces, pendingNonces.nonces, tx);
        }
        EnterIndex(pending, tx);
        pending := Entered(pending, tx);
      }
    }

    /** Enqueues a new transaction whose nonce is not pending. */
    method EnqueueNew(tx: Tx) returns (ok: bool, replaced: bool)
      requires Valid() && tx !in all.all && tx.signed && !Occupied(ListOf(pending, tx.sender), tx.nonce)
      modifies this`queue, all, priced
      ensures Valid()
      ensures ok ==> queue == Entered(old(queue), tx) && all.all == EnteredIndex(old(queue), old(all.all), tx)
      ensures !ok ==> queue == old(queue) && unchanged(all) && unchanged(priced)
      ensures OnePerNonce(ListOf(old(queue), tx.sender)) &&
              (ok ==> (replaced <==> Occupied(ListOf(old(queue), tx.sender), tx.nonce)))
      ensures ok <==> (Occupied(ListOf(old(queue), tx.sender), tx.nonce) ==>
                Outbids(TxAt(ListOf(old(queue), tx.sender), tx.nonce), tx, config.priceBump))
      ensures ok && old(ExactStales()) ==>
                (ExactStales() <==> tx !in old(priced.items) || (replaced && old(priced.Rebuilds(1))))
      ensures forall t :: t in priced.items ==> t in old(priced.items) || t == tx
    {
      SlotFacts(pending, queue, all.all, tx);
      EnterQueue(pending, queue, all.all, tx);
      ok, replaced := EnqueueTx(tx);
    }

    method Add(tx: Tx, local: bool) returns (r: Outcome)
      requires Valid()
      modifies this`pending, this`queue, this`beats, this`locals, all, priced, pendingNonces
      ensures Valid()
      ensures r == AlreadyKnown <==> tx in old(all.all)
      ensures tx !in old(all.all) && !old(Acceptable(tx, local)) ==> old(Fault(tx, local, r))
      ensures tx !in old(all.all) && old(Acceptable(tx, local)) ==>
                (r == Underpriced <==> old(Full() && NoBetter(tx, local)))
      ensures r == AlreadyKnown || r == Underpriced || !old(Acceptable(tx, local)) ==>
                all.all == old(all.all) && pending == old(pending) && queue == old(queue)
      ensures tx !in old(all.all) && old(Acceptable(tx, local)) && r != Underpriced ==>
                r.Accepted? || (r == ReplaceUnderpriced && !OutbidsHolders(all.all, tx, config.priceBump))
      ensures r.Accepted? ==> tx !in old(all.all) && tx in all.all && all.all <= old(all.all) + {tx}
      ensures r.Accepted? ==> forall t :: t in all.all && SameSlot(t, tx) ==> t == tx
      ensures !r.Accepted? ==> all.all <= old(all.all)
      ensures !old(Full()) && tx !in old(all.all) && old(Acceptable(tx, local)) ==>
                && r == (if OutbidsHolders(old(all.all), tx, config.priceBump) then
                   Accepted(SlotTaken(old(all.all), tx)) else ReplaceUnderpriced)
                && all.all == if r.Accepted? then SlotFreed(old(all.all), tx) + {tx} else old(all.all)
      ensures !old(Full()) && r.Accepted? ==> Seated(old(pending), old(queue), tx, pending, queue)
      ensures !old(Full()) && !r.Accepted? ==> pending == old(pending) && queue == old(queue)
      ensures r.Accepted? && tx in pending.txs ==> r.replaced && Occupied(ListOf(old(pending), tx.sender), tx.nonce)
      ensures old(Solvent()) ==> Solvent()
      ensures forall t ::
                t in old(all.all) && t !in all.all ==>
                    (old(Full()) && !ContainsTx(old(locals), t)) || (r.Accepted? && SameSlot(t, tx))
      ensures locals == if local && r.Accepted? && tx in queue.txs then old(locals) + {tx.sender} else old(locals)
      ensures old(Contiguous()) ==> Contiguous()
      ensures old(ExactStales()) && (tx !in old(priced.items) || !r.Accepted?) ==> ExactStales()
      ensures old(ExactStales()) && r.Accepted? && !old(Full()) ==>
                (ExactStales() <==> tx !in old(priced.items) || (r.replaced && old(priced.Rebuilds(1))))
      ensures forall t :: t in priced.items ==> t in old(priced.items) || (t == tx && r.Accepted?)
    {
      if tx in all.all {
        return AlreadyKnown;
      }
      var err := ValidateTx(tx, local);
      if err.Some? {
        return err.value;
      }
      r := Admit(tx, local);
    }

    /** The part of add for a valid new transaction: makes room for it and inserts it. */
    method Admit(tx: Tx, local: bool) returns (r: Outcome)
      requires Valid() && tx !in all.all && tx.signed && Payable(tx, currentState.Balance(tx.sender), currentMaxGas)
      modifies this`pending, this`queue, this`beats, this`locals, all, priced, pendingNonces
      ensures Valid()
      ensures r == Underpriced <==> old(Full() && NoBetter(tx, local))
      ensures r == Underpriced ==> all.all == old(all.all) && pending == old(pending) && queue == old(queue)
      ensures r.Accepted? || r == Underpriced ||
              (r == ReplaceUnderpriced && !OutbidsHolders(all.all, tx, config.priceBump))
      ensures r.Accepted? ==> tx in all.all && all.all <= old(all.all) + {tx}
      ensures r.Accepted? ==> forall t :: t in all.all && SameSlot(t, tx) ==> t == tx
      ensures !r.Accepted? ==> all.all <= old(all.all)
      ensures !old(Full()) ==>
                && r == (if OutbidsHolders(old(all.all), tx, config.priceBump) then
                   Accepted(SlotTaken(old(all.all), tx))
                         else ReplaceUnderpriced)
                && all.all == if r.Accepted? then SlotFreed(old(all.all), tx) + {tx} else old(all.all)
      ensures !old(Full()) && r.Accepted? ==> Seated(old(pending), old(queue), tx, pending, queue)
      ensures !old(Full()) && !r.Accepted? ==> pending == old(pending) && queue == old(queue)
      ensures r.Accepted? && tx in pending.txs ==> r.replaced && Occupied(ListOf(old(pending), tx.sender), tx.nonce)
      ensures old(Solvent()) ==> Solvent()
      ensures forall t ::
                t in old(all.all) && t !in all.all ==>
                    (old(Full()) && !ContainsTx(old(locals), t)) || (r.Accepted? && SameSlot(t, tx))
      ensures locals == if local && r.Accepted? && tx in queue.txs then old(locals) + {tx.sender} else old(locals)
      ensures old(Contiguous()) ==> Contiguous()
      ensures old(ExactStales()) && (tx !in old(priced.items) || !r.Accepted?) ==> ExactStales()
      ensures old(ExactStales()) && r.Accepted? && !old(Full()) ==>
                (ExactStales() <==> tx !in old(priced.items) || (r.replaced && old(priced.Rebuilds(1))))
      ensures forall t :: t in priced.items ==> t in old(priced.items) || (t == tx && r.Accepted?)
    {
      var room := MakeSomeRoom(tx, local);
      if !room {
        if old(Solvent()) {
          PayablePart(old(pending), pending, currentState, currentMaxGas);
        }
        return Underpriced;
      }
      ghost var p, q, all' := pending, queue, all.all;
      r := Insert(tx, local);
      InsertedWhere(r, old(pending), p, q, all', tx);
    }

    /** What Insert did to the maps, seen from before room was made. */
    lemma InsertedWhere(r: Outcome, p0: Accounts, p: Accounts, q: Accounts, all': set<Tx>, tx: Tx)
      requires Coherent(p, q, all') && tx !in all' && p.txs <= p0.txs
      requires r.Accepted? ==> Seated(p, q, tx, pending, queue) && r == Accepted(SlotTaken(all', tx))
      requires !r.Accepted? ==> pending == p
      requires Payable(tx, currentState.Balance(tx.sender), currentMaxGas)
      ensures r.Accepted? && tx in pending.txs ==> r.replaced && Occupied(ListOf(p0, tx.sender), tx.nonce)
      ensures AllPayable(p0, currentState, currentMaxGas) ==> Solvent()
    {
      if r.Accepted? {
        SeatedWhere(p, q, all', tx, pending, queue);
        if tx in pending.txs {
          OccupiedInPart(p0, p, tx.sender, tx.nonce);
          SlotHolder(p, q, all', tx, 0);
        }
      }
      if AllPayable(p0, currentState, currentMaxGas) {
        PayableMore(p0, tx, pending, currentState, currentMaxGas);
      }
    }

    /** The insertion part of add, for a valid new transaction in a pool with room. */
    method Insert(tx: Tx, local: bool) returns (r: Outcome)
      requires Valid() && tx !in all.all && tx.signed
      modifies this`pending, this`queue, this`locals, all, priced
      ensures Valid()
      ensures r == if OutbidsHolders(old(all.all), tx, config.priceBump) then Accepted(SlotTaken(old(all.all), tx))
              else ReplaceUnderpriced
      ensures all.all == if r.Accepted? then SlotFreed(old(all.all), tx) + {tx} else old(all.all)
      ensures r.Accepted? ==> Seated(old(pending), old(queue), tx, pending, queue)
      ensures !r.Accepted? ==> pending == old(pending) && queue == old(queue)
      ensures locals == if local && r.Accepted? && tx in queue.txs then old(locals) + {tx.sender} else old(locals)
      ensures old(Contiguous()) ==> Contiguous()
      ensures !r.Accepted? ==> unchanged(priced)
      ensures r.Accepted? && old(ExactStales()) ==>
                (ExactStales() <==> tx !in old(priced.items) || (r.replaced && old(priced.Rebuilds(1))))
      ensures forall t :: t in priced.items ==> t in old(priced.items) || t == tx
    {
      var ok, replaced;
      SlotHolder(pending, queue, all.all, tx, config.priceBump);
      if Occupied(ListOf(pending, tx.sender), tx.nonce) {
        ok := ReplaceTx(tx);
        return if ok then Accepted(true) else ReplaceUnderpriced;
      }
      ok, replaced := EnqueueNew(tx);
      if ok && local {
        locals := locals + {tx.sender};
      }
      return if ok then Accepted(replaced) else ReplaceUnderpriced;
    }

    /** addTxsLocked: adds one by one and collects the accounts to promote. */
    method AddTxs(txs: seq<Tx>, local: bool) returns (rs: seq<Outcome>, dirty: set<Address>)
      requires Valid()
      modifies this`pending, this`queue, this`beats, this`locals, all, priced, pendingNonces
      ensures Valid() && |rs| == |txs| && (!local ==> locals == old(locals))
      ensures Submitted(old(GateNow()), local, old(BooksNow()), txs, rs, BooksNow())
      ensures Exactly(old(GateNow()), local, old(BooksNow()), txs, rs, BooksNow())
      ensures dirty == DirtyOf(txs, rs) && Admitted(old(all.all), old(locals), AcceptedOf(txs, rs), all.all)
      ensures old(Contiguous()) ==> Contiguous()
      ensures old(Solvent()) ==> Solvent()
      ensures old(ExactStales()) && NewTo(old(priced.items), txs) ==> ExactStales()
      ensures txs == [] ==>
                pending == old(pending) && queue == old(queue) && locals == old(locals) && unchanged(all) &&
                    unchanged(priced) && unchanged(pendingNonces)
    {
      if txs == [] {
        SubmittedNone(GateNow(), local, BooksNow(), txs);
        AdmitNone(all.all, locals);
        rs, dirty := [], {};
      } else {
        rs, dirty := AddEach(txs, local);
      }
      SubmittedExactly(old(GateNow()), local, old(BooksNow()), txs, rs, BooksNow());
    }

    method AddEach(txs: seq<Tx>, local: bool) returns (rs: seq<Outcome>, dirty: set<Address>)
      requires Valid()
      modifies this`pending, this`queue, this`beats, this`locals, all, priced, pendingNonces
      ensures Valid() && |rs| == |txs| && (!local ==> locals == old(locals))
      ensures Submitted(old(GateNow()), local, old(BooksNow()), txs, rs, BooksNow())
      ensures dirty == DirtyOf(txs, rs) && Admitted(old(all.all), old(locals), AcceptedOf(txs, rs), all.all)
      ensures old(Contiguous()) ==> Contiguous()
      ensures old(Solvent()) ==> Solvent()
      ensures old(ExactStales()) && NewTo(old(priced.items), txs) ==> ExactStales()
    {
      rs, dirty := [], {};
      AdmitNone(all.all, locals);
      ghost var g, b := GateNow(), BooksNow();
      SubmittedNone(g, local, b, txs);
      for i := 0 to |txs|
        invariant Valid() && |rs| == i && old(locals) <= locals && GateNow() == g.(locals := locals)
        invariant (!local ==> locals == old(locals)) && Submitted(g, local, b, txs, rs, BooksNow())
        invariant dirty == DirtyOf(txs, rs) && Admitted(old(all.all), old(locals), AcceptedOf(txs, rs), all.all)
        invariant old(Contiguous()) ==> Contiguous()
        invariant old(Solvent()) ==> Solvent()
        invariant old(ExactStales()) && NewTo(old(priced.items), txs) ==> ExactStales()
        invariant OnlyNew(old(priced.items), txs, i, priced.items)
      {
        ghost var mid := BooksNow();
        var r := AddNext(txs, i, local, old(all.all), old(locals), AcceptedOf(txs, rs), old(priced.items), g);
        OneMoreOutcome(txs, rs, r);
        SubmittedNext(g, local, b, txs, rs, mid, r, BooksNow());
        rs := rs + [r];
        if r == Accepted(false) {
          dirty := dirty + {txs[i].sender};
        }
      }
    }

    /** One transaction of a slice. */
    method AddNext(txs: seq<Tx>, i: nat, local: bool, ghost all0: set<Tx>, ghost locals0: set<Address>,
                   ghost accepted: set<Tx>, ghost items0: seq<Tx>, ghost g: Gate)
      returns (r: Outcome)
      requires Valid() && i < |txs| && locals0 <= locals && Admitted(all0, locals0, accepted, all.all) &&
               OnlyNew(items0, txs, i, priced.items)
      requires GateNow() == g.(locals := locals) && g.locals <= locals && (!local ==> locals == g.locals)
      modifies this`pending, this`queue, this`beats, this`locals, all, priced, pendingNonces
      ensures Valid() && locals0 <= locals && OnlyNew(items0, txs, i + 1, priced.items)
      ensures GateNow() == g.(locals := locals) && g.locals <= locals && (!local ==> locals == g.locals)
      ensures Turn(g, local, old(BooksNow()), txs[i], r, BooksNow())
      ensures Admitted(all0, locals0, accepted + (if r.Accepted? then {txs[i]} else {}), all.all)
      ensures old(Contiguous()) ==> Contiguous()
      ensures old(Solvent()) ==> Solvent()
      ensures old(ExactStales()) && NewTo(items0, txs) ==> ExactStales()
    {
      OnlyNewNext(items0, txs, i, priced.items);
      r := AddInTurn(txs[i], local, g);
      AdmitNext(all0, locals0, accepted, old(all.all), old(locals), txs[i], r.Accepted?, all.all);
    }

    method AddInTurn(tx: Tx, local: bool, ghost g: Gate) returns (r: Outcome)
      requires Valid() && GateNow() == g.(locals := locals) && g.locals <= locals && (!local ==> locals == g.locals)
      modifies this`pending, this`queue, this`beats, this`locals, all, priced, pendingNonces
      ensures Valid() && Turn(g, local, old(BooksNow()), tx, r, BooksNow())
      ensures old(locals) <= locals && (!local ==> locals == old(locals))
      ensures all.all <= if r.Accepted? then old(all.all) + {tx} else old(all.all)
      ensures forall t ::
                t in old(all.all) && t !in all.all ==> !ContainsTx(old(locals), t) || (r.Accepted? && SameSlot(t, tx))
      ensures old(Contiguous()) ==> Contiguous()
      ensures old(Solvent()) ==> Solvent()
      ensures old(ExactStales()) && (tx !in old(priced.items) || !r.Accepted?) ==> ExactStales()
      ensures forall t :: t in priced.items ==> t in old(priced.items) || (t == tx && r.Accepted?)
    {
      r := Add(tx, local);
      TurnIs(g, old(locals), local, old(BooksNow()), tx, r, BooksNow());
    }

    // ---- keeping the queue within its limits ----

    /** Removes a queued transaction. Its nonce is not pending, so only the queue changes. */
    method RemoveQueuedTx(tx: Tx)
      requires Valid() && tx in queue.txs
      modifies this`pending, this`queue, this`beats, all, priced, pendingNonces
      ensures Valid() && pending == old(pending) && unchanged(pendingNonces) && beats == old(beats)
      ensures Lost(old(queue), tx.sender, {tx}, queue)
      ensures old(ExactStales()) ==> ExactStales()
    {
      IndexHolds(pending, queue, all.all, tx.sender);
      RemoveTx(tx, true);
      LostIs(old(queue), tx.sender, {tx}, queue);
    }

    /** Removes queued transactions of one account. */
    method DropFromQueue(a: Address, txs: seq<Tx>, ghost gone: set<Tx>)
      requires Valid() && Enumerates(txs, gone) && gone <= ListOf(queue, a)
      modifies this`pending, this`queue, this`beats, all, priced, pendingNonces
      ensures Valid() && pending == old(pending) && unchanged(pendingNonces) && beats == old(beats)
      ensures queue == old(WithList(queue, a, ListOf(queue, a) - gone)) && |queue.txs| == |old(queue).txs| - |gone|
      ensures old(ExactStales()) ==> ExactStales()
    {
      LoseNone(pending, queue, all.all, a, txs, gone);
      for k := 0 to |txs|
        invariant Valid() && pending == old(pending) && unchanged(pendingNonces) && beats == old(beats)
        invariant Lost(old(queue), a, Front(txs, k), queue)
        invariant old(ExactStales()) ==> ExactStales()
      {
        ghost var q := queue;
        StillThere(old(queue), a, txs, k, gone, q);
        RemoveQueuedTx(txs[k]);
        LoseNext(old(queue), a, txs, k, gone, q, queue);
      }
      LostIs(old(queue), a, gone, queue);
    }

    /** Removes an account's whole queue. */
    method EvictAccount(a: Address, ghost q0: set<Tx>, ghost kept: set<Address>)
      requires Valid() && queue.txs == SentByAny(q0, kept)
      modifies this`pending, this`queue, this`beats, all, priced, pendingNonces
      ensures Valid() && pending == old(pending) && unchanged(pendingNonces) && beats == old(beats)
      ensures queue.txs == SentByAny(q0, kept - {a})
      ensures old(ExactStales()) ==> ExactStales()
    {
      EvictList(queue, q0, kept, a);
      var txs := Slice(ListOf(queue, a));
      DropFromQueue(a, txs, ListOf(queue, a));
    }

    /** Is the account exempt from eviction: local, or heard of within the configured lifetime. */
    predicate Spared(a: Address, now: int)
      reads this
    {
      a in locals || now - Lookup(beats, a, 0) <= config.lifetime
    }

    /** Removes the queues of remote accounts whose last heartbeat is older than the configured lifetime. */
    method Evict(now: int)
      requires Valid()
      modifies this`pending, this`queue, this`beats, all, priced, pendingNonces
      ensures Valid() && pending == old(pending) && unchanged(pendingNonces) && beats == old(beats)
      ensures old(ExactStales()) ==> ExactStales()
      ensures old(Contiguous()) ==> Contiguous()
      ensures old(Solvent()) ==> Solvent()
      ensures queue.txs == old(set t | t in queue.txs && Spared(t.sender, now))
      ensures forall t ::
                t in queue.txs <==>
                    t in old(queue).txs && (t.sender in locals || now <= config.lifetime + Lookup(beats, t.sender, 0))
    {
      SendersListed(pending, queue, all.all);
      var todo := queue.keys;
      ghost var spared := set a | a in queue.keys && Spared(a, now);
      assert spared + todo == todo;
      while todo != {}
        invariant Valid() && pending == old(pending) && unchanged(pendingNonces) && beats == old(beats)
        invariant old(ExactStales()) ==> ExactStales()
        invariant queue.txs == SentByAny(old(queue).txs, spared + todo) && todo <= old(queue).keys
        decreases todo
      {
        var a :| a in todo;
        if Spared(a, now) {
          assert spared + todo == spared + (todo - {a});
        } else {
          assert (spared + todo) - {a} == spared + (todo - {a});
          EvictAccount(a, old(queue).txs, spared + todo);
        }
        todo := todo - {a};
      }
      assert spared + {} == spared;
    }

    /** Drops an account's queue, or of a longer one only the excess, highest nonces first. */
    method TruncateAccount(a: Address, excess: nat, ghost q0: set<Tx>, ghost left: set<Address>) returns (drop: nat)
      requires Valid() && excess > 0 && SparedSoFar(q0, queue.txs, locals, beats, left, excess) && a in left &&
               a !in locals
      requires |queue.txs| == config.globalQueue + excess && forall b :: b in left ==> Beat(beats, b) <= Beat(beats, a)
      modifies this`pending, this`queue, this`beats, all, priced, pendingNonces
      ensures Valid() && pending == old(pending) && unchanged(pendingNonces) && beats == old(beats)
      ensures SparedSoFar(q0, queue.txs, locals, beats, left - {a}, drop) && |queue.txs| == config.globalQueue + drop
      ensures old(ExactStales()) ==> ExactStales()
    {
      ghost var q, list := queue.txs, ListOf(queue, a);
      var n, gone := DropExcess(a, excess);
      DropSome(q0, q, locals, beats, left, a, excess, gone, list - gone);
      drop := excess - n;
    }

    method DropExcess(a: Address, excess: nat) returns (n: nat, ghost gone: set<Tx>)
      requires Valid()
      modifies this`pending, this`queue, this`beats, all, priced, pendingNonces
      ensures Valid() && pending == old(pending) && unchanged(pendingNonces) && beats == old(beats)
      ensures var list := ListOf(old(queue), a);
              && gone <= list && Under(list - gone, gone) && n == |gone| <= excess && (gone == list || n == excess)
      ensures queue.txs == old(queue).txs - gone && |queue.txs| == |old(queue).txs| - n
      ensures old(ExactStales()) ==> ExactStales()
    {
      IndexHolds(pending, queue, all.all, a);
      var txs;
      txs, gone := Excess(ListOf(queue, a), excess);
      DropFromQueue(a, txs, gone);
      n := |txs|;
    }

    /** The whole list if it is no longer than the excess, else its highest nonces. */
    static method Excess(list: set<Tx>, excess: nat) returns (txs: seq<Tx>, ghost gone: set<Tx>)
      requires OnePerNonce(list)
      ensures gone <= list && Enumerates(txs, gone) && |txs| == |gone| <= excess && (gone == list || |gone| == excess)
      ensures Under(list - gone, gone)
    {
      txs := Flatten(list);
      EnumerationLength(txs, list);
      if |list| <= excess {
        assert list - list == {};
        return txs, list;
      }
      txs, gone := HighestFew(txs, list, excess);
    }

    static method HighestFew(listed: seq<Tx>, list: set<Tx>, excess: nat) returns (txs: seq<Tx>, ghost gone: set<Tx>)
      requires OnePerNonce(list) && Enumerates(listed, list) && Ascending(listed) && excess < |list| == |listed|
      ensures gone <= list && Enumerates(txs, gone) && |txs| == |gone| == excess && Under(list - gone, gone)
    {
      LowSplit(list, |list| - excess);
      txs := LastFew(listed, excess, list);
      gone := list - Lowest(list, |list| - excess);
      EnumerationLength(txs, gone);
    }

    /** Drops queued transactions of remote accounts, the most recently heard of first, down to the limit. */
    method TruncateQueue()
      requires Valid()
      modifies this`pending, this`queue, this`beats, all, priced, pendingNonces
      ensures Valid() && pending == old(pending) && unchanged(pendingNonces) && beats == old(beats)
      ensures LatestFirst(old(queue).txs, queue.txs, locals, beats)
      ensures old(Contiguous()) ==> Contiguous()
      ensures |old(queue).txs| <= config.globalQueue ==> queue == old(queue)
      ensures |old(queue).txs| > config.globalQueue ==>
                || |queue.txs| == config.globalQueue
                || (|queue.txs| > config.globalQueue && forall t :: t in queue.txs ==> t.sender in locals)
      ensures old(ExactStales()) ==> ExactStales()
    {
      ghost var q0, left := queue.txs, queue.keys - locals;
      SendersListed(pending, queue, all.all);
      var queued := CountAll(queue);
      NothingDropped(pending, queue, all.all, locals, beats, queued - config.globalQueue);
      if queued <= config.globalQueue {
        return;
      }
      var addresses := SortByHeartbeat(queue.keys - locals, beats);
      var drop := queued - config.globalQueue;
      while drop > 0 && |addresses| > 0
        invariant Valid() && pending == old(pending) && unchanged(pendingNonces) && beats == old(beats)
        invariant SparedSoFar(q0, queue.txs, locals, beats, left, drop) && Order(addresses, beats, left) &&
                  left !! locals
        invariant drop >= 0 && |queue.txs| == config.globalQueue + drop
        invariant old(ExactStales()) ==> ExactStales()
        decreases |addresses|
      {
        var last := |addresses| - 1;
        var a := addresses[last].0;
        LastHeard(addresses, beats, left);
        OrderWithoutLast(addresses, beats, left);
        drop := TruncateAccount(a, drop, q0, left);
        addresses := addresses[..last];
        left := left - {a};
      }
      if addresses == [] {
        NoneHeard(beats, left);
      }
      SparedAtLast(q0, queue.txs, locals, beats, left, drop);
    }

    // ---- keeping pending within its limits ----

    /** The number of transactions in all lists. */
    static method CountAll(m: Accounts) returns (count: nat)
      requires m.txs == SentByAny(m.txs, m.keys)
      ensures count == |m.txs|
    {
      count := 0;
      var todo := m.keys;
      assert SentByAny(m.txs, m.keys - todo) == {};
      while todo != {}
        invariant todo <= m.keys && count == |SentByAny(m.txs, m.keys - todo)|
        decreases todo
      {
        var a :| a in todo;
        assert SentByAny(m.txs, m.keys - (todo - {a})) == SentByAny(m.txs, m.keys - todo) + ListOf(m, a);
        count := count + |ListOf(m, a)|;
        todo := todo - {a};
      }
      assert m.keys - {} == m.keys;
    }

    /** Drops an account's highest pending nonce. */
    method DropHighest(a: Address)
      requires Valid() && |ListOf(pending, a)| >= 2
      modifies this`pending, all, priced, pendingNonces
      ensures Valid() && Cut(old(pending), a, pending) && |pending.txs| == |old(pending).txs| - 1
      ensures Lowered(currentState.nonces, old(pendingNonces.nonces), pendingNonces.nonces)
      ensures old(ExactStales()) ==> ExactStales()
      ensures old(Contiguous()) ==> Contiguous()
      ensures old(Resting()) ==> Resting()
    {
      var list := ListOf(pending, a);
      var kept := Lowest(list, |list| - 1);
      IndexHolds(pending, queue, all.all, a);
      LowestShorter(list);
      var tx :| tx in list - kept;
      CutTop(pending, queue, all.all, a, kept, tx);
      Truncate(tx, kept);
    }

    /** Takes the highest pending nonce of an account out of the list, the index and the heap. */
    method Truncate(tx: Tx, kept: set<Tx>)
      requires Shaped() && tx in all.all && tx in pending.txs
      requires WithList(pending, tx.sender, kept) == PendingWithout(pending, tx)
      modifies this`pending, all, priced, pendingNonces
      ensures Shaped() && pending == old(PendingWithout(pending, tx)) && all.all == old(all.all) - {tx}
      ensures Lowered(currentState.nonces, old(pendingNonces.nonces), pendingNonces.nonces)
      ensures old(Tracked(all.all, priced.items)) ==> Tracked(all.all, priced.items)
      ensures old(ExactStales()) ==> ExactStales()
      ensures old(Contiguous()) ==> Contiguous()
      ensures old(Resting()) && Below(ListOf(old(pending), tx.sender), tx.nonce) != {} ==> Resting()
    {
      ghost var v := Lesser(tx.nonce, pendingNonces.Nonce(tx.sender));
      LoweredPut(currentState.nonces, pendingNonces.nonces, tx.sender, v);
      if old(Contiguous()) {
        RunsRemove(pending, currentState.nonces, pendingNonces.nonces, tx);
      }
      if old(Resting()) && Below(ListOf(pending, tx.sender), tx.nonce) != {} {
        SettledRemove(pending, currentState.nonces, pendingNonces.nonces, tx, v);
      }
      pending := WithList(pending, tx.sender, kept);
      DropOne(tx);
      pendingNonces.SetIfLower(tx.sender, tx.nonce);
    }

    /** One round: every offender loses its highest nonce, and the common length falls by one. */
    method TrimRound(offenders: seq<Address>, ghost p0: Accounts, ghost gang: set<Address>, ghost floor: nat,
                     ghost level: nat)
      requires Valid() && Distinct(offenders) && gang == Members(offenders, |offenders|) && 1 <= floor < level
      requires Levelled(p0, locals, level, {}, pending) && Gang(p0, locals, gang, floor, level)
      modifies this`pending, all, priced, pendingNonces
      ensures Valid() && Levelled(p0, locals, level, gang, pending)
      ensures |pending.txs| == |old(pending).txs| - |offenders| && |offenders| == |gang|
      ensures Lowered(currentState.nonces, old(pendingNonces.nonces), pendingNonces.nonces)
      ensures old(ExactStales()) ==> ExactStales()
      ensures old(Contiguous()) ==> Contiguous()
      ensures old(Resting()) ==> Resting()
    {
      VisitNone(offenders);
      LoweredSame(currentState.nonces, pendingNonces.nonces);
      ghost var done := {};
      for i := 0 to |offenders|
        invariant Valid() && Levelled(p0, locals, level, done, pending) && Visited(offenders, gang, i, done)
        invariant |pending.txs| == |old(pending).txs| - i &&
                  Lowered(currentState.nonces, old(pendingNonces.nonces), pendingNonces.nonces)
        invariant old(ExactStales()) ==> ExactStales()
        invariant old(Contiguous()) ==> Contiguous()
        invariant old(Resting()) ==> Resting()
      {
        ghost var p, nonces := pending, pendingNonces.nonces;
        VisitNext(offenders, gang, i, done);
        GangList(p0, locals, gang, floor, level, done, p, offenders[i]);
        DropHighest(offenders[i]);
        LoweredTwice(currentState.nonces, old(pendingNonces.nonces), nonces, pendingNonces.nonces);
        LevelStep(p0, locals, level, done, p, offenders[i], pending);
        done := done + {offenders[i]};
      }
      VisitAll(offenders, gang, done);
    }

    /** Rounds over the offenders until the pool fits or they are down to `floor`. */
    method Equalize(offenders: seq<Address>, floor: nat, total: nat, ghost p0: Accounts, ghost gang: set<Address>,
                    ghost level0: nat)
      returns (count: nat, ghost level: nat)
      requires Valid() && Distinct(offenders) && offenders != [] && gang == Members(offenders, |offenders|) &&
               1 <= floor <= level0
      requires Trimmed(p0, locals, level0, pending, config.globalSlots) && Gang(p0, locals, gang, floor, level0)
      requires total == |pending.txs|
      modifies this`pending, all, priced, pendingNonces
      ensures Valid() && floor <= level <= level0 && Trimmed(p0, locals, level, pending, config.globalSlots)
      ensures count == |pending.txs| && Lowered(currentState.nonces, old(pendingNonces.nonces), pendingNonces.nonces)
      ensures count <= config.globalSlots || level == floor
      ensures old(ExactStales()) ==> ExactStales()
      ensures old(Contiguous()) ==> Contiguous()
      ensures old(Resting()) ==> Resting()
    {
      count, level := total, level0;
      var last := offenders[|offenders| - 1];
      assert last in gang;
      LoweredSame(currentState.nonces, pendingNonces.nonces);
      TrimmedList(p0, locals, gang, floor, level, pending, config.globalSlots, last);
      while count > config.globalSlots && |ListOf(pending, last)| > floor
        invariant Valid() && floor <= level <= level0 && Trimmed(p0, locals, level, pending, config.globalSlots)
        invariant Gang(p0, locals, gang, floor, level) && |ListOf(pending, last)| == level
        invariant count == |pending.txs| &&
                  Lowered(currentState.nonces, old(pendingNonces.nonces), pendingNonces.nonces)
        invariant old(ExactStales()) ==> ExactStales()
        invariant old(Contiguous()) ==> Contiguous()
        invariant old(Resting()) ==> Resting()
        decreases level
      {
        level := level - 1;
        ghost var nonces := pendingNonces.nonces;
        count := LowerLevel(offenders, count, last, p0, gang, floor, level);
        LoweredTwice(currentState.nonces, old(pendingNonces.nonces), nonces, pendingNonces.nonces);
      }
    }

    /** A round, keeping count. */
    method LowerLevel(offenders: seq<Address>, total: nat, ghost last: Address, ghost p0: Accounts,
                      ghost gang: set<Address>, ghost floor: nat, ghost level: nat)
      returns (count: nat)
      requires Valid() && Distinct(offenders) && gang == Members(offenders, |offenders|) && last in gang &&
               1 <= floor <= level
      requires Trimmed(p0, locals, level + 1, pending, config.globalSlots) && Gang(p0, locals, gang, floor, level + 1)
      requires total == |pending.txs| > config.globalSlots
      modifies this`pending, all, priced, pendingNonces
      ensures Valid() && Trimmed(p0, locals, level, pending, config.globalSlots) && Gang(p0, locals, gang, floor, level)
      ensures count == |pending.txs| && |ListOf(pending, last)| == level &&
              Lowered(currentState.nonces, old(pendingNonces.nonces), pendingNonces.nonces)
      ensures old(ExactStales()) ==> ExactStales()
      ensures old(Contiguous()) ==> Contiguous()
      ensures old(Resting()) ==> Resting()
    {
      TrimmedIs(p0, locals, level + 1, pending, config.globalSlots);
      TrimRound(offenders, p0, gang, floor, level + 1);
      RoundEnds(p0, locals, gang, floor, level, pending, config.globalSlots);
      TrimmedList(p0, locals, gang, floor, level, pending, config.globalSlots, last);
      count := total - |offenders|;
    }

    /** The remote accounts with more than their guaranteed slots, in a heap. */
    method CollectSpammers() returns (spammers: seq<Spammer>)
      ensures Holds(spammers, pending, Above(pending, locals, config.accountSlots))
    {
      NoSpammers(pending);
      spammers := [];
      var todo := pending.keys;
      ghost var found := {};
      while todo != {}
        invariant todo <= pending.keys && found == Above(pending, locals, config.accountSlots) - todo
        invariant Holds(spammers, pending, found)
        decreases todo
      {
        var a :| a in todo;
        todo := todo - {a};
        if a !in locals && |ListOf(pending, a)| > config.accountSlots {
          spammers := PushSpammer(spammers, a, |ListOf(pending, a)|, pending, found);
          found := found + {a};
        }
      }
      assert found == Above(pending, locals, config.accountSlots);
    }

    /** Cuts the pending lists of big remote transactors to a common length until the pool fits: locals and lists no
        longer than that lose nothing, every list that is cut ends at exactly that length with its lowest nonces, and
        the length is at least what every account is guaranteed. */
    method TruncatePending() returns (ghost level: nat)
      requires Valid()
      modifies this`pending, all, priced, pendingNonces
      ensures Valid() && level >= config.accountSlots && pending.keys == old(pending).keys
      ensures forall a :: Fair(old(pending), locals, level, pending, a)
      ensures |old(pending).txs| <= config.globalSlots ==> pending == old(pending)
      ensures |pending.txs| <= config.globalSlots || forall a ::
                a in pending.keys && a !in locals ==> |ListOf(pending, a)| <= config.accountSlots
      ensures |old(pending).txs| > config.globalSlots ==>
                |pending.txs| + |CutAccounts(old(pending), pending)| > config.globalSlots
      ensures Lowered(currentState.nonces, old(pendingNonces.nonces), pendingNonces.nonces)
      ensures old(ExactStales()) ==> ExactStales()
      ensures old(Contiguous()) ==> Contiguous()
      ensures old(Resting()) ==> Resting()
    {
      level := LevelPending();
      LevelledIsFair(old(pending), locals, level, pending);
      assert |pending.txs| > config.globalSlots ==>
          forall a :: a in pending.keys && a !in locals ==> a !in Above(pending, locals, config.accountSlots);
    }

    method LevelPending() returns (ghost level: nat)
      requires Valid()
      modifies this`pending, all, priced, pendingNonces
      ensures Lowered(currentState.nonces, old(pendingNonces.nonces), pendingNonces.nonces)
      ensures Valid() && level >= config.accountSlots && Levelled(old(pending), locals, level, {}, pending)
      ensures |old(pending).txs| <= config.globalSlots ==> pending == old(pending)
      ensures |pending.txs| <= config.globalSlots || Above(pending, locals, config.accountSlots) == {}
      ensures |old(pending).txs| > config.globalSlots ==>
                |pending.txs| + |Above(old(pending), locals, level)| > config.globalSlots
      ensures old(ExactStales()) ==> ExactStales()
      ensures old(Contiguous()) ==> Contiguous()
      ensures old(Resting()) ==> Resting()
    {
      ghost var p0, slots := pending, config.accountSlots;
      level := |p0.txs| + slots;
      LevelStart(pending, queue, all.all, locals, level);
      LoweredSame(currentState.nonces, pendingNonces.nonces);
      PendingSendersListed(pending, queue, all.all);
      var count := CountAll(pending);
      if count <= config.globalSlots {
        return;
      }
      PursuitStarts(p0, locals, slots, config.globalSlots, level);
      var spammers := CollectSpammers();
      ghost var rest, gang := Above(p0, locals, slots), {};
      var offenders: seq<Address> := [];
      while count > config.globalSlots && |spammers| > 0
        invariant Valid() && Holds(spammers, p0, rest) && count == |pending.txs|
        invariant Lowered(currentState.nonces, old(pendingNonces.nonces), pendingNonces.nonces)
        invariant Pursuit(p0, locals, slots, config.globalSlots, pending, level, offenders, gang, rest)
        invariant old(ExactStales()) ==> ExactStales()
        invariant old(Contiguous()) ==> Contiguous()
        invariant old(Resting()) ==> Resting()
        decreases rest
      {
        var offender;
        ghost var nonces := pendingNonces.nonces;
        offender, spammers := PopSpammer(spammers, p0, rest);
        count, level := Penalize(offenders, offender, count, p0, gang, rest, level);
        LoweredTwice(currentState.nonces, old(pendingNonces.nonces), nonces, pendingNonces.nonces);
        offenders := offenders + [offender];
        gang, rest := gang + {offender}, rest - {offender};
      }
      PursuitEnds(p0, locals, slots, config.globalSlots, pending, level, offenders, gang, spammers, rest);
      if count > config.globalSlots && |offenders| > 0 {
        ghost var nonces := pendingNonces.nonces;
        count, level := Equalize(offenders, config.accountSlots, count, p0, gang, level);
        LoweredTwice(currentState.nonces, old(pendingNonces.nonces), nonces, pendingNonces.nonces);
      }
      TrimmedIs(p0, locals, level, pending, config.globalSlots);
      NobodyAbove(p0, locals, slots, level, pending);
    }

    /** Cuts the earlier offenders to the length of the next one; the first only sets the length. */
    method Penalize(offenders: seq<Address>, offender: Address, total: nat, ghost p0: Accounts,
                    ghost gang: set<Address>, ghost rest: set<Address>, ghost level0: nat)
      returns (count: nat, ghost level: nat)
      requires Valid() && Pursuit(p0, locals, config.accountSlots, config.globalSlots, pending, level0, offenders, gang,
                                  rest)
      requires total == |pending.txs| && total > config.globalSlots
      requires offender in rest && forall b :: b in rest ==> |ListOf(p0, b)| <= |ListOf(p0, offender)|
      modifies this`pending, all, priced, pendingNonces
      ensures Valid() && count == |pending.txs| &&
              Lowered(currentState.nonces, old(pendingNonces.nonces), pendingNonces.nonces)
      ensures Pursuit(p0, locals, config.accountSlots, config.globalSlots, pending, level, offenders + [offender],
                      gang + {offender}, rest - {offender})
      ensures old(ExactStales()) ==> ExactStales()
      ensures old(Contiguous()) ==> Contiguous()
      ensures old(Resting()) ==> Resting()
    {
      PursuitIs(p0, locals, config.accountSlots, config.globalSlots, pending, level0, offenders, gang, rest);
      HuntIs(p0, locals, config.accountSlots, offenders, gang, rest);
      LoweredSame(currentState.nonces, pendingNonces.nonces);
      if offenders == [] {
        FirstOffender(p0, locals, level0, pending, config.globalSlots, rest, config.accountSlots, offender);
        count, level := total, |ListOf(p0, offender)|;
      } else {
        NextOffender(p0, locals, gang, level0, pending, config.globalSlots, rest, config.accountSlots, offender);
        count, level := Equalize(offenders, |ListOf(pending, offender)|, total, p0, gang, level0);
      }
      PursuitNext(p0, locals, config.accountSlots, config.globalSlots, pending, level, offenders, gang, rest, offender);
    }

    // ---- reorg runs ----

    /** What admission goes by while a reset adds transactions back: the new head's state and gas limit, but the old
        head's rules. */
    ghost function GateAt(head: Head): Gate
      reads this
    {
      GateNow().(state := head.state, maxGas := head.gasLimit)
    }

    /** Moves to a new head and adds back the transactions that left the chain. */
    method Reset(head: Head, reinject: seq<Tx>)
      requires Valid()
      modifies this`pendingNonces, this`currentState, this`currentMaxGas, this`istanbul,
               this`pending, this`queue, this`beats, this`locals, all, priced, pendingNonces
      ensures Valid() && fresh(pendingNonces) && currentState == head.state && currentMaxGas == head.gasLimit &&
              istanbul == head.istanbul
      ensures locals == old(locals) && PutBack(old(GateAt(head)), old(BooksNow()), reinject, BooksNow())
      ensures old(Contiguous()) && old(Advanced(currentState.nonces, head.state.nonces)) && reinject == [] ==>
                Advancing()
      ensures reinject == [] ==>
                pending == old(pending) && queue == old(queue) && locals == old(locals) && all.all == old(all.all) &&
                    pendingNonces.nonces == Table(map[])
      ensures old(ExactStales()) && NewTo(old(priced.items), reinject) ==> ExactStales()
    {
      MoveTo(head);
      var rs, dirty := AddTxs(reinject, false);
      istanbul := head.istanbul;
    }

    /** Takes over the new head's state with fresh virtual nonces; its rules come last. */
    method MoveTo(head: Head)
      requires Valid()
      modifies this`pendingNonces, this`currentState, this`currentMaxGas
      ensures Valid() && fresh(pendingNonces) && pendingNonces.nonces == Table(map[])
      ensures GateNow() == old(GateAt(head))
      ensures old(Contiguous()) && old(Advanced(currentState.nonces, head.state.nonces)) ==> Advancing()
    {
      if old(Contiguous()) && Advanced(currentState.nonces, head.state.nonces) {
        ClimbStarts(pending, currentState.nonces, pendingNonces.nonces, head.state, head.gasLimit);
      }
      currentState := head.state;
      pendingNonces := new TxNoncer(head.state.nonces);
      currentMaxGas := head.gasLimit;
    }

    /** Sets every account's virtual nonce to one past its last pending transaction. */
    method UpdateNonces()
      requires Valid()
      modifies pendingNonces
      ensures Valid() && forall a :: a in pending.keys ==> PastLast(ListOf(pending, a), pendingNonces.Nonce(a))
      ensures old(Resting()) ==> Contiguous()
      ensures old(Contiguous()) ==>
                Contiguous() && Lowered(currentState.nonces, old(pendingNonces.nonces), pendingNonces.nonces)
    {
      var todo := pending.keys;
      if old(Contiguous()) {
        RunsSettle(pending, currentState.nonces, pendingNonces.nonces);
      }
      if old(Resting()) {
        UpdateStarts(pending, queue, all.all, currentState.nonces, pendingNonces.nonces);
      }
      while todo != {}
        invariant Valid() && todo <= pending.keys
        invariant forall a :: a in pending.keys - todo ==> PastLast(ListOf(pending, a), pendingNonces.Nonce(a))
        invariant old(Resting()) ==> HalfUpdated(pending, currentState.nonces, pendingNonces.nonces, todo)
        decreases todo
      {
        var a :| a in todo;
        PendingListed(pending, queue, all.all, a);
        var txs := Flatten(ListOf(pending, a));
        EnumerationLength(txs, ListOf(pending, a));
        if old(Resting()) {
          UpdateStep(pending, currentState.nonces, pendingNonces.nonces, todo, a, txs);
        }
        LastIsPastLast(ListOf(pending, a), txs);
        pendingNonces.Set(a, txs[|txs| - 1].nonce + 1);
        todo := todo - {a};
      }
      if old(Resting()) {
        UpdateEnds(pending, currentState.nonces, pendingNonces.nonces);
      }
      if old(Contiguous()) {
        RunsFixNonces(pending, currentState.nonces, old(pendingNonces.nonces), pendingNonces.nonces);
      }
    }

    static method Addresses(accounts: set<Address>) returns (list: seq<Address>)
      ensures forall a :: a in list <==> a in accounts
    {
      list := [];
      var todo := accounts;
      while todo != {}
        invariant todo <= accounts && forall a :: a in list <==> a in accounts - todo
        decreases todo
      {
        var a :| a in todo;
        todo := todo - {a};
        list := list + [a];
      }
    }

    /** Promotes and, after a reset, demotes. */
    method Revalidate(accounts: seq<Address>, reset: bool, now: int)
      returns (promoted: seq<Tx>, ghost p: Accounts, ghost q: Accounts, ghost n: Table<nat>)
      requires Valid()
      modifies this`pending, this`queue, this`beats, all, priced, pendingNonces
      ensures Valid() && all.all <= old(all.all)
      ensures AllPromoted(old(pending), old(queue), old(pendingNonces.nonces), TermsNow(), p, q, n,
                          Among(accounts))
      ensures old(pending).txs <= p.txs && Enumerates(promoted, p.txs - old(pending).txs) && exists all' ::
                Coherent(p, q, all')
      ensures reset ==> AllDemoted(p, q, currentState, currentMaxGas, pending, queue, {})
      ensures !reset ==> p == pending && q == queue
      ensures n == pendingNonces.nonces && (old(Contiguous()) ==> Runs(p, currentState.nonces, n))
      ensures AllIdle(q, currentState.nonces, n, Among(accounts))
      ensures reset && old(Advancing()) ==> Resting()
      ensures old(ExactStales()) ==> ExactStales()
    {
      promoted := PromoteExecutables(accounts, now);
      p, q, n := pending, queue, pendingNonces.nonces;
      DrainedIsIdle(queue, currentState, currentMaxGas, pendingNonces.nonces, locals, config.accountQueue,
                    Among(accounts));
      if reset {
        DemoteUnexecutables();
      }
    }

    /** Brings pending and queue within their limits. */
    method Truncations()
      requires Valid()
      modifies this`pending, this`queue, this`beats, all, priced, pendingNonces
      ensures Valid() && Shortened(old(pending), old(queue), LimitsNow(), beats, pending, queue)
      ensures |pending.txs| <= config.globalSlots || forall a ::
                a in pending.keys && a !in locals ==> |ListOf(pending, a)| <= config.accountSlots
      ensures |queue.txs| <= config.globalQueue || forall t :: t in queue.txs ==> t.sender in locals
      ensures Lowered(currentState.nonces, old(pendingNonces.nonces), pendingNonces.nonces)
      ensures old(Resting()) ==> Resting()
      ensures old(Contiguous()) ==> Contiguous()
      ensures old(ExactStales()) ==> ExactStales()
    {
      ghost var level := TruncatePending();
      FairIsPart(old(pending), locals, level, pending);
      TruncateQueue();
      ShortenedIs(old(pending), old(queue), LimitsNow(), beats, pending, queue, level);
    }

    ghost function LimitsNow(): Limits
      reads this
    {
      Limits(config.accountSlots, config.globalSlots, config.globalQueue, locals)
    }

    /** The end of a run: both maps within their limits and the nonces in step. */
    method Settle()
      requires Valid()
      modifies this`pending, this`queue, this`beats, all, priced, pendingNonces
      ensures Valid() && Tidy() && Shortened(old(pending), old(queue), LimitsNow(), beats, pending, queue)
      ensures old(Resting()) ==> Contiguous()
      ensures old(Contiguous()) ==>
                Contiguous() && Lowered(currentState.nonces, old(pendingNonces.nonces), pendingNonces.nonces)
      ensures old(ExactStales()) ==> ExactStales()
    {
      Truncations();
      ghost var nonces := pendingNonces.nonces;
      UpdateNonces();
      if old(Contiguous()) {
        LoweredTwice(currentState.nonces, old(pendingNonces.nonces), nonces, pendingNonces.nonces);
      }
    }

    /** The accounts whose queue a run with a reset to this head would leave with an executable transaction. */
    ghost function StrandedBy(head: Head): set<Address>
      reads this, pendingNonces
    {
      StrandedAccounts(pending, queue, currentState.nonces, pendingNonces.nonces, head.state, head.gasLimit)
    }

    /** Does a queued transaction of the account continue its pending list. */
    ghost predicate Executable(a: Address)
      reads this, pendingNonces
    {
      Ready(ListOf(queue, a), pendingNonces.Nonce(a)) != {}
    }

    /** No queued transaction is executable; or exactly those of the given accounts are; or of those accounts
        exactly the ones whose pending list still ends where it did. */
    ghost predicate LeavesNone()
      reads this, pendingNonces
    {
      forall a :: !Executable(a)
    }

    ghost predicate Leaves(accounts: set<Address>)
      reads this, pendingNonces
    {
      forall a :: Executable(a) <==> a in accounts
    }

    ghost predicate LeavesOf(accounts: set<Address>, chain: Table<nat>, nonces: Table<nat>)
      reads this, pendingNonces
    {
      forall a :: Executable(a) <==> a in accounts && StillExecutable(a, Virtual(nonces, chain, a))
    }

    /** Truncation will have nothing to do. */
    ghost predicate Roomy()
      reads this, all
    {
      Fits(all.all, LimitsNow())
    }

    /** Of the local accounts exactly the given ones are executable. */
    ghost predicate LeavesLocals(accounts: set<Address>)
      reads this, pendingNonces
    {
      forall a :: a in locals ==> (Executable(a) <==> a in accounts)
    }

    /** The maps are what promotion, or promotion and demotion, and then truncation make of the given ones. */
    ghost predicate PromotedAndCut(p0: Accounts, q0: Accounts, n0: Table<nat>, done: set<Address>)
      reads this
    {
      exists p, q, n ::
          AllPromoted(p0, q0, n0, TermsNow(), p, q, n, done) && Shortened(p, q, LimitsNow(), beats, pending, queue)
    }

    ghost predicate RerunAndCut(p0: Accounts, q0: Accounts, n0: Table<nat>, done: set<Address>)
      reads this
    {
      exists p, q, n, p2, q2 ::
        && AllPromoted(p0, q0, n0, TermsNow(), p, q, n, done)
        && AllDemoted(p, q, currentState, currentMaxGas, p2, q2, {})
        && Shortened(p2, q2, LimitsNow(), beats, pending, queue)
    }

    /** Neither truncation nor a queue limit will have anything to do. */
    ghost predicate Ample()
      reads this, all
    {
      AmpleFor(all.all)
    }

    ghost predicate AmpleFor(txs: set<Tx>)
      reads this
    {
      Fits(txs, LimitsNow()) && WithinQueues(txs, locals, config.accountQueue)
    }

    /** The index once a reset has put transactions with distinct slots back into a pool with room. */
    ghost function IndexAt(head: Head, reinject: seq<Tx>): set<Tx>
      reads this, all
    {
      Overtaken(all.all, Winners(GateAt(head), false, all.all, reinject))
    }

    /** The maps are those of a pool into which the reset put transactions back, after the rest of the run. */
    ghost predicate PutBackAndRerun(g: Gate, b: Books, reinject: seq<Tx>, events: set<Tx>, announced: set<Tx>)
      reads this
    {
      exists b', n ::
        && PutBack(g, b, reinject, b') && RerunAndCut(b'.pending, b'.queue, n, b'.queue.keys)
        && Announces(FreshEvents(events, n, currentState.nonces), b'.pending, b'.queue, pending, announced)
    }

    /** A head that lowers no nonce and puts nothing back. */
    ghost predicate Forward(reset: Request)
      reads this
    {
      reset.ResetTo? && reset.reinject == [] && Advanced(currentState.nonces, reset.head.state.nonces)
    }

    ghost function TermsNow(): Terms
      reads this
    {
      Terms(currentState, currentMaxGas, locals, config.accountQueue)
    }

    /** A run after its reset. Promotion leads to `p` and `q`, demotion to `p2` and `q2` with index `mid`. */
    method RunRest(reset: bool, accounts: seq<Address>, events: set<Tx>, now: int)
      returns (announced: set<Tx>, ghost p: Accounts, ghost q: Accounts, ghost n: Table<nat>, ghost p2: Accounts,
               ghost q2: Accounts, ghost mid: set<Tx>)
      requires Valid()
      modifies this`pending, this`queue, this`beats, all, priced, pendingNonces
      ensures Valid() && Tidy()
      ensures AllPromoted(old(pending), old(queue), old(pendingNonces.nonces), TermsNow(), p, q, n,
                          Among(accounts))
      ensures AllIdle(q, currentState.nonces, n, Among(accounts)) &&
              (old(Contiguous()) ==> Runs(p, currentState.nonces, n))
      ensures if reset then AllDemoted(p, q, currentState, currentMaxGas, p2, q2, {}) else p2 == p && q2 == q
      ensures Coherent(p2, q2, mid) && mid <= old(all.all) && exists all' :: Coherent(p, q, all')
      ensures Shortened(p2, q2, LimitsNow(), beats, pending, queue) && pending.txs <= p2.txs && queue.txs <= q2.txs
      ensures !reset && old(Solvent()) ==> Solvent()
      ensures reset ==> Solvent() && forall t :: t in pending.txs ==> t.nonce >= currentState.Nonce(t.sender)
      ensures reset && old(Advancing()) ==> AllSettled(p2, currentState.nonces, n) && Contiguous()
      ensures Runs(p2, currentState.nonces, n) ==> Contiguous() && Lowered(currentState.nonces, n, pendingNonces.nonces)
      ensures old(ExactStales()) ==> ExactStales()
      ensures Announces(events, old(pending), old(queue), pending, announced)
      ensures forall t :: t in announced ==> t in events || t.nonce >= currentState.Nonce(t.sender)
      ensures OnePerSlot(events) ==> OnePerSlot(announced)
    {
      var promoted;
      promoted, p, q, n := Revalidate(accounts, reset, now);
      p2, q2, mid := pending, queue, all.all;
      announced := Herald(events, promoted, old(pending), old(queue), old(pendingNonces.nonces), TermsNow(), p, q, n,
                          Among(accounts));
      if reset {
        DemotedIsPart(p, q, currentState, currentMaxGas, p2, q2);
      } else if old(Solvent()) {
        PromotedPayable(old(pending), old(queue), old(pendingNonces.nonces), TermsNow(), p, q, n, Among(accounts));
      }
      Settle();
      ShortenedPart(p2, q2, LimitsNow(), beats, pending, queue);
      if AllPayable(p2, currentState, currentMaxGas) {
        PayablePart(p2, pending, currentState, currentMaxGas);
      }
      AnnouncesPart(events, old(pending), old(queue), p, pending, announced);
    }

    /** Both maps are within their limits, and every pending account's nonce is past its last transaction. */
    ghost predicate Tidy()
      reads this, pendingNonces
    {
      && (|pending.txs| <= config.globalSlots || forall a ::
           a in pending.keys && a !in locals ==> |ListOf(pending, a)| <= config.accountSlots)
      && (|queue.txs| <= config.globalQueue || forall t :: t in queue.txs ==> t.sender in locals)
      && forall a :: a in pending.keys ==> PastLast(ListOf(pending, a), pendingNonces.Nonce(a))
    }

    /** A run without a reset, for the requested accounts. */
    method RunPromotion(dirty: set<Address>, events: set<Tx>, now: int) returns (announced: set<Tx>)
      requires Valid()
      modifies this`pending, this`queue, this`beats, all, priced, pendingNonces
      ensures Valid() && Tidy()
      ensures PromotedAndCut(old(pending), old(queue), old(pendingNonces.nonces), dirty)
      ensures old(Contiguous()) ==> Contiguous() && forall a :: a in dirty ==> !Executable(a)
      ensures old(Solvent()) ==> Solvent()
      ensures old(ExactStales()) ==> ExactStales()
      ensures Announces(events, old(pending), old(queue), pending, announced)
      ensures OnePerSlot(events) ==> OnePerSlot(announced)
    {
      var accounts := Addresses(dirty);
      ghost var p, q, n, p2, q2, mid;
      announced, p, q, n, p2, q2, mid := RunRest(false, accounts, events, now);
      assert Among(accounts) == dirty;
      if old(Contiguous()) {
        IdleAtEnd(q, queue, currentState.nonces, n, pendingNonces.nonces, dirty);
      }
    }

    /** A run after its reset, for every account with a queue. `chain` and `nonces` are those before the reset. */
    method RunQueues(events: set<Tx>, now: int, ghost chain: Table<nat>, ghost nonces: Table<nat>)
      returns (announced: set<Tx>)
      requires Valid()
      modifies this`pending, this`queue, this`beats, all, priced, pendingNonces
      ensures Valid() && Tidy()
      ensures RerunAndCut(old(pending), old(queue), old(pendingNonces.nonces), old(queue).keys)
      ensures old(Ample()) ==> all.all == Living(old(all.all), currentState, currentMaxGas)
      ensures Fronted(pending, currentState.nonces)
      ensures Solvent() && forall t :: t in pending.txs ==> t.nonce >= currentState.Nonce(t.sender)
      ensures old(Contiguous()) && old(Solvent()) ==> Contiguous() && LeavesNone()
      ensures old(Climbed(chain, nonces)) ==>
                && Contiguous()
                && LeavesOf(old(StrandedSince(chain, nonces)), chain, nonces)
                && LeavesLocals(old(StrandedSince(chain, nonces)))
      ensures old(Climbed(chain, nonces)) && old(Roomy()) ==> Leaves(old(StrandedSince(chain, nonces)))
      ensures old(ExactStales()) ==> ExactStales()
      ensures Announces(events, old(pending), old(queue), pending, announced)
      ensures forall t :: t in announced ==> t in events || t.nonce >= currentState.Nonce(t.sender)
      ensures OnePerSlot(events) ==> OnePerSlot(announced)
    {
      var accounts := Addresses(queue.keys);
      ghost var done := Among(accounts);
      ghost var p0, q0, all0, n0 := pending, queue, all.all, pendingNonces.nonces;
      ghost var p, q, n, p2, q2, mid;
      announced, p, q, n, p2, q2, mid := RunRest(true, accounts, events, now);
      assert done == old(queue).keys;
      AfterRest(old(Contiguous()), old(Climbed(chain, nonces)), p0, q0, all0, n0, chain, nonces, p, q, n, done, p2, q2,
                mid);
    }

    /** The same after dropping the events below the virtual nonces, which the reset made stale. */
    method RunForHead(events: set<Tx>, now: int, ghost chain: Table<nat>, ghost nonces: Table<nat>)
      returns (announced: set<Tx>)
      requires Valid()
      modifies this`pending, this`queue, this`beats, all, priced, pendingNonces
      ensures Valid() && Tidy()
      ensures RerunAndCut(old(pending), old(queue), old(pendingNonces.nonces), old(queue).keys)
      ensures old(Ample()) ==> all.all == Living(old(all.all), currentState, currentMaxGas)
      ensures Fronted(pending, currentState.nonces)
      ensures Solvent() && forall t :: t in pending.txs ==> t.nonce >= currentState.Nonce(t.sender)
      ensures old(Contiguous()) && old(Solvent()) ==> Contiguous() && LeavesNone()
      ensures old(Climbed(chain, nonces)) ==>
                && Contiguous()
                && LeavesOf(old(StrandedSince(chain, nonces)), chain, nonces)
                && LeavesLocals(old(StrandedSince(chain, nonces)))
      ensures old(Climbed(chain, nonces)) && old(Roomy()) ==> Leaves(old(StrandedSince(chain, nonces)))
      ensures old(ExactStales()) ==> ExactStales()
      ensures Announces(FreshEvents(events, old(pendingNonces.nonces), currentState.nonces), old(pending), old(queue),
                        pending, announced)
      ensures old(pendingNonces.nonces) == Table(map[]) ==>
                forall t :: t in announced ==> t.nonce >= currentState.Nonce(t.sender)
      ensures OnePerSlot(events) ==> OnePerSlot(announced)
    {
      var current := set t | t in events && t.nonce >= pendingNonces.Nonce(t.sender);
      assert current == FreshEvents(events, pendingNonces.nonces, currentState.nonces);
      announced := RunQueues(current, now, chain, nonces);
    }

    /** Both cases, told apart by the state before the run. */
    lemma AfterRest(contiguous: bool, climbed: bool, p0: Accounts, q0: Accounts, all0: set<Tx>, n0: Table<nat>,
                    chain: Table<nat>, nonces: Table<nat>, p: Accounts, q: Accounts, n: Table<nat>, done: set<Address>,
                    p2: Accounts, q2: Accounts, mid: set<Tx>)
      requires Valid() && Coherent(p0, q0, all0) && q0.keys <= done &&
               AllPromoted(p0, q0, n0, TermsNow(), p, q, n, done)
      requires AllIdle(q, currentState.nonces, n, done) && (exists all' :: Coherent(p, q, all'))
      requires AllDemoted(p, q, currentState, currentMaxGas, p2, q2, {}) && Coherent(p2, q2, mid)
      requires Shortened(p2, q2, LimitsNow(), beats, pending, queue) && mid <= all0
      requires Runs(p2, currentState.nonces, n) ==>
                Contiguous() && Lowered(currentState.nonces, n, pendingNonces.nonces)
      requires contiguous ==> Runs(p, currentState.nonces, n)
      requires climbed ==> Contiguous() && AllSettled(p2, currentState.nonces, n)
      requires climbed ==> Runs(p0, chain, nonces) && Advanced(chain, currentState.nonces) && n0 == Table(map[])
      ensures Fronted(pending, currentState.nonces)
      ensures AmpleFor(all0) ==> all.all == Living(all0, currentState, currentMaxGas)
      ensures contiguous && AllPayable(p0, currentState, currentMaxGas) ==> Contiguous() && LeavesNone()
      ensures climbed ==>
                var stranded := StrandedAccounts(p0, q0, chain, nonces, currentState, currentMaxGas);
                LeavesOf(stranded, chain, nonces) && LeavesLocals(stranded) &&
                    (Fits(all0, LimitsNow()) ==> Leaves(stranded))
    {
      ShortenedPart(p2, q2, LimitsNow(), beats, pending, queue);
      KeepsFronts(p, q, p2, q2);
      if AmpleFor(all0) {
        LosesNoLiving(p0, q0, all0, n0, p, q, n, done, p2, q2, mid);
      }
      if contiguous && AllPayable(p0, currentState, currentMaxGas) {
        AfterFailure(p0, q0, all0, n0, p, q, n, done, p2, q2, mid);
      }
      if climbed {
        AfterHead(p0, q0, all0, chain, nonces, p, q, n, done, p2, q2, mid);
      }
    }

    lemma KeepsFronts(p: Accounts, q: Accounts, p2: Accounts, q2: Accounts)
      requires Shaped() && AllDemoted(p, q, currentState, currentMaxGas, p2, q2, {})
      requires Shortened(p2, q2, LimitsNow(), beats, pending, queue)
      ensures Fronted(pending, currentState.nonces)
    {
      DemotedIsPart(p, q, currentState, currentMaxGas, p2, q2);
      DemotedFronted(p, q, currentState, currentMaxGas, p2, q2);
      ShortenedFronted(p2, q2, LimitsNow(), beats, pending, queue, currentState.nonces);
    }

    lemma LosesNoLiving(p0: Accounts, q0: Accounts, all0: set<Tx>, n0: Table<nat>, p: Accounts, q: Accounts,
                        n: Table<nat>, done: set<Address>, p2: Accounts, q2: Accounts, mid: set<Tx>)
      requires Valid() && Coherent(p0, q0, all0) && q0.keys <= done && AmpleFor(all0) && mid <= all0
      requires AllPromoted(p0, q0, n0, TermsNow(), p, q, n, done)
      requires AllDemoted(p, q, currentState, currentMaxGas, p2, q2, {}) && Coherent(p2, q2, mid)
      requires Shortened(p2, q2, LimitsNow(), beats, pending, queue)
      ensures all.all == Living(all0, currentState, currentMaxGas)
    {
      FitsNeedsNoCut(p2, q2, mid, all0, LimitsNow(), beats, pending, queue, all.all);
      RerunKeeps(p0, q0, all0, n0, TermsNow(), p, q, n, done, p2, q2, mid);
      assert OpenBooks(0);
    }

    lemma AfterFailure(p0: Accounts, q0: Accounts, all0: set<Tx>, n0: Table<nat>, p: Accounts, q: Accounts,
                       n: Table<nat>,
                       done: set<Address>, p2: Accounts, q2: Accounts, mid: set<Tx>)
      requires Shaped() && Coherent(p0, q0, all0) && q0.keys <= done &&
               AllPromoted(p0, q0, n0, TermsNow(), p, q, n, done)
      requires AllPayable(p0, currentState, currentMaxGas) && Runs(p, currentState.nonces, n) &&
               (exists all' :: Coherent(p, q, all'))
      requires AllDemoted(p, q, currentState, currentMaxGas, p2, q2, {}) && Coherent(p2, q2, mid)
      requires AllIdle(q, currentState.nonces, n, done) && queue.txs <= q2.txs
      requires Runs(p2, currentState.nonces, n) ==>
                Contiguous() && Lowered(currentState.nonces, n, pendingNonces.nonces)
      ensures Contiguous() && LeavesNone()
    {
      FailedAtEnd(p0, q0, all0, n0, TermsNow(), p, q, n, done, p2, q2, mid);
      EveryoneIdle(p0, q0, all0, n0, TermsNow(), p, q, n, done, queue, pendingNonces.nonces);
    }

    lemma AfterHead(p0: Accounts, q0: Accounts, all0: set<Tx>, chain: Table<nat>, nonces: Table<nat>, p: Accounts,
                    q: Accounts, n: Table<nat>,
                    done: set<Address>, p2: Accounts, q2: Accounts, mid: set<Tx>)
      requires Valid() && Contiguous() && Coherent(p0, q0, all0) && q0.keys <= done
      requires Runs(p0, chain, nonces) && Advanced(chain, currentState.nonces)
      requires AllPromoted(p0, q0, Table(map[]), TermsNow(), p, q, n, done)
      requires AllDemoted(p, q, currentState, currentMaxGas, p2, q2, {}) && Coherent(p2, q2, mid) &&
               AllSettled(p2, currentState.nonces, n)
      requires Shortened(p2, q2, LimitsNow(), beats, pending, queue) && mid <= all0
      ensures var stranded := StrandedAccounts(p0, q0, chain, nonces, currentState, currentMaxGas);
              && LeavesOf(stranded, chain, nonces) && LeavesLocals(stranded)
              && (Fits(all0, LimitsNow()) ==> Leaves(stranded))
    {
      ShortenedPart(p2, q2, LimitsNow(), beats, pending, queue);
      LocalsUntouched(p2, q2, LimitsNow(), beats, pending, queue);
      if Fits(all0, LimitsNow()) {
        FitsNeedsNoCut(p2, q2, mid, all0, LimitsNow(), beats, pending, queue, all.all);
      }
      StrandedAtEnd(p0, q0, all0, chain, nonces, TermsNow(), p, q, n, done, p2, q2, mid, pending, queue,
                    pendingNonces.nonces, all.all);
    }

    /** The pool has just moved on from a gap-free state with these nonces. */
    ghost predicate Climbed(chain: Table<nat>, nonces: Table<nat>)
      reads this, pendingNonces
    {
      && Runs(pending, chain, nonces) && Advanced(chain, currentState.nonces)
      && pendingNonces.nonces == Table(map[]) && Advancing()
    }

    ghost function StrandedSince(chain: Table<nat>, nonces: Table<nat>): set<Address>
      reads this
    {
      StrandedAccounts(pending, queue, chain, nonces, currentState, currentMaxGas)
    }

    /** The pending list still ends at `v`, and a queued transaction has that nonce. */
    ghost predicate StillExecutable(a: Address, v: nat)
      reads this, pendingNonces
    {
      pendingNonces.Nonce(a) == v && Occupied(ListOf(queue, a), v)
    }

    /** A run with a reset to a new head. */
    method RunReset(head: Head, reinject: seq<Tx>, events: set<Tx>, now: int) returns (announced: set<Tx>)
      requires Valid()
      modifies this`pendingNonces, this`currentState, this`currentMaxGas, this`istanbul,
               this`pending, this`queue, this`beats, this`locals, all, priced, pendingNonces
      ensures Valid() && Tidy() && currentState == head.state && currentMaxGas == head.gasLimit
      ensures PutBackAndRerun(old(GateAt(head)), old(BooksNow()), reinject, events, announced)
      ensures DistinctSlots(reinject) &&
              old(|all.all| + |reinject| <= GateNow().capacity && AmpleFor(IndexAt(head, reinject))) ==>
                all.all == Living(old(IndexAt(head, reinject)), head.state, head.gasLimit)
      ensures old(Contiguous()) && old(Advanced(currentState.nonces, head.state.nonces)) && reinject == [] ==>
                && Contiguous()
                && LeavesOf(old(StrandedBy(head)), old(currentState.nonces), old(pendingNonces.nonces))
                && LeavesLocals(old(StrandedBy(head)))
                && (old(Roomy()) ==> Leaves(old(StrandedBy(head))))
      ensures reinject == [] ==>
                && RerunAndCut(old(pending), old(queue), Table(map[]), old(queue).keys)
                && Announces(FreshEvents(events, Table(map[]), head.state.nonces), old(pending), old(queue), pending,
                             announced)
                && forall t :: t in announced ==> t.nonce >= currentState.Nonce(t.sender)
      ensures Fronted(pending, currentState.nonces)
      ensures Solvent() && forall t :: t in pending.txs ==> t.nonce >= currentState.Nonce(t.sender)
      ensures old(ExactStales()) && NewTo(old(priced.items), reinject) ==> ExactStales()
      ensures OnePerSlot(events) ==> OnePerSlot(announced)
    {
      Reset(head, reinject);
      ghost var g, b0, b := old(GateAt(head)), old(BooksNow()), BooksNow();
      if DistinctSlots(reinject) && |b0.all| + |reinject| <= g.capacity {
        PutBackExactly(g, b0, reinject, b);
      }
      announced := RunForHead(events, now, old(currentState.nonces), old(pendingNonces.nonces));
    }

    /** One run of the reorg loop: reset, promote, demote, truncate, and bring the nonces in step. The requested
        accounts count only without a reset, which looks at every queue but from the chain nonces on. */
    method RunReorg(reset: Request, dirty: set<Address>, events: set<Tx>, now: int) returns (announced: set<Tx>)
      requires Valid()
      modifies this`pendingNonces, this`currentState, this`currentMaxGas, this`istanbul,
               this`pending, this`queue, this`beats, this`locals, all, priced, pendingNonces
      ensures Valid() && Tidy()
      ensures reset.NoReset? && old(Contiguous()) ==> Contiguous() && forall a :: a in dirty ==> !Executable(a)
      ensures reset.ResetFails? && old(Contiguous()) && old(Solvent()) ==> Contiguous() && LeavesNone()
      ensures old(Forward(reset)) && old(Contiguous()) ==>
                && Contiguous() && currentState == reset.head.state
                && LeavesOf(old(StrandedBy(reset.head)), old(currentState.nonces), old(pendingNonces.nonces))
                && LeavesLocals(old(StrandedBy(reset.head)))
                && (old(Roomy()) ==> Leaves(old(StrandedBy(reset.head))))
      ensures reset.NoReset? ==> PromotedAndCut(old(pending), old(queue), old(pendingNonces.nonces), dirty)
      ensures reset.ResetFails? ==>
                RerunAndCut(old(pending), old(queue), old(pendingNonces.nonces), old(queue).keys)
      ensures reset.ResetTo? && reset.reinject == [] ==>
                RerunAndCut(old(pending), old(queue), Table(map[]), old(queue).keys)
      ensures reset.ResetTo? ==>
                PutBackAndRerun(old(GateAt(reset.head)), old(BooksNow()), reset.reinject, events, announced)
      ensures reset.ResetFails? && old(Ample()) ==> all.all == Living(old(all.all), currentState, currentMaxGas)
      ensures reset.ResetTo? && DistinctSlots(reset.reinject) &&
              old(|all.all| + |reset.reinject| <= GateNow().capacity &&
                  AmpleFor(IndexAt(reset.head, reset.reinject))) ==>
                all.all == Living(old(IndexAt(reset.head, reset.reinject)), reset.head.state, reset.head.gasLimit)
      ensures reset.NoReset? && old(Solvent()) ==> Solvent()
      ensures !reset.NoReset? ==> Fronted(pending, currentState.nonces)
      ensures !reset.NoReset? ==> Solvent() && forall t :: t in pending.txs ==> t.nonce >= currentState.Nonce(t.sender)
      ensures old(ExactStales()) && (reset.ResetTo? ==> NewTo(old(priced.items), reset.reinject)) ==> ExactStales()
      ensures reset.NoReset? ==> Announces(events, old(pending), old(queue), pending, announced)
      ensures reset.ResetFails? ==>
                Announces(FreshEvents(events, old(pendingNonces.nonces), old(currentState.nonces)), old(pending),
                          old(queue), pending, announced)
      ensures reset.ResetTo? && reset.reinject == [] ==>
                Announces(FreshEvents(events, Table(map[]), reset.head.state.nonces), old(pending), old(queue),
                          pending, announced)
      ensures reset.ResetTo? && reset.reinject == [] ==>
                forall t :: t in announced ==> t.nonce >= currentState.Nonce(t.sender)
      ensures OnePerSlot(events) ==> OnePerSlot(announced)
    {
      match reset
      case NoReset =>
        announced := RunPromotion(dirty, events, now);
      case ResetFails =>
        announced := RunForHead(events, now, currentState.nonces, pendingNonces.nonces);
      case ResetTo(head, reinject) =>
        announced := RunReset(head, reinject, events, now);
    }
  }
}
