/** What happens to transactions offered to the pool one after the other. */
module Admission {
  import opened Basics
  import opened Transactions
  import opened Priced
  import opened PoolState
  import opened Intrinsic

  datatype Outcome = Accepted(replaced: bool)
                   | AlreadyKnown | OversizedData | NegativeValue | GasLimit | InvalidSender | Underpriced
                   | NonceTooLow | InsufficientFunds | OutOfGas | IntrinsicGasTooLow | ReplaceUnderpriced

  /** What admission goes by: the head state, its gas limit and rules, the minimum price, the local accounts, the price
      bump of a replacement, and how many transactions the pool takes without dropping others. */
  datatype Gate = Gate(state: ChainState, maxGas: nat, istanbul: bool, minPrice: nat, locals: set<Address>, bump: nat,
                       capacity: nat)

  /** What a transaction must fulfil to be considered at all. */
  ghost predicate Admissible(g: Gate, tx: Tx, local: bool) {
    && tx.size <= TX_MAX_SIZE && tx.value >= 0 && tx.gas <= g.maxGas && tx.signed
    && (local || tx.sender in g.locals || g.minPrice <= tx.price)
    && g.state.Nonce(tx.sender) <= tx.nonce && Cost(tx) <= g.state.Balance(tx.sender)
    && BaseGas(tx.create, true) + DataGas(tx.data, g.istanbul) <= MAX_UINT64
    && BaseGas(tx.create, true) + DataGas(tx.data, g.istanbul) <= tx.gas
  }

  /** What a validation error says about a transaction. */
  ghost predicate Faulty(g: Gate, tx: Tx, local: bool, e: Outcome) {
    match e
    case OversizedData => tx.size > TX_MAX_SIZE
    case NegativeValue => tx.value < 0
    case GasLimit => tx.gas > g.maxGas
    case InvalidSender => !tx.signed
    case Underpriced => !local && tx.sender !in g.locals && tx.price < g.minPrice
    case NonceTooLow => tx.nonce < g.state.Nonce(tx.sender)
    case InsufficientFunds => Cost(tx) > g.state.Balance(tx.sender)
    case OutOfGas => BaseGas(tx.create, true) + DataGas(tx.data, g.istanbul) > MAX_UINT64
    case IntrinsicGasTooLow => BaseGas(tx.create, true) + DataGas(tx.data, g.istanbul) > tx.gas
    case _ => false
  }

  /** Is a remote transaction no dearer than everything pooled. */
  ghost predicate NoDearer(g: Gate, all: set<Tx>, tx: Tx, local: bool) {
    !local && !ContainsTx(g.locals, tx) && forall t :: t in all ==> tx.price <= t.price
  }

  datatype Books = Books(pending: Accounts, queue: Accounts, all: set<Tx>)

  /** One transaction's turn. */
  ghost predicate Turn(g: Gate, local: bool, b: Books, tx: Tx, r: Outcome, b': Books) {
    forall key {:trigger OpenTurn(key)} :: OpenTurn(key) ==>
      if tx in b.all then r == AlreadyKnown && b' == b
      else if !Admissible(g, tx, local) then Faulty(g, tx, local, r) && b' == b
      else if |b.all| < g.capacity then TakesSlot(b, tx, g.bump, r, b')
      else TakesRoom(g, local, b, tx, r, b')
  }

  // Always true; they fold the definitions that mention them.
  predicate OpenTurn(key: int) { true }

  predicate OpenSubmit(key: int) { true }

  /** What a turn comes to in a pool with room. */
  lemma WithRoom(g: Gate, local: bool, b: Books, tx: Tx, r: Outcome, b': Books)
    requires Turn(g, local, b, tx, r, b') && |b.all| < g.capacity
    ensures r.Accepted? <==> tx !in b.all && Admissible(g, tx, local) && OutbidsHolders(b.all, tx, g.bump)
    ensures b'.all == if r.Accepted? then SlotFreed(b.all, tx) + {tx} else b.all
  {
    assert OpenTurn(0);
  }

  /** A transaction's turn, put together from its cases. Local accounts only matter to a remote transaction. */
  lemma TurnIs(g: Gate, locals: set<Address>, local: bool, b: Books, tx: Tx, r: Outcome, b': Books)
    requires g.locals <= locals && (!local ==> locals == g.locals)
    requires tx in b.all ==> r == AlreadyKnown && b' == b
    requires tx !in b.all && !Admissible(g.(locals := locals), tx, local) ==>
               Faulty(g.(locals := locals), tx, local, r) && b' == b
    requires tx !in b.all && Admissible(g.(locals := locals), tx, local) && |b.all| < g.capacity ==>
               TakesSlot(b, tx, g.bump, r, b')
    requires tx !in b.all && Admissible(g.(locals := locals), tx, local) && |b.all| >= g.capacity ==>
               TakesRoom(g.(locals := locals), local, b, tx, r, b')
    ensures Turn(g, local, b, tx, r, b')
  {
  }

  /** With room: it takes over its slot, or the slot's holder is not outbid and nothing changes. */
  ghost predicate TakesSlot(b: Books, tx: Tx, bump: nat, r: Outcome, b': Books) {
    if OutbidsHolders(b.all, tx, bump) then
      && r == Accepted(SlotTaken(b.all, tx)) && b'.all == SlotFreed(b.all, tx) + {tx}
      && Seated(b.pending, b.queue, tx, b'.pending, b'.queue)
    else
      r == ReplaceUnderpriced && b' == b
  }

  /** In a full pool: refused if it is no dearer than the rest, otherwise others may have to go. */
  ghost predicate TakesRoom(g: Gate, local: bool, b: Books, tx: Tx, r: Outcome, b': Books) {
    && (r == Underpriced <==> NoDearer(g, b.all, tx, local)) && (r == Underpriced ==> b' == b)
    && (r.Accepted? || r == Underpriced || (r == ReplaceUnderpriced && !OutbidsHolders(b'.all, tx, g.bump)))
    && b'.all <= (if r.Accepted? then b.all + {tx} else b.all) && (r.Accepted? ==> tx in b'.all)
    && forall t :: t in b.all && t !in b'.all ==> !ContainsTx(g.locals, t) || (r.Accepted? && SameSlot(t, tx))
  }

  /** Turns one after the other, from books to books. */
  ghost predicate Turns(g: Gate, local: bool, txs: seq<Tx>, rs: seq<Outcome>, turns: seq<Books>) {
    && |rs| <= |txs| && |turns| == |rs| + 1
    && forall i :: 0 <= i < |rs| ==> Turn(g, local, turns[i], txs[i], rs[i], turns[i + 1])
  }

  /** A slice was submitted, with these outcomes. */
  ghost predicate Submitted(g: Gate, local: bool, b: Books, txs: seq<Tx>, rs: seq<Outcome>, b': Books) {
    forall key {:trigger OpenSubmit(key)} :: OpenSubmit(key) ==>
      exists turns :: Turns(g, local, txs, rs, turns) && turns[0] == b && turns[|rs|] == b'
  }

  lemma SubmittedNone(g: Gate, local: bool, b: Books, txs: seq<Tx>)
    ensures Submitted(g, local, b, txs, [], b)
  {
    assert Turns(g, local, txs, [], [b]);
  }

  lemma SubmittedNext(g: Gate, local: bool, b: Books, txs: seq<Tx>, rs: seq<Outcome>, mid: Books, r: Outcome, b': Books)
    requires Submitted(g, local, b, txs, rs, mid) && |rs| < |txs| && Turn(g, local, mid, txs[|rs|], r, b')
    ensures Submitted(g, local, b, txs, rs + [r], b')
  {
    assert OpenSubmit(0);
    var turns :| Turns(g, local, txs, rs, turns) && turns[0] == b && turns[|rs|] == mid;
    assert Turns(g, local, txs, rs + [r], turns + [b']);
  }

  // ---- a slice that fits ----

  ghost predicate DistinctSlots(txs: seq<Tx>) {
    forall i, j :: 0 <= i < j < |txs| ==> !SameSlot(txs[i], txs[j])
  }

  /** The transactions of a slice that are admissible, new, and outbid what held their slots before. */
  ghost function Winners(g: Gate, local: bool, all: set<Tx>, txs: seq<Tx>): set<Tx> {
    set t | t in txs && t !in all && Admissible(g, t, local) && OutbidsHolders(all, t, g.bump)
  }

  /** The index with the slots of the given transactions freed and taken by them. */
  ghost function Overtaken(all: set<Tx>, wins: set<Tx>): set<Tx> {
    (set t | t in all && !SlotTaken(wins, t)) + wins
  }

  lemma {:induction false} GrowsByOne(g: Gate, local: bool, txs: seq<Tx>, rs: seq<Outcome>, turns: seq<Books>, k: nat)
    requires Turns(g, local, txs, rs, turns) && k <= |rs| && |turns[0].all| + |txs| <= g.capacity
    ensures |turns[k].all| <= |turns[0].all| + k
  {
    if k > 0 {
      GrowsByOne(g, local, txs, rs, turns, k - 1);
      var b, tx := turns[k - 1], txs[k - 1];
      assert Turn(g, local, b, tx, rs[k - 1], turns[k - 1 + 1]);
      WithRoom(g, local, b, tx, rs[k - 1], turns[k]);
      SubsetSize(SlotFreed(b.all, tx), b.all);
    }
  }

  /** In a pool with room for all, an accepted transaction stays unless a later one of the slice has its slot. */
  lemma {:induction false} AcceptedStays(g: Gate, local: bool, txs: seq<Tx>, rs: seq<Outcome>, turns: seq<Books>,
                                         i: nat, k: nat)
    requires Turns(g, local, txs, rs, turns) && i < k <= |rs| && |turns[0].all| + |txs| <= g.capacity
    requires rs[i].Accepted? && forall j :: i < j < k ==> !SameSlot(txs[i], txs[j])
    ensures txs[i] in turns[k].all
  {
    GrowsByOne(g, local, txs, rs, turns, k - 1);
    assert Turn(g, local, turns[k - 1], txs[k - 1], rs[k - 1], turns[k - 1 + 1]);
    WithRoom(g, local, turns[k - 1], txs[k - 1], rs[k - 1], turns[k]);
    if i < k - 1 {
      AcceptedStays(g, local, txs, rs, turns, i, k - 1);
    }
  }

  /** A slot that no winner takes holds what it held at the start. */
  lemma SlotUntouched(all: set<Tx>, wins: set<Tx>, tx: Tx, bump: nat)
    requires forall t :: t in wins ==> !SameSlot(t, tx)
    ensures tx in Overtaken(all, wins) <==> tx in all
    ensures OutbidsHolders(Overtaken(all, wins), tx, bump) <==> OutbidsHolders(all, tx, bump)
  {
    forall t | SameSlot(t, tx)
      ensures t in Overtaken(all, wins) <==> t in all
    {
      assert forall u :: u in wins ==> !SameSlot(u, t);
    }
    assert SameSlot(tx, tx);
  }

  lemma WinnersNext(g: Gate, local: bool, all: set<Tx>, txs: seq<Tx>, k: nat)
    requires k < |txs| && DistinctSlots(txs)
    ensures forall t :: t in Winners(g, local, all, txs[..k]) ==> !SameSlot(t, txs[k])
    ensures Winners(g, local, all, txs[..k + 1]) ==
            Winners(g, local, all, txs[..k]) + (if txs[k] in Winners(g, local, all, txs) then {txs[k]} else {})
  {
    assert txs[..k + 1] == txs[..k] + [txs[k]];
    forall t | t in txs[..k]
      ensures !SameSlot(t, txs[k])
    {
      var i :| 0 <= i < k && txs[i] == t;
    }
  }

  lemma OvertakenMore(all: set<Tx>, wins: set<Tx>, tx: Tx)
    requires forall t :: t in wins ==> !SameSlot(t, tx)
    ensures Overtaken(all, wins + {tx}) == SlotFreed(Overtaken(all, wins), tx) + {tx}
  {
    forall t
      ensures SlotTaken(wins + {tx}, t) <==> SlotTaken(wins, t) || SameSlot(tx, t)
    {
      if SlotTaken(wins, t) {
        var u :| u in wins && SameSlot(u, t);
        assert u in wins + {tx};
      }
      assert tx in wins + {tx};
    }
  }

  /** One turn of a slice with distinct slots: the transaction meets in its slot what was there at the start. */
  lemma OvertakenNext(g: Gate, local: bool, all: set<Tx>, txs: seq<Tx>, k: nat, b: Books, r: Outcome, b': Books)
    requires k < |txs| && DistinctSlots(txs) && b.all == Overtaken(all, Winners(g, local, all, txs[..k]))
    requires Turn(g, local, b, txs[k], r, b') && |b.all| < g.capacity
    ensures b'.all == Overtaken(all, Winners(g, local, all, txs[..k + 1]))
    ensures r.Accepted? <==> txs[k] in Winners(g, local, all, txs)
  {
    var tx, wins := txs[k], Winners(g, local, all, txs[..k]);
    WinnersNext(g, local, all, txs, k);
    SlotUntouched(all, wins, tx, g.bump);
    OvertakenMore(all, wins, tx);
    WithRoom(g, local, b, tx, r, b');
    assert wins + {} == wins;
  }

  lemma {:induction false} TurnsExact(g: Gate, local: bool, txs: seq<Tx>, rs: seq<Outcome>, turns: seq<Books>, k: nat)
    requires Turns(g, local, txs, rs, turns) && k <= |rs| && DistinctSlots(txs)
    requires |turns[0].all| + |txs| <= g.capacity
    ensures turns[k].all == Overtaken(turns[0].all, Winners(g, local, turns[0].all, txs[..k]))
    ensures forall i :: 0 <= i < k ==> (rs[i].Accepted? <==> txs[i] in Winners(g, local, turns[0].all, txs))
  {
    if k > 0 {
      TurnsExact(g, local, txs, rs, turns, k - 1);
      GrowsByOne(g, local, txs, rs, turns, k - 1);
      assert Turn(g, local, turns[k - 1], txs[k - 1], rs[k - 1], turns[k - 1 + 1]);
      OvertakenNext(g, local, turns[0].all, txs, k - 1, turns[k - 1], rs[k - 1], turns[k]);
    }
  }

  /** For distinct slots and a pool with room for all, the index afterwards is exactly the one before with the winners
      in their slots, and exactly the winners are accepted. */
  ghost predicate Exactly(g: Gate, local: bool, b: Books, txs: seq<Tx>, rs: seq<Outcome>, b': Books) {
    forall key {:trigger OpenSubmit(key)} :: OpenSubmit(key) ==>
      |rs| == |txs| && DistinctSlots(txs) && |b.all| + |txs| <= g.capacity ==>
        var wins := Winners(g, local, b.all, txs);
        && b'.all == Overtaken(b.all, wins)
        && forall i :: 0 <= i < |txs| ==> (rs[i].Accepted? <==> txs[i] in wins)
  }

  lemma SubmittedExactly(g: Gate, local: bool, b: Books, txs: seq<Tx>, rs: seq<Outcome>, b': Books)
    requires Submitted(g, local, b, txs, rs, b')
    ensures Exactly(g, local, b, txs, rs, b')
  {
    if |rs| == |txs| && DistinctSlots(txs) && |b.all| + |txs| <= g.capacity {
      assert OpenSubmit(0);
      var turns :| Turns(g, local, txs, rs, turns) && turns[0] == b && turns[|rs|] == b';
      TurnsExact(g, local, txs, rs, turns, |txs|);
      assert txs[..|txs|] == txs;
    }
  }

  /** A slice of remote transactions was put back into the pool. */
  ghost predicate PutBack(g: Gate, b: Books, txs: seq<Tx>, b': Books) {
    exists rs :: |rs| == |txs| && Submitted(g, false, b, txs, rs, b') && Exactly(g, false, b, txs, rs, b')
  }

  /** The index then, for distinct slots and a pool with room. */
  lemma PutBackExactly(g: Gate, b: Books, txs: seq<Tx>, b': Books)
    requires PutBack(g, b, txs, b') && DistinctSlots(txs) && |b.all| + |txs| <= g.capacity
    ensures b'.all == Overtaken(b.all, Winners(g, false, b.all, txs))
  {
    assert OpenSubmit(0);
  }
}
