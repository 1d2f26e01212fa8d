/** What a reorg run with a reset does to an account's two lists, and when it leaves a queued transaction
    executable. After a reset the virtual nonces start again at the chain nonces, so promotion looks for
    queued transactions there and not behind the pending list. */
module ResetRun {
  import opened Basics
  import opened Transactions
  import opened Noncer
  import opened PoolState
  import opened Truncation

  // Always true; they fold the definitions that mention them (see PoolState).
  predicate OpenPromote(key: int) { true }

  predicate OpenPark(key: int) { true }

  predicate OpenShort(key: int) { true }

  // ---- one account ----

  /** A pending list that reaches past the chain nonce and is payable from there on, with a payable queued
      transaction right behind it. */
  ghost predicate Stranded(pa: set<Tx>, qa: set<Tx>, c: nat, v: nat, balance: int, gasLimit: nat) {
    && c < v
    && (forall t :: t in pa && t.nonce >= c ==> Payable(t, balance, gasLimit))
    && Occupied(Eligible(qa, c, balance, gasLimit), v)
  }

  /** With pending transactions from the chain nonce on, promotion from there finds nothing, although a queued
      transaction may continue the pending run. */
  lemma NothingFromBelow(pa: set<Tx>, eligible: set<Tx>, c0: nat, v: nat, c: nat)
    requires Spans(pa, c0, v) && c0 <= c < v && OnePerNonce(pa + eligible) && pa !! eligible
    requires forall t :: t in eligible ==> t.nonce >= c
    ensures forall t :: t in eligible ==> t.nonce >= v
    ensures Ready(eligible, c) == {}
    ensures Ready(eligible, v) == {} <==> !Occupied(eligible, v)
  {
    forall t | t in eligible
      ensures t.nonce >= v
    {
      if t.nonce < v {
        assert Occupied(pa, t.nonce);
        var u :| u in pa && u.nonce == t.nonce;
        assert SameNonce(t, u);
      }
    }
    ReadyEmpty(eligible, c);
    ReadyEmpty(eligible, v);
    if eligible != {} {
      var t :| t in eligible && t.nonce == First(eligible);
      assert Occupied(eligible, v) ==> First(eligible) <= v;
    }
  }

  /** The smallest such case: nonce 0 pending, nonce 1 queued, and a head that changes neither. */
  lemma StrandedHappens(balance: nat, gasLimit: nat)
    ensures var zero := Tx(0, true, 0, 0, 0, 0, [], false, 1);
            var one := Tx(0, true, 1, 0, 0, 0, [], false, 1);
            && Stranded({zero}, {one}, 0, 1, balance, gasLimit)
            && Eligible({one}, 0, balance, gasLimit) == {one}
            && Ready({one}, 0) == {} && Ready({one}, 1) == {one}
  {
    var zero := Tx(0, true, 0, 0, 0, 0, [], false, 1);
    var one := Tx(0, true, 1, 0, 0, 0, [], false, 1);
    assert one in Eligible({one}, 0, balance, gasLimit);
    assert zero in {zero} && one in {one};
    assert Occupied({one}, First({one}));
    assert First({one}) == 1;
    assert Unbroken({one}, 1, 1);
  }

  /** The two lists of an account after promotion from a virtual nonce ... */
  ghost function PromotedPending(pa: set<Tx>, qa: set<Tx>, c: nat, v: nat, balance: int, gasLimit: nat): set<Tx> {
    pa + Ready(Eligible(qa, c, balance, gasLimit), v)
  }

  ghost function PromotedQueue(qa: set<Tx>, c: nat, v: nat, balance: int, gasLimit: nat, local: bool,
                               limit: nat): set<Tx> {
    var eligible := Eligible(qa, c, balance, gasLimit);
    Requeued(eligible - Ready(eligible, v), local, limit)
  }

  /** ... and, with demotion after it, after a run with a reset. */
  ghost predicate Rerun(pa: set<Tx>, qa: set<Tx>, c: nat, balance: int, gasLimit: nat, local: bool, limit: nat,
                        p2: set<Tx>, q2: set<Tx>) {
    var p1 := PromotedPending(pa, qa, c, c, balance, gasLimit);
    var q1 := PromotedQueue(qa, c, c, balance, gasLimit, local, limit);
    p2 == Surviving(p1, c, balance, gasLimit) && q2 == q1 + Postponed(p1, c, balance, gasLimit)
  }

  /** Where the pending list ends after such a run, and that nothing stale is queued and nothing continues the
      pending list except in a stranded account. */
  lemma RerunEnds(pa: set<Tx>, qa: set<Tx>, c0: nat, v: nat, c: nat, balance: int, gasLimit: nat, local: bool,
                  limit: nat, p2: set<Tx>, q2: set<Tx>)
    returns (u: nat)
    requires Spans(pa, c0, v) && c0 <= c && OnePerNonce(pa + qa) && pa !! qa && limit >= 1
    requires Rerun(pa, qa, c, balance, gasLimit, local, limit, p2, q2)
    ensures Spans(p2, c, u) && forall t :: t in q2 ==> t.nonce >= c
    ensures Occupied(q2, u) <==> Stranded(pa, qa, c, v, balance, gasLimit)
    ensures Stranded(pa, qa, c, v, balance, gasLimit) ==> u == v
  {
    var eligible := Eligible(qa, c, balance, gasLimit);
    forall x, y | x in pa + eligible && y in pa + eligible && SameNonce(x, y)
      ensures x == y
    {
    }
    if c < v {
      NothingFromBelow(pa, eligible, c0, v, c);
      assert PromotedPending(pa, qa, c, c, balance, gasLimit) == pa;
      assert eligible - Ready(eligible, c) == eligible;
      u := StaysBehind(pa, eligible, c0, v, c, balance, gasLimit, local, limit, p2, q2);
    } else {
      u := StartsOver(pa, eligible, c0, v, c, balance, gasLimit, local, limit, p2, q2);
    }
  }

  /** The pending list reaches past the chain nonce: it survives up to the first unpayable transaction. */
  lemma StaysBehind(pa: set<Tx>, eligible: set<Tx>, c0: nat, v: nat, c: nat, balance: int, gasLimit: nat, local: bool,
                    limit: nat, p2: set<Tx>, q2: set<Tx>)
    returns (u: nat)
    requires Spans(pa, c0, v) && c0 <= c < v && OnePerNonce(pa) && limit >= 1 && forall t ::
              t in eligible ==> t.nonce >= v
    requires p2 == Surviving(pa, c, balance, gasLimit)
    requires q2 == Requeued(eligible, local, limit) + Postponed(pa, c, balance, gasLimit)
    ensures Spans(p2, c, u) && u <= v && forall t :: t in q2 ==> t.nonce >= c
    ensures u == v <==> forall t :: t in pa && t.nonce >= c ==> Payable(t, balance, gasLimit)
    ensures Occupied(q2, u) <==> u == v && Occupied(eligible, v)
  {
    u := SurvivesTo(pa, c0, v, c, balance, gasLimit);
    var back := Postponed(pa, c, balance, gasLimit);
    if Occupied(q2, u) {
      var t :| t in q2 && t.nonce == u;
      assert t !in back by {
        assert !Occupied(back, u);
      }
      assert t in eligible;
    }
    if u == v && Occupied(eligible, v) {
      LowestKeepsFirst(eligible, v, limit);
      var t :| t in Requeued(eligible, local, limit) && t.nonce == v;
      assert t in q2;
    }
  }

  lemma SurvivesTo(pa: set<Tx>, c0: nat, v: nat, c: nat, balance: int, gasLimit: nat) returns (u: nat)
    requires Spans(pa, c0, v) && c0 <= c < v && OnePerNonce(pa)
    ensures Spans(Surviving(pa, c, balance, gasLimit), c, u) && u <= v
    ensures u == v <==> forall t :: t in pa && t.nonce >= c ==> Payable(t, balance, gasLimit)
    ensures !Occupied(Postponed(pa, c, balance, gasLimit), u)
    ensures forall t :: t in Postponed(pa, c, balance, gasLimit) ==> t.nonce >= c
  {
    var upper := AtLeast(pa, c);
    UpperSpans(pa, c0, v, c);
    u := KeptIsPrefix(upper, c, v, balance, gasLimit);
    NothingBehind(upper, c, u, balance, gasLimit);
    assert Surviving(pa, c, balance, gasLimit) == Kept(upper, true, balance, gasLimit);
    if u < v {
      var bad := TxAt(upper, u);
      assert bad in pa;
      Alone(upper, bad);
    } else {
      forall t | t in upper
        ensures Payable(t, balance, gasLimit)
      {
        assert Occupied(upper, t.nonce);
        assert t in Below(upper, u);
      }
    }
  }

  lemma NothingBehind(upper: set<Tx>, c: nat, u: nat, balance: int, gasLimit: nat)
    requires Spans(Kept(upper, true, balance, gasLimit), c, u)
    ensures BehindGap(Kept(upper, true, balance, gasLimit), c) == {}
  {
    var kept := Kept(upper, true, balance, gasLimit);
    if kept != {} {
      var t :| t in kept;
      assert Occupied(kept, t.nonce);
      assert Occupied(kept, c);
    }
  }

  /** The pending list was overtaken: it is replaced by the run that starts at the chain nonce. */
  lemma StartsOver(pa: set<Tx>, eligible: set<Tx>, c0: nat, v: nat, c: nat, balance: int, gasLimit: nat, local: bool,
                   limit: nat, p2: set<Tx>, q2: set<Tx>)
    returns (u: nat)
    requires Spans(pa, c0, v) && v <= c && OnePerNonce(pa + eligible)
    requires forall t :: t in eligible ==> t.nonce >= c && Payable(t, balance, gasLimit)
    requires p2 == Surviving(pa + Ready(eligible, c), c, balance, gasLimit)
    requires q2 == Requeued(eligible - Ready(eligible, c), local, limit) + Postponed(pa + Ready(eligible, c), c,
             balance, gasLimit)
    ensures Spans(p2, c, u) && !Occupied(q2, u) && forall t :: t in q2 ==> t.nonce >= c
  {
    var ready := Ready(eligible, c);
    forall t | t in pa
      ensures t.nonce < c
    {
      assert Occupied(pa, t.nonce);
    }
    assert AtLeast(pa + ready, c) == ready;
    assert Kept(ready, true, balance, gasLimit) == ready && Invalidated(ready, balance, gasLimit) == {};
    u := c;
    if ready != {} {
      assert First(eligible) == c by {
        var t :| t in eligible && t.nonce == First(eligible);
      }
      u := ReadyIsMaximalRun(eligible, c);
      RunSpans(eligible, c, u);
    } else {
      ReadyEmpty(eligible, c);
    }
    assert Spans(ready, c, u) && BehindGap(ready, c) == {} by {
      assert ready != {} ==> Occupied(ready, c);
    }
    assert p2 == ready && q2 <= eligible - ready;
    assert Occupied(q2, u) ==> Occupied(eligible, u);
  }

  lemma UpperSpans(pa: set<Tx>, c0: nat, v: nat, c: nat)
    requires Spans(pa, c0, v) && c0 <= c <= v
    ensures Spans(AtLeast(pa, c), c, v)
  {
    forall n: nat
      ensures Occupied(AtLeast(pa, c), n) <==> c <= n < v
    {
      assert Occupied(pa, n) <==> c0 <= n < v;
      if c <= n < v {
        var t :| t in pa && t.nonce == n;
        assert t in AtLeast(pa, c);
      }
    }
  }

  lemma LowestKeepsFirst(c: set<Tx>, n: nat, limit: nat)
    requires Occupied(c, n) && limit >= 1 && forall t :: t in c ==> t.nonce >= n
    ensures Occupied(Lowest(c, limit), n)
  {
    var t :| t in c && t.nonce == n;
    assert Below(c, n) == {};
    assert t in Lowest(c, limit);
  }

  // ---- promotion of all accounts ----

  ghost function Among(accounts: seq<Address>): set<Address> {
    set a | a in accounts
  }

  lemma AmongOne(accounts: seq<Address>, i: nat)
    requires i < |accounts|
    ensures Among(accounts[..i + 1]) == Among(accounts[..i]) + {accounts[i]}
  {
    assert accounts[..i + 1] == accounts[..i] + [accounts[i]];
  }

  /** What promotion goes by: the head state, its gas limit, the local accounts and the queue limit of the others. */
  datatype Terms = Terms(state: ChainState, gasLimit: nat, locals: set<Address>, limit: nat)

  /** Every account of `done` has exactly the lists promotion gives it; the others are untouched. */
  ghost predicate AllPromoted(p0: Accounts, q0: Accounts, n0: Table<nat>, w: Terms, p: Accounts, q: Accounts,
                              n: Table<nat>, done: set<Address>) {
    forall key {:trigger OpenPromote(key)} ::
        OpenPromote(key) ==> forall a {:trigger ListOf(p, a)} {:trigger ListOf(q, a)} ::
      var c, v, balance := w.state.Nonce(a), Virtual(n0, w.state.nonces, a), w.state.Balance(a);
      if a in done then
        && ListOf(p, a) == PromotedPending(ListOf(p0, a), ListOf(q0, a), c, v, balance, w.gasLimit)
        && ListOf(q, a) == PromotedQueue(ListOf(q0, a), c, v, balance, w.gasLimit, a in w.locals, w.limit)
      else ListOf(p, a) == ListOf(p0, a) && ListOf(q, a) == ListOf(q0, a) && Virtual(n, w.state.nonces, a) == v
  }

  lemma PromotedNone(p: Accounts, q: Accounts, n: Table<nat>, w: Terms)
    ensures AllPromoted(p, q, n, w, p, q, n, {})
  {
  }

  /** One more account. Promoting an account a second time changes nothing. */
  lemma PromotedOne(p0: Accounts, q0: Accounts, n0: Table<nat>, w: Terms, p: Accounts, q: Accounts, n: Table<nat>,
                    done: set<Address>,
                    a: Address, next: nat)
    requires AllPromoted(p0, q0, n0, w, p, q, n, done) && AllDrained(q, w.state, w.gasLimit, n, w.locals, w.limit, done)
    ensures var c, v, balance := w.state.Nonce(a), Virtual(n, w.state.nonces, a), w.state.Balance(a);
            var pa := PromotedPending(ListOf(p, a), ListOf(q, a), c, v, balance, w.gasLimit);
            var qa := PromotedQueue(ListOf(q, a), c, v, balance, w.gasLimit, a in w.locals, w.limit);
            AllPromoted(p0, q0, n0, w, WithList(p, a, pa), WithList(q, a, qa), Put(n, a, next), done + {a})
  {
    var c, v, balance := w.state.Nonce(a), Virtual(n, w.state.nonces, a), w.state.Balance(a);
    var pa := PromotedPending(ListOf(p, a), ListOf(q, a), c, v, balance, w.gasLimit);
    var qa := PromotedQueue(ListOf(q, a), c, v, balance, w.gasLimit, a in w.locals, w.limit);
    if a in done {
      NothingMore(q, w, n, done, a);
      assert pa == ListOf(p, a);
    }
    assert OpenPromote(0);
    WithListOf(p, a, pa);
    WithListOf(q, a, qa);
    var p', q', n' := WithList(p, a, pa), WithList(q, a, qa), Put(n, a, next);
    forall b | b != a
      ensures ListOf(p', b) == ListOf(p, b) && ListOf(q', b) == ListOf(q, b)
      ensures Virtual(n', w.state.nonces, b) == Virtual(n, w.state.nonces, b)
    {
    }
    assert a !in done ==> ListOf(p, a) == ListOf(p0, a) && ListOf(q, a) == ListOf(q0, a);
    assert ListOf(p', a) == pa && ListOf(q', a) == qa;
  }

  lemma NothingMore(q: Accounts, w: Terms, n: Table<nat>, done: set<Address>, a: Address)
    requires AllDrained(q, w.state, w.gasLimit, n, w.locals, w.limit, done) && a in done
    ensures var c, v, balance := w.state.Nonce(a), Virtual(n, w.state.nonces, a), w.state.Balance(a);
            && Ready(Eligible(ListOf(q, a), c, balance, w.gasLimit), v) == {}
            && PromotedQueue(ListOf(q, a), c, v, balance, w.gasLimit, a in w.locals, w.limit) == ListOf(q, a)
  {
    assert OpenDrain(0);
    var list := ListOf(q, a);
    assert Eligible(list, w.state.Nonce(a), w.state.Balance(a), w.gasLimit) == list;
    assert list - {} == list;
    if a !in w.locals {
      LowestWhole(list, w.limit);
    }
  }

  lemma PromotedNothing(pa: set<Tx>, qa: set<Tx>, c: nat, v: nat, balance: int, gasLimit: nat, local: bool, limit: nat)
    requires qa == {}
    ensures PromotedPending(pa, qa, c, v, balance, gasLimit) == pa
    ensures PromotedQueue(qa, c, v, balance, gasLimit, local, limit) == qa
  {
    assert Eligible(qa, c, balance, gasLimit) == {};
  }

  /** An account without a queue. */
  lemma PromotedAbsent(p0: Accounts, q0: Accounts, n0: Table<nat>, w: Terms, p: Accounts, q: Accounts, n: Table<nat>,
                       done: set<Address>, a: Address)
    requires AllPromoted(p0, q0, n0, w, p, q, n, done) && ListOf(q, a) == {}
    ensures AllPromoted(p0, q0, n0, w, p, q, n, done + {a})
  {
    assert OpenPromote(0);
    forall b
      ensures var c, v, balance := w.state.Nonce(b), Virtual(n0, w.state.nonces, b), w.state.Balance(b);
              if b in done + {a} then
                && ListOf(p, b) == PromotedPending(ListOf(p0, b), ListOf(q0, b), c, v, balance, w.gasLimit)
                && ListOf(q, b) == PromotedQueue(ListOf(q0, b), c, v, balance, w.gasLimit, b in w.locals, w.limit)
              else ListOf(p, b) == ListOf(p0, b) && ListOf(q, b) == ListOf(q0, b) && Virtual(n, w.state.nonces, b) == v
    {
      if b == a && a !in done {
        var c, v, balance := w.state.Nonce(a), Virtual(n0, w.state.nonces, a), w.state.Balance(a);
        assert ListOf(p, a) == ListOf(p0, a) && ListOf(q, a) == ListOf(q0, a);
        PromotedNothing(ListOf(p0, a), ListOf(q0, a), c, v, balance, w.gasLimit, a in w.locals, w.limit);
      }
    }
  }

  // ---- the end of a run with a reset ----

  /** The accounts with a stranded transaction, seen before the run. */
  ghost function StrandedAccounts(p: Accounts, q: Accounts, chain: Table<nat>, nonces: Table<nat>, state: ChainState,
                                  gasLimit: nat): set<Address> {
    set a | a in p.keys && Stranded(ListOf(p, a), ListOf(q, a), state.Nonce(a), Virtual(nonces, chain, a),
                                    state.Balance(a), gasLimit)
  }

  /** Nothing stale is queued, and what continues a pending list is the stranded transaction of a list that still
      ends where it did. With `whole`, every stranded transaction is still there. */
  ghost predicate AllParked(p: Accounts, q: Accounts, chain: Table<nat>, ends: Table<nat>, chain0: Table<nat>,
                            stranded: set<Address>, whole: bool) {
    forall key {:trigger OpenPark(key)} :: OpenPark(key) ==>
      && (forall t :: t in q.txs ==> t.nonce >= NonceIn(chain, t.sender))
      && forall a, u: nat {:trigger Spans(ListOf(p, a), NonceIn(chain, a), u)} ::
           Spans(ListOf(p, a), NonceIn(chain, a), u) ==>
           && (Occupied(ListOf(q, a), u) ==> a in stranded && u == Virtual(ends, chain0, a))
           && (whole && a in stranded ==> Occupied(ListOf(q, a), u))
  }

  lemma SpansEnd(c: set<Tx>, low: nat, u: nat, u': nat)
    requires Spans(c, low, u) && Spans(c, low, u')
    ensures u == u'
  {
    assert Occupied(c, u) <==> low <= u < u';
    assert Occupied(c, u') <==> low <= u' < u;
  }

  /** Promotion and demotion of a gap-free pool after a head that lowered no nonce. */
  lemma ResetParks(p0: Accounts, q0: Accounts, all: set<Tx>, chain0: Table<nat>, n0: Table<nat>, w: Terms,
                   p1: Accounts, q1: Accounts, n1: Table<nat>, done: set<Address>, p2: Accounts, q2: Accounts)
    requires Coherent(p0, q0, all) && Runs(p0, chain0, n0) && Advanced(chain0, w.state.nonces) && w.limit >= 1
    requires AllPromoted(p0, q0, Table(map[]), w, p1, q1, n1, done) && q0.keys <= done
    requires AllDemoted(p1, q1, w.state, w.gasLimit, p2, q2, {})
    ensures AllParked(p2, q2, w.state.nonces, n0, chain0, StrandedAccounts(p0, q0, chain0, n0, w.state, w.gasLimit),
                      true)
  {
    var stranded := StrandedAccounts(p0, q0, chain0, n0, w.state, w.gasLimit);
    forall a, u: nat | Spans(ListOf(p2, a), w.state.Nonce(a), u)
      ensures Occupied(ListOf(q2, a), u) <==> a in stranded
      ensures a in stranded ==> u == Virtual(n0, chain0, a)
    {
      var end := AccountEnds(p0, q0, all, chain0, n0, w, p1, q1, n1, done, p2, q2, a);
      SpansEnd(ListOf(p2, a), w.state.Nonce(a), u, end);
    }
    forall t | t in q2.txs
      ensures t.nonce >= w.state.Nonce(t.sender)
    {
      var end := AccountEnds(p0, q0, all, chain0, n0, w, p1, q1, n1, done, p2, q2, t.sender);
      assert t in ListOf(q2, t.sender);
    }
  }

  lemma AccountEnds(p0: Accounts, q0: Accounts, all: set<Tx>, chain0: Table<nat>, n0: Table<nat>, w: Terms,
                    p1: Accounts, q1: Accounts, n1: Table<nat>, done: set<Address>, p2: Accounts, q2: Accounts,
                        a: Address)
    returns (u: nat)
    requires Coherent(p0, q0, all) && Runs(p0, chain0, n0) && Advanced(chain0, w.state.nonces) && w.limit >= 1
    requires AllPromoted(p0, q0, Table(map[]), w, p1, q1, n1, done) && q0.keys <= done
    requires AllDemoted(p1, q1, w.state, w.gasLimit, p2, q2, {})
    ensures Spans(ListOf(p2, a), w.state.Nonce(a), u) && forall t :: t in ListOf(q2, a) ==> t.nonce >= w.state.Nonce(a)
    ensures Occupied(ListOf(q2, a), u) <==> a in StrandedAccounts(p0, q0, chain0, n0, w.state, w.gasLimit)
    ensures a in StrandedAccounts(p0, q0, chain0, n0, w.state, w.gasLimit) ==> u == Virtual(n0, chain0, a)
  {
    var pa, qa, c, c0, v := ListOf(p0, a), ListOf(q0, a), w.state.Nonce(a), NonceIn(chain0, a), Virtual(n0, chain0, a);
    var balance, local := w.state.Balance(a), a in w.locals;
    AccountLists(p0, q0, all, a);
    assert Spans(pa, c0, v);
    assert Rerun(pa, qa, c, balance, w.gasLimit, local, w.limit, ListOf(p2, a), ListOf(q2, a)) by {
      assert OpenDemote(0);
      PromotedLists(p0, q0, w, p1, q1, n1, done, a);
    }
    u := RerunEnds(pa, qa, c0, v, c, balance, w.gasLimit, local, w.limit, ListOf(p2, a), ListOf(q2, a));
    if Stranded(pa, qa, c, v, balance, w.gasLimit) {
      assert Occupied(pa, c);
    }
  }

  lemma AccountLists(p: Accounts, q: Accounts, all: set<Tx>, a: Address)
    requires Coherent(p, q, all)
    ensures OnePerNonce(ListOf(p, a) + ListOf(q, a)) && ListOf(p, a) !! ListOf(q, a)
    ensures (a in p.keys <==> ListOf(p, a) != {}) && (a in q.keys <==> ListOf(q, a) != {})
  {
    Unfold();
    forall x, y | x in ListOf(p, a) + ListOf(q, a) && y in ListOf(p, a) + ListOf(q, a) && SameNonce(x, y)
      ensures x == y
    {
      assert SameSlot(x, y);
    }
  }

  lemma PromotedLists(p0: Accounts, q0: Accounts, w: Terms, p1: Accounts, q1: Accounts, n1: Table<nat>,
                      done: set<Address>, a: Address)
    requires AllPromoted(p0, q0, Table(map[]), w, p1, q1, n1, done) && (a in done || ListOf(q0, a) == {})
    ensures var c, balance := w.state.Nonce(a), w.state.Balance(a);
            && ListOf(p1, a) == PromotedPending(ListOf(p0, a), ListOf(q0, a), c, c, balance, w.gasLimit)
            && ListOf(q1, a) == PromotedQueue(ListOf(q0, a), c, c, balance, w.gasLimit, a in w.locals, w.limit)
  {
    assert OpenPromote(0);
    if a !in done {
      assert Eligible({}, w.state.Nonce(a), w.state.Balance(a), w.gasLimit) == {};
    }
  }

  /** Cutting pending lists and dropping queued transactions strands nothing new. */
  lemma ParkedStays(p: Accounts, q: Accounts, all: set<Tx>, chain: Table<nat>, nonces: Table<nat>, ends: Table<nat>,
                    chain0: Table<nat>,
                    stranded: set<Address>, p': Accounts, q': Accounts)
    requires Coherent(p, q, all) && AllSettled(p, chain, nonces) && AllParked(p, q, chain, ends, chain0, stranded, true)
    requires p'.txs <= p.txs && q'.txs <= q.txs
    ensures AllParked(p', q', chain, ends, chain0, stranded, false)
  {
    assert OpenPark(0);
    forall a, u': nat | Spans(ListOf(p', a), NonceIn(chain, a), u') && Occupied(ListOf(q', a), u')
      ensures a in stranded && u' == Virtual(ends, chain0, a)
    {
      assert Settled(ListOf(p, a), NonceIn(chain, a), Virtual(nonces, chain, a));
      var u: nat :| Spans(ListOf(p, a), NonceIn(chain, a), u);
      EndOfPart(ListOf(p, a), ListOf(p', a), NonceIn(chain, a), u, u');
      var t :| t in ListOf(q', a) && t.nonce == u';
      NotBelowEnd(p, q, all, a, NonceIn(chain, a), u, t);
    }
  }

  lemma EndOfPart(c: set<Tx>, part: set<Tx>, low: nat, u: nat, u': nat)
    requires Spans(c, low, u) && Spans(part, low, u') && part <= c
    ensures u' <= u
  {
    if u' > u {
      assert Occupied(part, u);
      assert Occupied(c, u);
    }
  }

  lemma NotBelowEnd(p: Accounts, q: Accounts, all: set<Tx>, a: Address, c: nat, u: nat, t: Tx)
    requires Coherent(p, q, all) && Spans(ListOf(p, a), c, u) && t in ListOf(q, a) && t.nonce >= c
    ensures t.nonce >= u
  {
    if t.nonce < u {
      assert Occupied(ListOf(p, a), t.nonce);
      var x :| x in ListOf(p, a) && x.nonce == t.nonce;
      SlotsDisjoint(p, q, all, x, t);
    }
  }

  /** When an account's queue ends idle. */
  lemma IdleExactly(p: Accounts, q: Accounts, all: set<Tx>, chain: Table<nat>, nonces: Table<nat>, ends: Table<nat>,
                    chain0: Table<nat>,
                    stranded: set<Address>, a: Address)
    requires Coherent(p, q, all) && Runs(p, chain, nonces) && AllParked(p, q, chain, ends, chain0, stranded, false)
    ensures var v, v0 := Virtual(nonces, chain, a), Virtual(ends, chain0, a);
            Ready(ListOf(q, a), v) == {} <==> !(a in stranded && v == v0 && Occupied(ListOf(q, a), v))
  {
    assert OpenPark(0);
    var v := Virtual(nonces, chain, a);
    assert Spans(ListOf(p, a), NonceIn(chain, a), v);
    ReadyEmpty(ListOf(q, a), v);
    if ListOf(q, a) != {} {
      var t :| t in ListOf(q, a) && t.nonce == First(ListOf(q, a));
      NotBelowEnd(p, q, all, a, NonceIn(chain, a), v, t);
      assert Occupied(ListOf(q, a), v) ==> First(ListOf(q, a)) <= v;
    }
  }

  /** A stranded account that truncation did not touch is executable. */
  lemma UntouchedIsStranded(p2: Accounts, q2: Accounts, p: Accounts, q: Accounts, chain: Table<nat>,
                            nonces: Table<nat>, ends: Table<nat>, chain0: Table<nat>, stranded: set<Address>,
                                a: Address)
    requires AllParked(p2, q2, chain, ends, chain0, stranded, true) && Runs(p, chain, nonces)
    requires ListOf(p, a) == ListOf(p2, a) && ListOf(q, a) == ListOf(q2, a) && a in stranded
    ensures Virtual(nonces, chain, a) == Virtual(ends, chain0, a)
    ensures Occupied(ListOf(q, a), Virtual(nonces, chain, a))
  {
    assert OpenPark(0);
    assert Spans(ListOf(p, a), NonceIn(chain, a), Virtual(nonces, chain, a));
  }

  // ---- a reset that fails ----

  /** Demotion leaves gap-free lists of payable transactions alone. */
  lemma DemoteNothing(p: Accounts, q: Accounts, all: set<Tx>, nonces: Table<nat>, state: ChainState, gasLimit: nat,
                      p': Accounts, q': Accounts, all': set<Tx>)
    requires Coherent(p, q, all) && Runs(p, state.nonces, nonces) && AllPayable(p, state, gasLimit)
    requires Coherent(p', q', all') && AllDemoted(p, q, state, gasLimit, p', q', {})
    ensures p' == p && q' == q
  {
    forall a
      ensures ListOf(p', a) == ListOf(p, a) && ListOf(q', a) == ListOf(q, a)
    {
      assert OpenDemote(0);
      assert OpenPay(0);
      NothingDemoted(ListOf(p, a), state.Nonce(a), Virtual(nonces, state.nonces, a), state.Balance(a), gasLimit);
    }
    SameLists(p, p');
    SameLists(q, q');
    Unfold();
  }

  lemma NothingDemoted(pa: set<Tx>, c: nat, v: nat, balance: int, gasLimit: nat)
    requires Spans(pa, c, v) && forall t :: t in pa ==> Payable(t, balance, gasLimit)
    ensures Surviving(pa, c, balance, gasLimit) == pa && Postponed(pa, c, balance, gasLimit) == {}
  {
    forall t | t in pa
      ensures c <= t.nonce < v
    {
      assert Occupied(pa, t.nonce);
    }
    assert AtLeast(pa, c) == pa && Kept(pa, true, balance, gasLimit) == pa;
    assert pa != {} ==> Occupied(pa, c);
  }

  lemma SameLists(m: Accounts, m': Accounts)
    requires forall a :: ListOf(m', a) == ListOf(m, a)
    ensures m'.txs == m.txs
  {
    forall t
      ensures t in m'.txs <==> t in m.txs
    {
      assert t in ListOf(m', t.sender) <==> t in ListOf(m, t.sender);
    }
  }

  /** What promotion adds to pending is payable. */
  lemma PromotedPayable(p0: Accounts, q0: Accounts, n0: Table<nat>, w: Terms, p: Accounts, q: Accounts, n: Table<nat>,
                        done: set<Address>)
    requires AllPromoted(p0, q0, n0, w, p, q, n, done) && AllPayable(p0, w.state, w.gasLimit)
    ensures AllPayable(p, w.state, w.gasLimit)
  {
    assert OpenPromote(0);
    assert OpenPay(0);
    forall t | t in p.txs
      ensures Payable(t, w.state.Balance(t.sender), w.gasLimit)
    {
      assert t in ListOf(p, t.sender);
    }
  }

  // ---- what a run guarantees at its end ----

  /** A run without a reset: the requested accounts are idle. */
  lemma IdleAtEnd(q: Accounts, q': Accounts, chain: Table<nat>, nonces: Table<nat>, nonces': Table<nat>,
                  done: set<Address>)
    requires AllIdle(q, chain, nonces, done) && q'.txs <= q.txs && Lowered(chain, nonces, nonces')
    ensures forall a :: a in done ==> Ready(ListOf(q', a), Virtual(nonces', chain, a)) == {}
  {
    IdleStays(q, q', chain, nonces, nonces', done);
    assert OpenDrain(0);
  }

  /** A run whose reset failed: every account is idle. */
  lemma EveryoneIdle(p0: Accounts, q0: Accounts, all: set<Tx>, n0: Table<nat>, w: Terms, p: Accounts, q: Accounts,
                     n: Table<nat>,
                     done: set<Address>, q': Accounts, n': Table<nat>)
    requires Coherent(p0, q0, all) && q0.keys <= done && AllPromoted(p0, q0, n0, w, p, q, n, done)
    requires AllIdle(q, w.state.nonces, n, done) && q'.txs <= q.txs && Lowered(w.state.nonces, n, n')
    ensures forall a :: Ready(ListOf(q', a), Virtual(n', w.state.nonces, a)) == {}
  {
    IdleAtEnd(q, q', w.state.nonces, n, n', done);
    forall a | a !in done
      ensures ListOf(q', a) == {}
    {
      AccountLists(p0, q0, all, a);
      assert OpenPromote(0);
      assert ListOf(q, a) == {};
    }
  }

  /** A run after a head that lowered no nonce: exactly when a queued transaction is left executable. */
  lemma StrandedAtEnd(p0: Accounts, q0: Accounts, all: set<Tx>, chain0: Table<nat>, n0: Table<nat>, w: Terms,
                      p: Accounts, q: Accounts, n: Table<nat>, done: set<Address>, p2: Accounts, q2: Accounts,
                      mid: set<Tx>, p': Accounts, q': Accounts, n': Table<nat>, all': set<Tx>)
    requires Coherent(p0, q0, all) && Runs(p0, chain0, n0) && Advanced(chain0, w.state.nonces) && w.limit >= 1
    requires AllPromoted(p0, q0, Table(map[]), w, p, q, n, done) && q0.keys <= done
    requires AllDemoted(p, q, w.state, w.gasLimit, p2, q2, {}) && Coherent(p2, q2, mid)
    requires AllSettled(p2, w.state.nonces, n)
    requires p'.txs <= p2.txs && q'.txs <= q2.txs && Coherent(p', q', all') && Runs(p', w.state.nonces, n')
    ensures forall a ::
              var v := Virtual(n', w.state.nonces, a);
              Ready(ListOf(q', a), v) != {} <==>
                  a in StrandedAccounts(p0, q0, chain0, n0, w.state, w.gasLimit) &&
                  v == Virtual(n0, chain0, a) && Occupied(ListOf(q', a), v)
    ensures forall a ::
              ListOf(p', a) == ListOf(p2, a) && ListOf(q', a) == ListOf(q2, a) ==>
                  (Ready(ListOf(q', a), Virtual(n', w.state.nonces, a)) != {} <==>
                      a in StrandedAccounts(p0, q0, chain0, n0, w.state, w.gasLimit))
  {
    var stranded := StrandedAccounts(p0, q0, chain0, n0, w.state, w.gasLimit);
    ResetParks(p0, q0, all, chain0, n0, w, p, q, n, done, p2, q2);
    ParkedStays(p2, q2, mid, w.state.nonces, n, n0, chain0, stranded, p', q');
    forall a
      ensures var v := Virtual(n', w.state.nonces, a);
              Ready(ListOf(q', a), v) != {} <==>
                  a in stranded && v == Virtual(n0, chain0, a) && Occupied(ListOf(q', a), v)
      ensures ListOf(p', a) == ListOf(p2, a) && ListOf(q', a) == ListOf(q2, a) ==>
                (Ready(ListOf(q', a), Virtual(n', w.state.nonces, a)) != {} <==> a in stranded)
    {
      IdleExactly(p', q', all', w.state.nonces, n', n0, chain0, stranded, a);
      if ListOf(p', a) == ListOf(p2, a) && ListOf(q', a) == ListOf(q2, a) && a in stranded {
        UntouchedIsStranded(p2, q2, p', q', w.state.nonces, n', n0, chain0, stranded, a);
      }
    }
  }

  // ---- what truncation leaves ----

  /** What truncation goes by. */
  datatype Limits = Limits(accountSlots: nat, globalSlots: nat, globalQueue: nat, locals: set<Address>)

  /** Pending lists are cut to a common length, and the queue loses the transactions of the remote accounts heard of
      last; each only as far as the pool is over its limit. */
  ghost predicate Shortened(p: Accounts, q: Accounts, b: Limits, beats: Table<int>, p': Accounts, q': Accounts) {
    forall key {:trigger OpenShort(key)} :: OpenShort(key) ==>
      && p'.txs <= p.txs && q'.txs <= q.txs
      && (exists level: nat :: level >= b.accountSlots && Evenly(p, b.locals, level, p'))
      && (|p.txs| <= b.globalSlots ==> p' == p)
      && (|p.txs| > b.globalSlots ==> |p'.txs| + |CutAccounts(p, p')| > b.globalSlots)
      && LatestFirst(q.txs, q'.txs, b.locals, beats)
      && (|q.txs| <= b.globalQueue ==> q' == q)
      && (|q.txs| > b.globalQueue ==> |q'.txs| >= b.globalQueue)
  }

  ghost predicate Evenly(p: Accounts, locals: set<Address>, level: nat, p': Accounts) {
    forall a :: Fair(p, locals, level, p', a)
  }

  lemma ShortenedIs(p: Accounts, q: Accounts, b: Limits, beats: Table<int>, p': Accounts, q': Accounts, level: nat)
    requires p'.txs <= p.txs && level >= b.accountSlots && (forall a :: Fair(p, b.locals, level, p', a))
    requires (|p.txs| <= b.globalSlots ==> p' == p) && (|q.txs| <= b.globalQueue ==> q' == q)
    requires |p.txs| > b.globalSlots ==> |p'.txs| + |CutAccounts(p, p')| > b.globalSlots
    requires LatestFirst(q.txs, q'.txs, b.locals, beats) && (|q.txs| > b.globalQueue ==> |q'.txs| >= b.globalQueue)
    ensures Shortened(p, q, b, beats, p', q')
  {
    assert Evenly(p, b.locals, level, p');
  }

  lemma ShortenedPart(p: Accounts, q: Accounts, b: Limits, beats: Table<int>, p': Accounts, q': Accounts)
    requires Shortened(p, q, b, beats, p', q')
    ensures p'.txs <= p.txs && q'.txs <= q.txs
  {
    assert OpenShort(0);
  }

  /** Truncation never touches a local account. */
  lemma LocalsUntouched(p: Accounts, q: Accounts, b: Limits, beats: Table<int>, p': Accounts, q': Accounts)
    requires Shortened(p, q, b, beats, p', q')
    ensures forall a :: a in b.locals ==> ListOf(p', a) == ListOf(p, a) && ListOf(q', a) == ListOf(q, a)
  {
    assert OpenShort(0);
    var level: nat :| level >= b.accountSlots && Evenly(p, b.locals, level, p');
    forall a | a in b.locals
      ensures ListOf(p', a) == ListOf(p, a) && ListOf(q', a) == ListOf(q, a)
    {
      assert Fair(p, b.locals, level, p', a);
    }
  }

  /** So small a pool that truncation has nothing to do: for either limit, all transactions fit into it, or no remote
      account could be above what it is guaranteed. */
  ghost predicate Fits(all: set<Tx>, b: Limits) {
    && (|all| <= b.globalSlots || forall a :: a !in b.locals ==> |SentByAny(all, {a})| <= b.accountSlots)
    && (|all| <= b.globalQueue || forall t :: t in all ==> t.sender in b.locals)
  }

  lemma FitsNeedsNoCut(p: Accounts, q: Accounts, mid: set<Tx>, all: set<Tx>, b: Limits, beats: Table<int>, p': Accounts,
                       q': Accounts,
                       all': set<Tx>)
    requires Fits(all, b) && Coherent(p, q, mid) && mid <= all && Coherent(p', q', all') &&
             Shortened(p, q, b, beats, p', q')
    ensures p' == p && q' == q
  {
    FitsInto(p, q, mid, all);
    assert p'.txs == p.txs by {
      PendingUncut(p, q, mid, all, b, beats, p', q');
    }
    assert q'.txs == q.txs by {
      QueueUncut(p, q, mid, all, b, beats, p', q');
    }
    Unfold();
    SameKeys(p, p');
    SameKeys(q, q');
  }

  lemma SameKeys(m: Accounts, m': Accounts)
    requires NoEmptyList(m) && NoEmptyList(m') && m'.txs == m.txs
    ensures m' == m
  {
    forall a
      ensures a in m'.keys <==> a in m.keys
    {
      assert ListOf(m', a) == ListOf(m, a);
    }
  }

  lemma PendingUncut(p: Accounts, q: Accounts, mid: set<Tx>, all: set<Tx>, b: Limits, beats: Table<int>, p': Accounts,
                     q': Accounts)
    requires Fits(all, b) && Coherent(p, q, mid) && mid <= all && Shortened(p, q, b, beats, p', q') && |p.txs| <= |all|
    ensures p'.txs == p.txs
  {
    assert OpenShort(0);
    if |all| > b.globalSlots {
      var level: nat :| level >= b.accountSlots && Evenly(p, b.locals, level, p');
      forall a
        ensures ListOf(p', a) == ListOf(p, a)
      {
        Unfold();
        SubsetSize(ListOf(p, a), SentByAny(all, {a}));
        assert Fair(p, b.locals, level, p', a);
      }
      SameLists(p, p');
    }
  }

  lemma QueueUncut(p: Accounts, q: Accounts, mid: set<Tx>, all: set<Tx>, b: Limits, beats: Table<int>, p': Accounts,
                   q': Accounts)
    requires Fits(all, b) && Coherent(p, q, mid) && mid <= all && Shortened(p, q, b, beats, p', q') && |q.txs| <= |all|
    ensures q'.txs == q.txs
  {
    assert OpenShort(0);
    Unfold();
  }

  /** A run whose reset failed, in a pool of payable transactions. */
  lemma FailedAtEnd(p0: Accounts, q0: Accounts, all: set<Tx>, n0: Table<nat>, w: Terms, p: Accounts, q: Accounts,
                    n: Table<nat>,
                    done: set<Address>, p2: Accounts, q2: Accounts, mid: set<Tx>)
    requires Coherent(p0, q0, all) && q0.keys <= done && AllPromoted(p0, q0, n0, w, p, q, n, done) &&
             AllPayable(p0, w.state, w.gasLimit)
    requires Runs(p, w.state.nonces, n) && (exists all' :: Coherent(p, q, all'))
    requires AllDemoted(p, q, w.state, w.gasLimit, p2, q2, {}) && Coherent(p2, q2, mid)
    ensures p2 == p && q2 == q
  {
    PromotedPayable(p0, q0, n0, w, p, q, n, done);
    var all' :| Coherent(p, q, all');
    DemoteNothing(p, q, all', n, w.state, w.gasLimit, p2, q2, mid);
  }

  /** What demotion leaves pending was pending, is payable, and is not stale. */
  lemma DemotedIsPart(p: Accounts, q: Accounts, state: ChainState, gasLimit: nat, p2: Accounts, q2: Accounts)
    requires AllDemoted(p, q, state, gasLimit, p2, q2, {})
    ensures p2.txs <= p.txs && AllPayable(p2, state, gasLimit)
    ensures forall t :: t in p2.txs ==> t.nonce >= state.Nonce(t.sender)
  {
    assert OpenDemote(0);
    forall t | t in p2.txs
      ensures t in p.txs && Payable(t, state.Balance(t.sender), gasLimit) && t.nonce >= state.Nonce(t.sender)
    {
      assert t in ListOf(p2, t.sender);
      assert t in ListOf(p, t.sender);
    }
  }

  /** Every pending list has a transaction with the chain nonce. Folded: `OpenFront` is always true. */
  ghost predicate Fronted(p: Accounts, chain: Table<nat>) {
    forall key {:trigger OpenFront(key)} :: OpenFront(key) ==>
      forall a {:trigger ListOf(p, a)} :: ListOf(p, a) != {} ==> Occupied(ListOf(p, a), NonceIn(chain, a))
  }

  predicate OpenFront(key: int) { true }

  /** Demotion leaves no list pending behind a gap at its front. */
  lemma DemotedFronted(p: Accounts, q: Accounts, state: ChainState, gasLimit: nat, p2: Accounts, q2: Accounts)
    requires AllDemoted(p, q, state, gasLimit, p2, q2, {})
    ensures Fronted(p2, state.nonces)
  {
    assert OpenDemote(0);
  }

  /** And truncation takes no list its front. */
  lemma ShortenedFronted(p: Accounts, q: Accounts, b: Limits, beats: Table<int>, p': Accounts, q': Accounts,
                         chain: Table<nat>)
    requires Shortened(p, q, b, beats, p', q') && Fronted(p, chain) && b.accountSlots >= 1
    requires forall t :: t in p.txs ==> t.nonce >= NonceIn(chain, t.sender)
    ensures Fronted(p', chain)
  {
    assert OpenShort(0) && OpenFront(0);
    var level: nat :| level >= b.accountSlots && Evenly(p, b.locals, level, p');
    forall a | ListOf(p', a) != {}
      ensures Occupied(ListOf(p', a), NonceIn(chain, a))
    {
      assert Fair(p, b.locals, level, p', a);
      assert ListOf(p', a) <= ListOf(p, a);
      var t :| t in ListOf(p, a) && t.nonce == NonceIn(chain, a);
      assert Below(ListOf(p, a), t.nonce) == {};
    }
  }

  // ---- nothing is lost ----

  /** The transactions that are neither stale nor unpayable. */
  ghost function Living(all: set<Tx>, state: ChainState, gasLimit: nat): set<Tx> {
    set t | t in all && t.nonce >= state.Nonce(t.sender) && Payable(t, state.Balance(t.sender), gasLimit)
  }

  /** Demotion loses of a list only what is stale or unpayable. */
  lemma DemotionKeeps(list: set<Tx>, c: nat, balance: int, gasLimit: nat)
    ensures Surviving(list, c, balance, gasLimit) + Postponed(list, c, balance, gasLimit) ==
            Eligible(list, c, balance, gasLimit)
  {
  }

  /** A queue within its limit loses in promotion only what is stale or unpayable. */
  lemma PromotionKeeps(qa: set<Tx>, c: nat, v: nat, balance: int, gasLimit: nat, local: bool, limit: nat)
    requires local || |qa| <= limit
    ensures var eligible := Eligible(qa, c, balance, gasLimit);
            PromotedQueue(qa, c, v, balance, gasLimit, local, limit) == eligible - Ready(eligible, v)
  {
    var eligible := Eligible(qa, c, balance, gasLimit);
    SubsetSize(eligible - Ready(eligible, v), qa);
    if !local {
      LowestWhole(eligible - Ready(eligible, v), limit);
    }
  }

  lemma Regrouped(stay: set<Tx>, back: set<Tx>, own: set<Tx>, ready: set<Tx>, eligible: set<Tx>)
    requires stay + back == own + ready && ready <= eligible
    ensures stay + ((eligible - ready) + back) == own + eligible
  {
    assert stay + ((eligible - ready) + back) == (stay + back) + (eligible - ready);
  }

  lemma EligibleUnion(pa: set<Tx>, ready: set<Tx>, c: nat, balance: int, gasLimit: nat)
    requires ready == Eligible(ready, c, balance, gasLimit)
    ensures Eligible(pa + ready, c, balance, gasLimit) == Eligible(pa, c, balance, gasLimit) + ready
  {
  }

  /** So do promotion and demotion of an account together, if its queue is within its limit. */
  lemma RerunKeepsList(pa: set<Tx>, qa: set<Tx>, c: nat, v: nat, balance: int, gasLimit: nat, local: bool, limit: nat)
    requires local || |qa| <= limit
    ensures var pb := PromotedPending(pa, qa, c, v, balance, gasLimit);
            var qb := PromotedQueue(qa, c, v, balance, gasLimit, local, limit);
            Surviving(pb, c, balance, gasLimit) + (qb + Postponed(pb, c, balance, gasLimit)) ==
            Eligible(pa, c, balance, gasLimit) + Eligible(qa, c, balance, gasLimit)
  {
    var eligible := Eligible(qa, c, balance, gasLimit);
    var ready := Ready(eligible, v);
    var pb := pa + ready;
    PromotionKeeps(qa, c, v, balance, gasLimit, local, limit);
    DemotionKeeps(pb, c, balance, gasLimit);
    EligibleUnion(pa, ready, c, balance, gasLimit);
    Regrouped(Surviving(pb, c, balance, gasLimit), Postponed(pb, c, balance, gasLimit),
              Eligible(pa, c, balance, gasLimit), ready, eligible);
  }

  /** No remote account has more than its queue may hold. */
  ghost predicate WithinQueues(all: set<Tx>, locals: set<Address>, limit: nat) {
    forall a :: a !in locals ==> |SentByAny(all, {a})| <= limit
  }

  lemma RerunKeepsAccount(p0: Accounts, q0: Accounts, all: set<Tx>, n0: Table<nat>, w: Terms, p: Accounts, q: Accounts,
                          n: Table<nat>, done: set<Address>, p2: Accounts, q2: Accounts, a: Address)
    requires Coherent(p0, q0, all) && q0.keys <= done && WithinQueues(all, w.locals, w.limit)
    requires AllPromoted(p0, q0, n0, w, p, q, n, done) && AllDemoted(p, q, w.state, w.gasLimit, p2, q2, {})
    ensures ListOf(p2, a) + ListOf(q2, a) ==
            Eligible(ListOf(p0, a), w.state.Nonce(a), w.state.Balance(a), w.gasLimit) +
            Eligible(ListOf(q0, a), w.state.Nonce(a), w.state.Balance(a), w.gasLimit)
  {
    var c, v, balance := w.state.Nonce(a), Virtual(n0, w.state.nonces, a), w.state.Balance(a);
    var pa, qa := ListOf(p0, a), ListOf(q0, a);
    assert OpenDemote(0);
    assert ListOf(p, a) == PromotedPending(pa, qa, c, v, balance, w.gasLimit) &&
           ListOf(q, a) == PromotedQueue(qa, c, v, balance, w.gasLimit, a in w.locals, w.limit) by {
      assert OpenPromote(0);
      if a !in done {
        Unfold();
        PromotedNothing(pa, qa, c, v, balance, w.gasLimit, a in w.locals, w.limit);
      }
    }
    if a !in w.locals {
      assert OpenBooks(0);
      SubsetSize(qa, SentByAny(all, {a}));
    }
    RerunKeepsList(pa, qa, c, v, balance, w.gasLimit, a in w.locals, w.limit);
  }

  /** A run with a reset over queues within their limits loses exactly the stale and the unpayable transactions before
      it truncates. */
  lemma RerunKeeps(p0: Accounts, q0: Accounts, all: set<Tx>, n0: Table<nat>, w: Terms, p: Accounts, q: Accounts,
                   n: Table<nat>, done: set<Address>, p2: Accounts, q2: Accounts, mid: set<Tx>)
    requires Coherent(p0, q0, all) && q0.keys <= done && WithinQueues(all, w.locals, w.limit)
    requires AllPromoted(p0, q0, n0, w, p, q, n, done) && AllDemoted(p, q, w.state, w.gasLimit, p2, q2, {})
    requires Coherent(p2, q2, mid)
    ensures mid == Living(all, w.state, w.gasLimit)
  {
    forall t
      ensures t in p2.txs + q2.txs <==> t in Living(p0.txs + q0.txs, w.state, w.gasLimit)
    {
      RerunKeepsAccount(p0, q0, all, n0, w, p, q, n, done, p2, q2, t.sender);
      assert t in p2.txs + q2.txs <==> t in ListOf(p2, t.sender) + ListOf(q2, t.sender);
    }
    assert OpenBooks(0);
  }

  // ---- announcing ----

  /** The events of a run: those queued for it, each replaced by a promoted transaction in its slot. */
  function Merged(events: set<Tx>, promoted: set<Tx>): set<Tx> {
    (set t | t in events && forall u :: u in promoted ==> !SameSlot(u, t)) + promoted
  }

  /** Puts the promoted transactions into the event map. */
  method Announce(events: set<Tx>, promoted: seq<Tx>) returns (announced: set<Tx>)
    requires OnePerSlot(Front(promoted, |promoted|)) && NoneTwice(promoted)
    ensures announced == Merged(events, Front(promoted, |promoted|))
  {
    announced := events;
    for k := 0 to |promoted|
      invariant announced == Merged(events, Front(promoted, k))
    {
      MergeNext(events, promoted, k);
      announced := SlotFreed(announced, promoted[k]) + {promoted[k]};
    }
  }

  lemma MergeNext(events: set<Tx>, promoted: seq<Tx>, k: nat)
    requires k < |promoted| && OnePerSlot(Front(promoted, |promoted|)) && NoneTwice(promoted)
    ensures Merged(events, Front(promoted, k + 1)) == SlotFreed(Merged(events, Front(promoted, k)),
                                                                promoted[k]) + {promoted[k]}
  {
    var front, tx := Front(promoted, k), promoted[k];
    assert Front(promoted, k + 1) == front + {tx};
    forall t | t in front
      ensures !SameSlot(t, tx)
    {
      assert t in Front(promoted, |promoted|) && tx in Front(promoted, |promoted|);
    }
  }

  /** One event per slot, among them every promoted transaction. */
  lemma MergedFacts(events: set<Tx>, promoted: set<Tx>)
    requires OnePerSlot(promoted)
    ensures promoted <= Merged(events, promoted) <= events + promoted
    ensures OnePerSlot(events) ==> OnePerSlot(Merged(events, promoted))
  {
    if OnePerSlot(events) {
      forall x, y | x in Merged(events, promoted) && y in Merged(events, promoted) && SameSlot(x, y)
        ensures x == y
      {
        assert SameSlot(y, x);
      }
    }
  }

  /** What is announced are exactly the queued events and the promoted transactions, which take over the events in their
      slots; everything that became pending was promoted. */
  ghost predicate Announces(events: set<Tx>, p0: Accounts, q0: Accounts, p: Accounts, announced: set<Tx>) {
    forall key {:trigger OpenPark(key)} :: OpenPark(key) ==>
      exists promoted :: promoted <= q0.txs && p.txs - p0.txs <= promoted && announced == Merged(events, promoted)
  }

  lemma AnnouncesPart(events: set<Tx>, p0: Accounts, q0: Accounts, p: Accounts, p': Accounts, announced: set<Tx>)
    requires Announces(events, p0, q0, p, announced) && p'.txs <= p.txs
    ensures Announces(events, p0, q0, p', announced)
  {
    assert OpenPark(0);
    var promoted :| promoted <= q0.txs && p.txs - p0.txs <= promoted && announced == Merged(events, promoted);
    assert p'.txs - p0.txs <= promoted;
  }

  /** The events that a reset has not made stale. */
  function FreshEvents(events: set<Tx>, nonces: Table<nat>, chain: Table<nat>): set<Tx> {
    set t | t in events && t.nonce >= Virtual(nonces, chain, t.sender)
  }

  lemma FitsInto(p: Accounts, q: Accounts, all: set<Tx>, bigger: set<Tx>)
    requires Coherent(p, q, all) && all <= bigger
    ensures |p.txs| <= |bigger| && |q.txs| <= |bigger|
  {
    Unfold();
    SubsetSize(p.txs, bigger);
    SubsetSize(q.txs, bigger);
  }

  /** What a promotion moved was queued, and is nowhere twice. */
  lemma PromotedWereQueued(p0: Accounts, q0: Accounts, n0: Table<nat>, w: Terms, p: Accounts, q: Accounts,
                           n: Table<nat>, done: set<Address>, all: set<Tx>)
    requires AllPromoted(p0, q0, n0, w, p, q, n, done) && Coherent(p, q, all)
    ensures p.txs - p0.txs <= q0.txs && OnePerSlot(p.txs - p0.txs)
    ensures forall t :: t in p.txs - p0.txs ==> t.nonce >= w.state.Nonce(t.sender)
  {
    Unfold();
    assert OpenPromote(0);
    forall t | t in p.txs - p0.txs
      ensures t in q0.txs && t.nonce >= w.state.Nonce(t.sender)
    {
      assert t in ListOf(p, t.sender) && t !in ListOf(p0, t.sender);
    }
  }

  /** The announcement of a run's promoted transactions. */
  method Herald(events: set<Tx>, promoted: seq<Tx>, ghost p0: Accounts, ghost q0: Accounts, ghost n0: Table<nat>,
                ghost w: Terms,
                ghost p: Accounts, ghost q: Accounts, ghost n: Table<nat>, ghost done: set<Address>)
    returns (announced: set<Tx>)
    requires AllPromoted(p0, q0, n0, w, p, q, n, done) && Enumerates(promoted, p.txs - p0.txs) && exists all ::
              Coherent(p, q, all)
    ensures Announces(events, p0, q0, p, announced)
    ensures forall t :: t in announced ==> t in events || t.nonce >= w.state.Nonce(t.sender)
    ensures OnePerSlot(events) ==> OnePerSlot(announced)
  {
    ghost var all :| Coherent(p, q, all);
    PromotedWereQueued(p0, q0, n0, w, p, q, n, done, all);
    FrontOfEnumeration(promoted, p.txs - p0.txs);
    announced := Announce(events, promoted);
    MergedFacts(events, p.txs - p0.txs);
    assert announced == Merged(events, p.txs - p0.txs);
  }

  lemma FrontOfEnumeration(s: seq<Tx>, c: set<Tx>)
    requires Enumerates(s, c)
    ensures Front(s, |s|) == c && NoneTwice(s)
  {
    assert forall t :: t in Front(s, |s|) <==> t in s;
  }
}
