/** What the pool's two truncations leave: pending lists cut to one common length, and the
    queues of the most recently heard accounts dropped first. */
module Truncation {
  import opened Basics
  import opened Transactions
  import opened BinaryHeap
  import opened Noncer
  import opened PoolState
  import SortedMap

  // Fold keys, as in PoolState.
  predicate OpenCut(key: int) { true }

  predicate OpenLevel(key: int) { true }

  predicate OpenGang(key: int) { true }

  predicate OpenTrim(key: int) { true }

  predicate OpenHeap(key: int) { true }

  predicate OpenHunt(key: int) { true }

  predicate OpenRound(key: int) { true }

  predicate OpenPursuit(key: int) { true }

  predicate OpenOrder(key: int) { true }

  predicate OpenSpared(key: int) { true }

  lemma UnfoldLevels()
    ensures OpenBooks(0) && OpenCut(0) && OpenLevel(0) && OpenGang(0) && OpenTrim(0) && OpenHeap(0) && OpenHunt(0) &&
            OpenRound(0) && OpenPursuit(0) && OpenOrder(0) && OpenSpared(0)
  {
  }

  /** `p'` is `p` with the list of `a` capped at one less (folded like Coherent). */
  ghost predicate Cut(p: Accounts, a: Address, p': Accounts) {
    forall key {:trigger OpenCut(key)} :: OpenCut(key) ==>
      ListOf(p, a) != {} && p' == WithList(p, a, Lowest(ListOf(p, a), |ListOf(p, a)| - 1))
  }

  /** The books after a list lost its highest nonce. */
  lemma CutTop(p: Accounts, q: Accounts, all: set<Tx>, a: Address, kept: set<Tx>, tx: Tx)
    requires Coherent(p, q, all) && |ListOf(p, a)| >= 2 && kept == Lowest(ListOf(p, a), |ListOf(p, a)| - 1) &&
             tx in ListOf(p, a) - kept
    ensures tx in all && tx in p.txs && tx.sender == a && Below(ListOf(p, a), tx.nonce) != {}
    ensures WithList(p, a, kept) == PendingWithout(p, tx) && Cut(p, a, PendingWithout(p, tx))
    ensures Coherent(PendingWithout(p, tx), q, all - {tx})
    ensures |PendingWithout(p, tx).txs| == |p.txs| - 1
  {
    IndexHolds(p, q, all, a);
    var list := ListOf(p, a);
    var top := AllButHighest(list);
    LowestSize(list, |list| - 1);
    assert tx == top;
    CutOne(p, q, all, a, kept, top);
  }

  lemma CutOne(p: Accounts, q: Accounts, all: set<Tx>, a: Address, kept: set<Tx>, top: Tx)
    requires Coherent(p, q, all) && top in ListOf(p, a) && kept <= ListOf(p, a) && ListOf(p, a) - kept == {top}
    ensures top in all && Coherent(WithList(p, a, kept), q, all - {top})
    ensures |WithList(p, a, kept).txs| == |p.txs| - 1
  {
    UnfoldLevels();
    SameList(q, a);
    assert all - {top} == all - (ListOf(p, a) + ListOf(q, a)) + kept + ListOf(q, a);
    Relist(p, q, all, a, kept, ListOf(q, a), all - {top});
    assert WithList(p, a, kept).txs == p.txs - {top};
  }

  lemma SettledRemove(p: Accounts, chain: Table<nat>, nonces: Table<nat>, tx: Tx, v: nat)
    requires AllSettled(p, chain, nonces) && tx in p.txs && Below(ListOf(p, tx.sender), tx.nonce) != {}
    ensures AllSettled(PendingWithout(p, tx), chain, Put(nonces, tx.sender, v))
  {
    var a, list := tx.sender, ListOf(p, tx.sender);
    assert Settled(list, NonceIn(chain, a), Virtual(nonces, chain, a));
    var top: nat :| Spans(list, NonceIn(chain, a), top);
    assert tx in list && Occupied(list, tx.nonce);
    BelowSpans(list, NonceIn(chain, a), top, tx.nonce);
    WithListOf(p, a, Below(list, tx.nonce));
    forall b
      ensures Settled(ListOf(PendingWithout(p, tx), b), NonceIn(chain, b), Virtual(Put(nonces, a, v), chain, b))
    {
      assert Settled(ListOf(p, b), NonceIn(chain, b), Virtual(nonces, chain, b));
    }
  }

  // ---- pending lists cut to a common length ----

  /** The remote accounts with more than `level` pending transactions. */
  ghost function Above(p: Accounts, locals: set<Address>, level: nat): set<Address> {
    set a | a in p.keys && a !in locals && |ListOf(p, a)| > level
  }

  /** The length an account of `done` (one less) or any other is cut to. */
  ghost function Limit(level: nat, done: set<Address>, a: Address): nat {
    if a in done && level > 0 then level - 1 else level
  }

  /** `p` is `p0` with every remote list cut to its `level` lowest nonces, or one less for accounts in `done`. */
  ghost predicate Levelled(p0: Accounts, locals: set<Address>, level: nat, done: set<Address>, p: Accounts) {
    forall key {:trigger OpenLevel(key)} :: OpenLevel(key) ==>
      && OnePerSlot(p0.txs) && NoEmptyList(p0)
      && p.keys == p0.keys
      && p.txs == (set t | t in p0.txs &&
         (t.sender in locals || t in Lowest(ListOf(p0, t.sender), Limit(level, done, t.sender))))
  }

  lemma ListIsOnePerNonce(p: Accounts, a: Address)
    requires OnePerSlot(p.txs)
    ensures OnePerNonce(ListOf(p, a))
  {
    forall x, y | x in ListOf(p, a) && y in ListOf(p, a) && SameNonce(x, y)
      ensures x == y
    {
      assert SameSlot(x, y);
    }
  }

  lemma LevelledList(p0: Accounts, locals: set<Address>, level: nat, done: set<Address>, p: Accounts, a: Address)
    requires level >= 1 && Levelled(p0, locals, level, done, p)
    ensures OnePerNonce(ListOf(p0, a))
    ensures ListOf(p, a) == if a in locals then ListOf(p0, a) else Lowest(ListOf(p0, a), Limit(level, done, a))
    ensures a !in locals && |ListOf(p0, a)| >= Limit(level, done, a) ==> |ListOf(p, a)| == Limit(level, done, a)
    ensures a !in locals && |ListOf(p0, a)| <= Limit(level, done, a) ==> ListOf(p, a) == ListOf(p0, a)
  {
    UnfoldLevels();
    ListIsOnePerNonce(p0, a);
    LowestSize(ListOf(p0, a), Limit(level, done, a));
    if |ListOf(p0, a)| <= Limit(level, done, a) {
      LowestWhole(ListOf(p0, a), Limit(level, done, a));
    }
  }

  lemma LevelStart(p: Accounts, q: Accounts, all: set<Tx>, locals: set<Address>, level: nat)
    requires Coherent(p, q, all) && level >= 1 && level >= |p.txs|
    ensures Levelled(p, locals, level, {}, p)
  {
    UnfoldLevels();
    forall t | t in p.txs
      ensures t in Lowest(ListOf(p, t.sender), level)
    {
      IndexHolds(p, q, all, t.sender);
      SubsetSize(ListOf(p, t.sender), p.txs);
      LowestWhole(ListOf(p, t.sender), level);
      assert t in ListOf(p, t.sender);
    }
  }

  /** One account of a round gives up its highest nonce. */
  lemma LevelStep(p0: Accounts, locals: set<Address>, level: nat, done: set<Address>, p: Accounts, a: Address,
                  p': Accounts)
    requires level >= 2 && Levelled(p0, locals, level, done, p) && a !in locals && a !in done
    requires a in p0.keys && |ListOf(p0, a)| >= level && Cut(p, a, p')
    ensures Levelled(p0, locals, level, done + {a}, p')
  {
    LevelledList(p0, locals, level, done, p, a);
    LowestTwice(ListOf(p0, a), level - 1, level);
    LowestSize(ListOf(p0, a), level - 1);
    LevelOne(p0, locals, level, done, p, a, Lowest(ListOf(p, a), level - 1));
    UnfoldLevels();
  }

  lemma LevelOne(p0: Accounts, locals: set<Address>, level: nat, done: set<Address>, p: Accounts, a: Address,
                 list: set<Tx>)
    requires level >= 1 && Levelled(p0, locals, level, done, p) && a !in locals && a in p0.keys
    requires list == Lowest(ListOf(p0, a), level - 1) && list != {}
    ensures Levelled(p0, locals, level, done + {a}, WithList(p, a, list))
  {
    UnfoldLevels();
    var P := WithList(p, a, list);
    assert P.keys == p0.keys;
    forall t: Tx
      ensures t in P.txs <==>
                t in p0.txs && (t.sender in locals ||
                    t in Lowest(ListOf(p0, t.sender), Limit(level, done + {a}, t.sender)))
    {
      assert t in ListOf(p0, t.sender) <==> t in p0.txs;
      assert t in ListOf(p, t.sender) <==> t in p.txs;
    }
  }

  /** A whole round keeps the level tight. */
  lemma RoundEnds(p0: Accounts, locals: set<Address>, gang: set<Address>, floor: nat, level: nat, p: Accounts,
                  bound: nat)
    requires 1 <= floor <= level && Gang(p0, locals, gang, floor, level + 1) &&
             Levelled(p0, locals, level + 1, gang, p) && |p.txs| + |gang| > bound
    ensures Trimmed(p0, locals, level, p, bound) && Gang(p0, locals, gang, floor, level)
  {
    GangIsAbove(p0, locals, gang, floor, level + 1);
    LevelDone(p0, locals, level + 1, p);
    TrimmedIs(p0, locals, level, p, bound);
  }

  /** After a round over exactly the accounts that were at least `level` long, the level is one lower. */
  lemma LevelDone(p0: Accounts, locals: set<Address>, level: nat, p: Accounts)
    requires level >= 2 && Levelled(p0, locals, level, Above(p0, locals, level - 1), p)
    ensures Levelled(p0, locals, level - 1, {}, p)
  {
    LevelChange(p0, locals, level, Above(p0, locals, level - 1), level - 1, p);
  }

  /** Two levels that cut every list alike. */
  lemma LevelChange(p0: Accounts, locals: set<Address>, level: nat, done: set<Address>, level': nat, p: Accounts)
    requires level >= 1 && level' >= 1 && Levelled(p0, locals, level, done, p)
    requires forall a :: a in p0.keys && a !in locals ==>
               Limit(level, done, a) == level' ||
                   (|ListOf(p0, a)| <= level' && |ListOf(p0, a)| <= Limit(level, done, a))
    ensures Levelled(p0, locals, level', {}, p)
  {
    UnfoldLevels();
    forall t | t in p0.txs && t.sender !in locals
      ensures t in Lowest(ListOf(p0, t.sender), Limit(level, done, t.sender)) <==>
                t in Lowest(ListOf(p0, t.sender), level')
    {
      var a := t.sender;
      assert t in ListOf(p0, a);
      ListIsOnePerNonce(p0, a);
      if Limit(level, done, a) != level' {
        LowestWhole(ListOf(p0, a), Limit(level, done, a));
        LowestWhole(ListOf(p0, a), level');
      }
    }
  }

  /** `gang` are the remote accounts above `floor`, and all of them were at least `level` long. */
  ghost predicate Gang(p0: Accounts, locals: set<Address>, gang: set<Address>, floor: nat, level: nat) {
    forall key {:trigger OpenGang(key)} :: OpenGang(key) ==>
      && floor <= level
      && (forall a :: a in gang ==> a in p0.keys && a !in locals && |ListOf(p0, a)| >= level)
      && (forall a :: a in p0.keys && a !in locals && a !in gang ==> |ListOf(p0, a)| <= floor)
  }

  lemma GangIsAbove(p0: Accounts, locals: set<Address>, gang: set<Address>, floor: nat, level: nat)
    requires Gang(p0, locals, gang, floor, level) && floor < level
    ensures Above(p0, locals, level - 1) == gang && Gang(p0, locals, gang, floor, level - 1)
  {
    UnfoldLevels();
  }

  lemma TrimmedList(p0: Accounts, locals: set<Address>, gang: set<Address>, floor: nat, level: nat, p: Accounts,
                    bound: nat, a: Address)
    requires level >= 1 && Gang(p0, locals, gang, floor, level) && Trimmed(p0, locals, level, p, bound) && a in gang
    ensures |ListOf(p, a)| == level
  {
    UnfoldLevels();
    GangList(p0, locals, gang, floor, level, {}, p, a);
  }

  lemma GangList(p0: Accounts, locals: set<Address>, gang: set<Address>, floor: nat, level: nat, done: set<Address>,
                 p: Accounts, a: Address)
    requires level >= 1 && Gang(p0, locals, gang, floor, level) && Levelled(p0, locals, level, done, p) && a in gang &&
             a !in done
    ensures a !in locals && a in p0.keys && |ListOf(p0, a)| >= level && |ListOf(p, a)| == level
  {
    UnfoldLevels();
    LevelledList(p0, locals, level, done, p, a);
  }

  /** The first account popped has a longest list: nothing is cut at its length. */
  lemma FirstOffender(p0: Accounts, locals: set<Address>, level: nat, p: Accounts, bound: nat, spammers: set<Address>,
                      slots: nat, a: Address)
    requires level >= 1 && slots >= 1 && Trimmed(p0, locals, level, p, bound) && level >= |p0.txs| && |p.txs| > bound
    requires spammers == Above(p0, locals, slots) && a in spammers
    requires forall b :: b in spammers ==> |ListOf(p0, b)| <= |ListOf(p0, a)|
    ensures var n := |ListOf(p0, a)|;
            n > slots && Trimmed(p0, locals, n, p, bound) && Gang(p0, locals, {a}, n, n)
  {
    var n := |ListOf(p0, a)|;
    UnfoldLevels();
    forall b | b in p0.keys && b !in locals
      ensures |ListOf(p0, b)| <= n && |ListOf(p0, b)| <= level
    {
      SubsetSize(ListOf(p0, b), p0.txs);
    }
    LevelChange(p0, locals, level, {}, n, p);
  }

  /** The next account popped sets the threshold for those before it, and has not been cut itself. */
  lemma NextOffender(p0: Accounts, locals: set<Address>, gang: set<Address>, level: nat, p: Accounts, bound: nat,
                     rest: set<Address>, slots: nat, a: Address)
    requires level >= 1 && slots >= 1 && Trimmed(p0, locals, level, p, bound) && Gang(p0, locals, gang, level, level)
    requires gang + rest == Above(p0, locals, slots) && gang !! rest && a in rest
    requires forall b :: b in rest ==> |ListOf(p0, b)| <= |ListOf(p0, a)|
    ensures var n := |ListOf(p, a)|;
            slots < n <= level && Gang(p0, locals, gang, n, level) && Gang(p0, locals, gang + {a}, n, n)
  {
    UnfoldLevels();
    LevelledList(p0, locals, level, {}, p, a);
    forall b | b in p0.keys && b !in locals && b !in gang
      ensures |ListOf(p0, b)| <= |ListOf(p0, a)|
    {
      if b !in rest {
        assert b !in Above(p0, locals, slots);
      }
    }
  }

  lemma LastGang(p0: Accounts, locals: set<Address>, gang: set<Address>, level: nat, slots: nat)
    requires Gang(p0, locals, gang, level, level) && gang == Above(p0, locals, slots) && slots <= level
    ensures Gang(p0, locals, gang, slots, level)
  {
    UnfoldLevels();
  }

  /** What a common level means for each account: locals lose nothing, nobody remote is above it,
      and whoever lost something has exactly that many left, the lowest nonces. */
  lemma LevelledMeans(p0: Accounts, locals: set<Address>, level: nat, p: Accounts, a: Address)
    requires level >= 1 && Levelled(p0, locals, level, {}, p)
    ensures a in locals ==> ListOf(p, a) == ListOf(p0, a)
    ensures a !in locals ==> ListOf(p, a) == Lowest(ListOf(p0, a), level) && |ListOf(p, a)| <= level
    ensures |ListOf(p0, a)| <= level ==> ListOf(p, a) == ListOf(p0, a)
    ensures ListOf(p, a) != ListOf(p0, a) <==> a in Above(p0, locals, level)
    ensures ListOf(p, a) != ListOf(p0, a) ==> |ListOf(p, a)| == level
  {
    LevelledList(p0, locals, level, {}, p, a);
    LowestSize(ListOf(p0, a), level);
    UnfoldLevels();
  }

  /** What truncation to a common level means for one account. */
  ghost predicate Fair(p0: Accounts, locals: set<Address>, level: nat, p: Accounts, a: Address) {
    && (a in locals || |ListOf(p0, a)| <= level ==> ListOf(p, a) == ListOf(p0, a))
    && (a !in locals && |ListOf(p0, a)| > level ==>
         |ListOf(p, a)| == level && ListOf(p, a) == Lowest(ListOf(p0, a), level))
  }

  /** The accounts that lost pending transactions. */
  ghost function CutAccounts(p0: Accounts, p: Accounts): set<Address> {
    set a | a in p0.keys && ListOf(p, a) != ListOf(p0, a)
  }

  lemma LevelledIsFair(p0: Accounts, locals: set<Address>, level: nat, p: Accounts)
    requires level >= 1 && Levelled(p0, locals, level, {}, p)
    ensures p.keys == p0.keys && CutAccounts(p0, p) == Above(p0, locals, level)
    ensures forall a :: Fair(p0, locals, level, p, a)
  {
    UnfoldLevels();
    forall a
      ensures Fair(p0, locals, level, p, a)
      ensures a in CutAccounts(p0, p) <==> a in Above(p0, locals, level)
    {
      LevelledMeans(p0, locals, level, p, a);
    }
  }

  lemma FairIsPart(p0: Accounts, locals: set<Address>, level: nat, p: Accounts)
    requires forall a :: Fair(p0, locals, level, p, a)
    ensures p.txs <= p0.txs
  {
    forall t | t in p.txs
      ensures t in p0.txs
    {
      assert Fair(p0, locals, level, p, t.sender);
      assert t in ListOf(p, t.sender);
    }
  }

  lemma NobodyAbove(p0: Accounts, locals: set<Address>, slots: nat, level: nat, p: Accounts)
    requires level >= 1 && Levelled(p0, locals, level, {}, p)
    ensures level == slots || Above(p0, locals, slots) == {} ==> Above(p, locals, slots) == {}
  {
    UnfoldLevels();
    forall a | a in Above(p, locals, slots) && (level == slots || Above(p0, locals, slots) == {})
      ensures false
    {
      LevelledMeans(p0, locals, level, p, a);
    }
  }

  /** A common level that no lower round was needed for: the lists fit within `bound`, if at all,
      by fewer than the accounts that were cut. */
  ghost predicate Trimmed(p0: Accounts, locals: set<Address>, level: nat, p: Accounts, bound: nat) {
    forall key {:trigger OpenTrim(key)} :: OpenTrim(key) ==>
      Levelled(p0, locals, level, {}, p) && |p.txs| + |Above(p0, locals, level)| > bound
  }

  lemma TrimmedIs(p0: Accounts, locals: set<Address>, level: nat, p: Accounts, bound: nat)
    ensures Trimmed(p0, locals, level, p, bound) <==>
              Levelled(p0, locals, level, {}, p) && |p.txs| + |Above(p0, locals, level)| > bound
  {
    UnfoldLevels();
  }

  // ---- distinct accounts ----

  ghost function Members(s: seq<Address>, k: nat): set<Address>
    requires k <= |s|
  {
    set i | 0 <= i < k :: s[i]
  }

  ghost predicate Distinct(s: seq<Address>) {
    forall i, j :: 0 <= i < j < |s| ==> s[i] != s[j]
  }

  /** `done` are the first k of a round over `gang`. */
  ghost predicate Visited(s: seq<Address>, gang: set<Address>, k: nat, done: set<Address>) {
    forall key {:trigger OpenRound(key)} :: OpenRound(key) ==>
      Distinct(s) && gang == Members(s, |s|) && k <= |s| && done == Members(s, k) && |done| == k
  }

  lemma VisitNone(s: seq<Address>)
    requires Distinct(s)
    ensures Visited(s, Members(s, |s|), 0, {})
  {
    assert Members(s, 0) == {};
  }

  lemma VisitNext(s: seq<Address>, gang: set<Address>, k: nat, done: set<Address>)
    requires Visited(s, gang, k, done) && k < |s|
    ensures s[k] in gang && s[k] !in done && Visited(s, gang, k + 1, done + {s[k]})
  {
    UnfoldLevels();
    assert Members(s, k + 1) == Members(s, k) + {s[k]};
  }

  lemma VisitAll(s: seq<Address>, gang: set<Address>, done: set<Address>)
    requires Visited(s, gang, |s|, done)
    ensures done == gang && |gang| == |s|
  {
    UnfoldLevels();
  }

  lemma OneMoreMember(s: seq<Address>, a: Address)
    requires Distinct(s) && a !in Members(s, |s|)
    ensures Distinct(s + [a]) && Members(s + [a], |s| + 1) == Members(s, |s|) + {a} && (s + [a])[..|s|] == s
  {
    forall i | 0 <= i < |s|
      ensures s[i] != a
    {
      assert s[i] in Members(s, |s|);
    }
    var t := s + [a];
    assert t[|s|] == a;
    assert forall x :: x in Members(s, |s|) ==> x in Members(t, |s| + 1) by {
      forall i | 0 <= i < |s| ensures s[i] in Members(t, |s| + 1) { assert t[i] == s[i]; }
    }
  }

  /** The big transactors, shared out between those already penalized, in order, and the rest. */
  ghost predicate Hunt(p0: Accounts, locals: set<Address>, slots: nat, offenders: seq<Address>, gang: set<Address>,
                       rest: set<Address>) {
    forall key {:trigger OpenHunt(key)} :: OpenHunt(key) ==>
      && Distinct(offenders) && gang == Members(offenders, |offenders|)
      && gang + rest == Above(p0, locals, slots) && gang !! rest
  }

  lemma HuntIs(p0: Accounts, locals: set<Address>, slots: nat, offenders: seq<Address>, gang: set<Address>,
               rest: set<Address>)
    requires Hunt(p0, locals, slots, offenders, gang, rest)
    ensures Distinct(offenders) && gang == Members(offenders, |offenders|)
    ensures gang + rest == Above(p0, locals, slots) && gang !! rest
    ensures offenders == [] <==> gang == {}
  {
    UnfoldLevels();
    if offenders != [] {
      assert offenders[0] in gang;
    }
  }

  lemma HuntStarts(p0: Accounts, locals: set<Address>, slots: nat)
    ensures Hunt(p0, locals, slots, [], {}, Above(p0, locals, slots))
  {
    assert Members([], 0) == {};
  }

  lemma HuntNext(p0: Accounts, locals: set<Address>, slots: nat, offenders: seq<Address>, gang: set<Address>,
                 rest: set<Address>, a: Address)
    requires Hunt(p0, locals, slots, offenders, gang, rest) && a in rest
    ensures Hunt(p0, locals, slots, offenders + [a], gang + {a}, rest - {a})
  {
    HuntIs(p0, locals, slots, offenders, gang, rest);
    OneMoreMember(offenders, a);
    assert (gang + {a}) + (rest - {a}) == gang + rest;
  }

  /** Between two offenders: the lists are levelled, and while the pool does not fit, exactly at the
      length of the last offender. */
  ghost predicate Pursuit(p0: Accounts, locals: set<Address>, slots: nat, bound: nat, p: Accounts, level: nat,
                          offenders: seq<Address>, gang: set<Address>, rest: set<Address>) {
    forall key {:trigger OpenPursuit(key)} :: OpenPursuit(key) ==>
      && 1 <= slots <= level && Trimmed(p0, locals, level, p, bound) && Hunt(p0, locals, slots, offenders, gang, rest)
      && (offenders == [] ==> level >= |p0.txs|)
      && (|p.txs| > bound && offenders != [] ==> Gang(p0, locals, gang, level, level))
  }

  lemma PursuitStarts(p0: Accounts, locals: set<Address>, slots: nat, bound: nat, level: nat)
    requires 1 <= slots <= level && level >= |p0.txs| > bound && Levelled(p0, locals, level, {}, p0)
    ensures Pursuit(p0, locals, slots, bound, p0, level, [], {}, Above(p0, locals, slots))
  {
    TrimmedIs(p0, locals, level, p0, bound);
    HuntStarts(p0, locals, slots);
  }

  lemma PursuitIs(p0: Accounts, locals: set<Address>, slots: nat, bound: nat, p: Accounts, level: nat,
                  offenders: seq<Address>, gang: set<Address>, rest: set<Address>)
    requires Pursuit(p0, locals, slots, bound, p, level, offenders, gang, rest)
    ensures 1 <= slots <= level && Trimmed(p0, locals, level, p, bound) &&
            Hunt(p0, locals, slots, offenders, gang, rest)
    ensures offenders == [] ==> level >= |p0.txs|
    ensures |p.txs| > bound && offenders != [] ==> Gang(p0, locals, gang, level, level)
  {
    UnfoldLevels();
  }

  lemma PursuitNext(p0: Accounts, locals: set<Address>, slots: nat, bound: nat, p: Accounts, level: nat,
                    offenders: seq<Address>, gang: set<Address>, rest: set<Address>, a: Address)
    requires 1 <= slots <= level && Trimmed(p0, locals, level, p, bound) &&
             Hunt(p0, locals, slots, offenders, gang, rest) && a in rest
    requires |p.txs| > bound ==> Gang(p0, locals, gang + {a}, level, level)
    ensures Pursuit(p0, locals, slots, bound, p, level, offenders + [a], gang + {a}, rest - {a})
  {
    HuntNext(p0, locals, slots, offenders, gang, rest, a);
  }

  /** When the heap is empty and the pool still does not fit, all big transactors are offenders. */
  lemma PursuitEnds(p0: Accounts, locals: set<Address>, slots: nat, bound: nat, p: Accounts, level: nat,
                    offenders: seq<Address>, gang: set<Address>, h: seq<Spammer>, rest: set<Address>)
    requires Pursuit(p0, locals, slots, bound, p, level, offenders, gang, rest) && Holds(h, p0, rest)
    ensures 1 <= slots <= level && Trimmed(p0, locals, level, p, bound)
    ensures Distinct(offenders) && gang == Members(offenders, |offenders|)
    ensures h == [] && |p.txs| > bound && offenders != [] ==> Gang(p0, locals, gang, slots, level)
    ensures h == [] && offenders == [] ==> Above(p0, locals, slots) == {}
  {
    PursuitIs(p0, locals, slots, bound, p, level, offenders, gang, rest);
    HuntIs(p0, locals, slots, offenders, gang, rest);
    HeapEmpty(h, p0, rest);
    if h == [] && |p.txs| > bound && offenders != [] {
      assert gang + {} == gang;
      LastGang(p0, locals, gang, level, slots);
    }
  }

  // ---- the heap of big transactors ----

  type Spammer = (Address, int)

  const SpamRank: Spammer -> Rank := (x: Spammer) => (-x.1, 0)

  ghost predicate IsSpamHeap(h: seq<Spammer>) {
    forall key {:trigger OpenHeap(key)} :: OpenHeap(key) ==> IsHeap(h, SpamRank)
  }

  ghost function Entries(p: Accounts, accounts: set<Address>): set<Spammer> {
    set a | a in accounts :: (a, |ListOf(p, a)|)
  }

  /** The heap holds each account once, with its list's length. */
  ghost predicate Holds(h: seq<Spammer>, p: Accounts, accounts: set<Address>) {
    IsSpamHeap(h) && multiset(h) == multiset(Entries(p, accounts))
  }

  lemma NoSpammers(p: Accounts)
    ensures Holds([], p, {})
  {
    assert Entries(p, {}) == {};
  }

  method PushSpammer(h: seq<Spammer>, a: Address, n: nat, ghost p: Accounts, ghost accounts: set<Address>)
    returns (r: seq<Spammer>)
    requires Holds(h, p, accounts) && a !in accounts && n == |ListOf(p, a)|
    ensures Holds(r, p, accounts + {a})
  {
    UnfoldLevels();
    r := Push(h, SpamRank, (a, n));
    assert Entries(p, accounts + {a}) == Entries(p, accounts) + {(a, n)};
    assert (a, n) !in Entries(p, accounts);
  }

  lemma HeapEmpty(h: seq<Spammer>, p: Accounts, accounts: set<Address>)
    requires Holds(h, p, accounts)
    ensures h == [] <==> accounts == {}
  {
    assert |multiset(h)| == |h|;
    if accounts != {} {
      var a :| a in accounts;
      assert (a, |ListOf(p, a)|) in Entries(p, accounts);
      assert (a, |ListOf(p, a)|) in multiset(h);
    } else {
      assert Entries(p, accounts) == {};
    }
  }

  lemma Entry(p: Accounts, accounts: set<Address>, y: Spammer)
    ensures y in Entries(p, accounts) <==> y.0 in accounts && y.1 == |ListOf(p, y.0)|
  {
    if y.0 in accounts && y.1 == |ListOf(p, y.0)| {
      assert y == (y.0, |ListOf(p, y.0)|);
    }
  }

  lemma OneEntryLess(p: Accounts, accounts: set<Address>, x: Spammer)
    requires x in Entries(p, accounts)
    ensures Entries(p, accounts) - {x} == Entries(p, accounts - {x.0})
  {
    forall y
      ensures y in Entries(p, accounts) - {x} <==> y in Entries(p, accounts - {x.0})
    {
      Entry(p, accounts, x);
      Entry(p, accounts, y);
      Entry(p, accounts - {x.0}, y);
    }
  }

  lemma Popped(h: seq<Spammer>, p: Accounts, accounts: set<Address>, x: Spammer, r: seq<Spammer>)
    requires multiset(h) == multiset(Entries(p, accounts)) == multiset(r) + multiset{x}
    ensures x.0 in accounts && x.1 == |ListOf(p, x.0)|
    ensures multiset(r) == multiset(Entries(p, accounts - {x.0}))
  {
    var whole := Entries(p, accounts);
    assert x in multiset(whole);
    Entry(p, accounts, x);
    OneEntryLess(p, accounts, x);
    assert multiset(whole) == multiset(whole - {x}) + multiset{x};
    assert multiset(r) == multiset(whole) - multiset{x} == multiset(whole - {x});
  }

  lemma LongestFirst(h: seq<Spammer>, p: Accounts, accounts: set<Address>, x: Spammer, b: Address)
    requires multiset(h) == multiset(Entries(p, accounts)) && b in accounts
    requires forall y :: y in h ==> Leq(SpamRank(x), SpamRank(y))
    ensures |ListOf(p, b)| <= x.1
  {
    var y := (b, |ListOf(p, b)|);
    assert y in Entries(p, accounts);
    assert y in multiset(h) && y in h;
    assert Leq(SpamRank(x), SpamRank(y));
  }

  /** Pops an account with a longest list. */
  method PopSpammer(h: seq<Spammer>, ghost p: Accounts, ghost accounts: set<Address>)
    returns (a: Address, r: seq<Spammer>)
    requires Holds(h, p, accounts) && |h| > 0
    ensures a in accounts && forall b :: b in accounts ==> |ListOf(p, b)| <= |ListOf(p, a)|
    ensures Holds(r, p, accounts - {a})
  {
    UnfoldLevels();
    var x;
    x, r := Pop(h, SpamRank);
    a := x.0;
    Popped(h, p, accounts, x, r);
    forall b | b in accounts
      ensures |ListOf(p, b)| <= |ListOf(p, a)|
    {
      LongestFirst(h, p, accounts, x, b);
    }
  }

  // ---- the queue, most recently heard accounts first ----

  type Heard = (Address, int)

  const HeardRank: Heard -> Rank := (x: Heard) => (x.1, 0)

  /** The heartbeat of an account; one never heard of has the zero time. */
  function Beat(beats: Table<int>, a: Address): int { Lookup(beats, a, 0) }

  ghost function HeardOf(beats: Table<int>, accounts: set<Address>): set<Heard> {
    set a | a in accounts :: (a, Beat(beats, a))
  }

  lemma HeardEntry(beats: Table<int>, accounts: set<Address>, y: Heard)
    ensures y in HeardOf(beats, accounts) <==> y.0 in accounts && y.1 == Beat(beats, y.0)
  {
    if y.0 in accounts && y.1 == Beat(beats, y.0) {
      assert y == (y.0, Beat(beats, y.0));
    }
  }

  /** `s` lists the accounts once each, by rising heartbeat. */
  ghost predicate Order(s: seq<Heard>, beats: Table<int>, accounts: set<Address>) {
    forall key {:trigger OpenOrder(key)} :: OpenOrder(key) ==>
      && multiset(s) == multiset(HeardOf(beats, accounts))
      && forall i, j :: 0 <= i < j < |s| ==> s[i].1 <= s[j].1
  }

  method SortByHeartbeat(accounts: set<Address>, beats: Table<int>) returns (s: seq<Heard>)
    ensures Order(s, beats, accounts)
  {
    var unsorted: seq<Heard> := [];
    var todo := accounts;
    assert HeardOf(beats, accounts - todo) == {};
    while todo != {}
      invariant todo <= accounts && multiset(unsorted) == multiset(HeardOf(beats, accounts - todo))
      decreases todo
    {
      var a :| a in todo;
      HeardOneMore(beats, accounts - todo, a);
      assert accounts - (todo - {a}) == accounts - todo + {a};
      todo := todo - {a};
      unsorted := unsorted + [(a, Beat(beats, a))];
    }
    assert accounts - {} == accounts;
    s := Sort(unsorted, HeardRank);
    forall i, j | 0 <= i < j < |s|
      ensures s[i].1 <= s[j].1
    {
      assert InOrder(s, HeardRank, i, j);
    }
  }

  lemma HeardOneMore(beats: Table<int>, accounts: set<Address>, a: Address)
    requires a !in accounts
    ensures multiset(HeardOf(beats, accounts + {a})) == multiset(HeardOf(beats, accounts)) + multiset{(a,
            Beat(beats, a))}
  {
    var x := (a, Beat(beats, a));
    forall y
      ensures y in HeardOf(beats, accounts + {a}) <==> y in HeardOf(beats, accounts) + {x}
    {
      HeardEntry(beats, accounts, y);
      HeardEntry(beats, accounts + {a}, y);
    }
    HeardEntry(beats, accounts, x);
    assert HeardOf(beats, accounts + {a}) == HeardOf(beats, accounts) + {x};
  }

  /** The last entry is an account heard of no earlier than the others. */
  lemma LastHeard(s: seq<Heard>, beats: Table<int>, accounts: set<Address>)
    requires Order(s, beats, accounts) && s != []
    ensures s[|s| - 1].0 in accounts && forall b :: b in accounts ==> Beat(beats, b) <= Beat(beats, s[|s| - 1].0)
  {
    UnfoldLevels();
    var x := s[|s| - 1];
    assert x in multiset(s);
    HeardEntry(beats, accounts, x);
    forall b | b in accounts
      ensures Beat(beats, b) <= Beat(beats, x.0)
    {
      HeardEntry(beats, accounts, (b, Beat(beats, b)));
      assert (b, Beat(beats, b)) in multiset(s);
    }
  }

  lemma OrderWithoutLast(s: seq<Heard>, beats: Table<int>, accounts: set<Address>)
    requires Order(s, beats, accounts) && s != [] && s[|s| - 1].0 in accounts
    ensures Order(s[..|s| - 1], beats, accounts - {s[|s| - 1].0})
  {
    UnfoldLevels();
    var x, init := s[|s| - 1], s[..|s| - 1];
    assert s == init + [x];
    assert x in multiset(s);
    HeardEntry(beats, accounts, x);
    HeardOneMore(beats, accounts - {x.0}, x.0);
    assert accounts - {x.0} + {x.0} == accounts;
    assert multiset(init) == multiset(s) - multiset{x};
  }

  lemma NoneHeard(beats: Table<int>, accounts: set<Address>)
    requires Order([], beats, accounts)
    ensures accounts == {}
  {
    UnfoldLevels();
    assert |multiset(HeardOf(beats, accounts))| == 0;
    assert HeardOf(beats, accounts) == {};
    forall a | a in accounts
      ensures false
    {
      HeardEntry(beats, accounts, (a, Beat(beats, a)));
    }
  }

  /** What left the queue is remote, was heard of no earlier than any remote account that kept
      something, and lies above whatever its own account kept. */
  ghost predicate LatestFirst(q0: set<Tx>, q: set<Tx>, locals: set<Address>, beats: Table<int>) {
    && q <= q0
    && (forall t :: t in q0 && t !in q ==> t.sender !in locals)
    && (forall t, u {:trigger Outlives(t, u, beats)} ::
         t in q0 && t !in q && u in q && u.sender !in locals ==> Outlives(t, u, beats))
  }

  ghost predicate Outlives(gone: Tx, kept: Tx, beats: Table<int>) {
    Beat(beats, kept.sender) <= Beat(beats, gone.sender) && (kept.sender == gone.sender ==> kept.nonce < gone.nonce)
  }

  /** While dropping: accounts in `left` are untouched and no later than any that lost something,
      and as long as there is more to drop only they and the locals have anything queued. */
  ghost predicate SparedSoFar(q0: set<Tx>, q: set<Tx>, locals: set<Address>, beats: Table<int>, left: set<Address>,
                              drop: int) {
    forall key {:trigger OpenSpared(key)} :: OpenSpared(key) ==>
      && LatestFirst(q0, q, locals, beats)
      && (forall t ::
           t in q0 && t !in q ==>
               t.sender !in left && forall b :: b in left ==> Beat(beats, b) <= Beat(beats, t.sender))
      && (drop > 0 ==> forall u :: u in q ==> u.sender in locals || u.sender in left)
  }

  /** Every nonce of `low` is below every nonce of `high`. */
  ghost predicate Under(low: set<Tx>, high: set<Tx>) {
    forall key {:trigger OpenOrder(key)} ::
        OpenOrder(key) ==> forall t, u :: t in high && u in low ==> u.nonce < t.nonce
  }

  lemma LowSplit(list: set<Tx>, keep: nat)
    requires OnePerNonce(list) && keep <= |list|
    ensures var low := Lowest(list, keep); var gone := list - low;
            && gone <= list && list - gone == low && |gone| == |list| - keep && (keep == 0 ==> gone == list)
            && Under(low, gone)
  {
    var low := Lowest(list, keep);
    var gone := list - low;
    LowestSize(list, keep);
    assert list == low + gone;
    forall t, u | t in gone && u in low
      ensures u.nonce < t.nonce
    {
      LowerAreKept(list, keep, t, u);
    }
  }

  lemma NothingDropped(p: Accounts, q: Accounts, all: set<Tx>, locals: set<Address>, beats: Table<int>, drop: int)
    requires Coherent(p, q, all)
    ensures SparedSoFar(q.txs, q.txs, locals, beats, q.keys - locals, drop) && LatestFirst(q.txs, q.txs, locals, beats)
  {
    SendersListed(p, q, all);
  }

  lemma SparedAtLast(q0: set<Tx>, q: set<Tx>, locals: set<Address>, beats: Table<int>, left: set<Address>, drop: int)
    requires SparedSoFar(q0, q, locals, beats, left, drop)
    ensures LatestFirst(q0, q, locals, beats) && (drop > 0 && left == {} ==> forall u :: u in q ==> u.sender in locals)
  {
    UnfoldLevels();
  }

  lemma DropSome(q0: set<Tx>, q: set<Tx>, locals: set<Address>, beats: Table<int>, left: set<Address>, a: Address,
                 drop: nat, gone: set<Tx>, low: set<Tx>)
    requires SparedSoFar(q0, q, locals, beats, left, drop) && drop > 0 && a in left && a !in locals
    requires forall b :: b in left ==> Beat(beats, b) <= Beat(beats, a)
    requires gone <= (set t | t in q && t.sender == a) && low == (set t | t in q && t.sender == a) - gone
    requires Under(low, gone)
    requires low == {} || drop <= |gone|
    ensures SparedSoFar(q0, q - gone, locals, beats, left - {a}, drop - |gone|)
  {
    UnfoldLevels();
    forall t, u | t in q0 && t !in q - gone && u in q - gone && u.sender !in locals
      ensures Outlives(t, u, beats)
    {
      assert t in gone || t !in q;
      assert u.sender == a ==> u in low;
    }
    assert forall u :: u in q - gone && u.sender == a ==> u in low;
  }

  /** The last few of a list in nonce order, last first. */
  method LastFew(txs: seq<Tx>, n: nat, ghost list: set<Tx>) returns (last: seq<Tx>)
    requires Enumerates(txs, list) && Ascending(txs) && n <= |txs| == |list|
    ensures Enumerates(last, list - Lowest(list, |list| - n))
  {
    last := [];
    var i := |txs|;
    while i > |txs| - n
      invariant |txs| - n <= i <= |txs| && |last| == |txs| - i
      invariant forall k :: 0 <= k < |last| ==> last[k] == txs[|txs| - 1 - k]
    {
      i := i - 1;
      last := last + [txs[i]];
    }
    PrefixIsLowest(txs, list, i);
    SortedMap.SuffixIsRest(txs, list, i, last, Lowest(list, i));
  }

  lemma LowerAreKept(list: set<Tx>, keep: nat, t: Tx, u: Tx)
    requires t in list && t !in Lowest(list, keep) && u in Lowest(list, keep)
    ensures u.nonce < t.nonce
  {
    if t.nonce <= u.nonce {
      SubsetSize(Below(list, t.nonce), Below(list, u.nonce));
    }
  }
}
