/** The pool's reorg scheduler: requests arriving while a run is active are merged into one
    pending run. Each method is one turn of the scheduler's loop, or an action of the run it
    launched; an execution is any sequence of them. Channels are numbered as they are made. */
module Scheduler {
  import opened Basics

  type Address = nat
  type Head = nat

  datatype Reset = Reset(oldHead: Head, newHead: Head)

  /** A queued transaction event: its slot is overwritten by a later one for the same account and nonce. */
  datatype Event = Event(id: nat, account: Address, nonce: nat)

  /** What a requester asked for, and the channel it was told to wait on. */
  datatype Request = ResetRequest(channel: nat, heads: Reset) | PromoteRequest(channel: nat, accounts: set<Address>)

  /** What a run was launched with. */
  datatype Run = Run(done: nat, reset: Option<Reset>, dirty: Option<set<Address>>, events: set<nat>)

  /** What the reset requests on a channel come to: from the first one's old head to the last one's new head. */
  function MergedReset(requests: seq<Request>, channel: nat): Option<Reset> {
    if requests == [] then None
    else
      var before, last := MergedReset(requests[..|requests| - 1], channel), requests[|requests| - 1];
      if last.channel != channel || last.PromoteRequest? then before
      else if before.None? then Some(last.heads)
      else Some(before.value.(newHead := last.heads.newHead))
  }

  /** What the promotion requests on a channel come to: all their accounts. */
  function MergedDirty(requests: seq<Request>, channel: nat): Option<set<Address>> {
    if requests == [] then None
    else
      var before, last := MergedDirty(requests[..|requests| - 1], channel), requests[|requests| - 1];
      if last.channel != channel || last.ResetRequest? then before
      else if before.None? then Some(last.accounts)
      else Some(before.value + last.accounts)
  }

  /** Every run was launched with exactly what the requests on its channel come to, and so is the pending work. */
  ghost predicate Coalesced(requests: seq<Request>, runs: seq<Run>, reset: Option<Reset>, dirty: Option<set<Address>>) {
    && (forall i :: 0 <= i < |requests| ==> requests[i].channel <= |runs|)
    && (forall c ::
         0 <= c < |runs| ==> runs[c].reset == MergedReset(requests, c) && runs[c].dirty == MergedDirty(requests, c))
    && reset == MergedReset(requests, |runs|) && dirty == MergedDirty(requests, |runs|)
  }

  lemma MergeOneMore(requests: seq<Request>, q: Request, c: nat)
    ensures MergedReset(requests + [q], c) ==
            if q.channel != c || q.PromoteRequest? then MergedReset(requests, c)
            else if MergedReset(requests, c).None? then Some(q.heads)
            else Some(MergedReset(requests, c).value.(newHead := q.heads.newHead))
    ensures MergedDirty(requests + [q], c) ==
            if q.channel != c || q.ResetRequest? then MergedDirty(requests, c)
            else if MergedDirty(requests, c).None? then Some(q.accounts)
            else Some(MergedDirty(requests, c).value + q.accounts)
  {
    assert (requests + [q])[..|requests|] == requests;
  }

  lemma {:induction false} NothingMerged(requests: seq<Request>, c: nat)
    requires forall i :: 0 <= i < |requests| ==> requests[i].channel < c
    ensures MergedReset(requests, c) == None && MergedDirty(requests, c) == None
  {
    if requests != [] {
      NothingMerged(requests[..|requests| - 1], c);
    }
  }

  /** What was asked for is in what the channel's requests come to. */
  ghost predicate Served(requests: seq<Request>, q: Request) {
    match q
    case PromoteRequest(c, accounts) => MergedDirty(requests, c).Some? && accounts <= MergedDirty(requests, c).value
    case ResetRequest(c, heads) => MergedReset(requests, c).Some?
  }

  lemma {:induction false} AllServed(requests: seq<Request>, i: nat)
    requires i < |requests|
    ensures Served(requests, requests[i])
  {
    var n := |requests| - 1;
    if i < n {
      AllServed(requests[..n], i);
    }
  }

  /** The merged reset ends at the last head asked for on its channel. */
  lemma {:induction false} MergedEndsLast(requests: seq<Request>, i: nat)
    requires i < |requests| && requests[i].ResetRequest?
    requires forall j ::
              i < j < |requests| ==> requests[j].channel != requests[i].channel || requests[j].PromoteRequest?
    ensures MergedReset(requests, requests[i].channel).Some? &&
            MergedReset(requests, requests[i].channel).value.newHead == requests[i].heads.newHead
  {
    var n := |requests| - 1;
    if i < n {
      MergedEndsLast(requests[..n], i);
    }
  }

  ghost predicate Waiting(requests: seq<Request>, channel: nat) {
    exists i :: 0 <= i < |requests| && requests[i].channel == channel
  }

  // ---- resets ----

  /** The head changes that were asked for, in order. */
  ghost function Asked(requests: seq<Request>): seq<Reset> {
    if requests == [] then []
    else
      var before, last := Asked(requests[..|requests| - 1]), requests[|requests| - 1];
      if last.ResetRequest? then before + [last.heads] else before
  }

  /** The head changes handed to runs, and the pending one. */
  ghost function Given(runs: seq<Run>, reset: Option<Reset>): seq<Reset> {
    Launched(runs) + if reset.Some? then [reset.value] else []
  }

  ghost function Launched(runs: seq<Run>): seq<Reset> {
    if runs == [] then []
    else
      var before, last := Launched(runs[..|runs| - 1]), runs[|runs| - 1];
      if last.reset.Some? then before + [last.reset.value] else before
  }

  /** Each reset starts where the one before ended. */
  ghost predicate Chained(resets: seq<Reset>) {
    forall i :: 0 <= i < |resets| - 1 ==> resets[i].newHead == resets[i + 1].oldHead
  }

  /** The given resets cover the same ground as those asked for: same start, same end, and unbroken if they were. */
  ghost predicate SameGround(asked: seq<Reset>, given: seq<Reset>) {
    && (asked == [] <==> given == [])
    && (asked != [] ==>
         given[0].oldHead == asked[0].oldHead && given[|given| - 1].newHead == asked[|asked| - 1].newHead)
    && (Chained(asked) ==> Chained(given))
  }

  lemma AskOneMore(requests: seq<Request>, q: Request)
    ensures Asked(requests + [q]) == if q.ResetRequest? then Asked(requests) + [q.heads] else Asked(requests)
  {
    assert (requests + [q])[..|requests|] == requests;
  }

  lemma LaunchKeepsGiven(runs: seq<Run>, run: Run)
    ensures Given(runs + [run], None) == Given(runs, run.reset)
  {
    assert (runs + [run])[..|runs|] == runs;
  }

  /** A new request for a reset extends the pending one, or becomes it. */
  lemma Extend(asked: seq<Reset>, launched: seq<Reset>, reset: Option<Reset>, r: Reset)
    requires SameGround(asked, launched + if reset.Some? then [reset.value] else [])
    ensures SameGround(asked + [r], launched + [if reset.Some? then reset.value.(newHead := r.newHead) else r])
  {
    var given := launched + if reset.Some? then [reset.value] else [];
    var more := launched + [if reset.Some? then reset.value.(newHead := r.newHead) else r];
    if Chained(asked + [r]) {
      forall i | 0 <= i < |asked| - 1
        ensures asked[i].newHead == asked[i + 1].oldHead
      {
        assert (asked + [r])[i].newHead == (asked + [r])[i + 1].oldHead;
      }
      assert Chained(given);
      if asked != [] {
        assert (asked + [r])[|asked| - 1].newHead == (asked + [r])[|asked|].oldHead;
      }
      forall i | 0 <= i < |more| - 1
        ensures more[i].newHead == more[i + 1].oldHead
      {
        if i + 1 < |given| {
          assert given[i].newHead == given[i + 1].oldHead;
        }
      }
    }
  }

  // ---- events ----

  /** Each event is in at most one run, and what is still queued is in none. */
  ghost predicate HandedOnce(runs: seq<Run>, queued: set<nat>, next: nat) {
    && (forall i, j :: 0 <= i < j < |runs| ==> runs[i].events !! runs[j].events)
    && (forall i :: 0 <= i < |runs| ==> runs[i].events !! queued)
    && (forall i, e :: 0 <= i < |runs| && e in runs[i].events ==> e < next)
    && (forall e :: e in queued ==> e < next)
  }

  // ---- the history ----

  /** The runs did what was asked, the resets among them cover the ground asked for, and events went to one run each. */
  ghost predicate Books(runs: seq<Run>, requests: seq<Request>, reset: Option<Reset>, dirty: Option<set<Address>>,
                        queued: set<nat>, next: nat) {
    forall key {:trigger OpenBooks(key)} :: OpenBooks(key) ==>
      && Coalesced(requests, runs, reset, dirty)
      && SameGround(Asked(requests), Given(runs, reset))
      && HandedOnce(runs, queued, next)
  }

  /** Always true; keeps the definition above folded. */
  predicate OpenBooks(key: int) { true }

  lemma BooksAre(runs: seq<Run>, requests: seq<Request>, reset: Option<Reset>, dirty: Option<set<Address>>,
                 queued: set<nat>, next: nat)
    requires Books(runs, requests, reset, dirty, queued, next)
    ensures Coalesced(requests, runs, reset, dirty) && SameGround(Asked(requests), Given(runs, reset)) &&
            HandedOnce(runs, queued, next)
  {
    assert OpenBooks(0);
  }

  lemma BooksLaunch(runs: seq<Run>, requests: seq<Request>, reset: Option<Reset>, dirty: Option<set<Address>>,
                    queued: set<nat>, next: nat)
    requires Books(runs, requests, reset, dirty, queued, next)
    ensures Books(runs + [Run(|runs|, reset, dirty, queued)], requests, None, None, {}, next) &&
            !Waiting(requests, |runs| + 1)
  {
    BooksAre(runs, requests, reset, dirty, queued, next);
    var run := Run(|runs|, reset, dirty, queued);
    LaunchKeepsGiven(runs, run);
    LaunchCoalesced(requests, runs, reset, dirty, run);
  }

  lemma BooksReset(runs: seq<Run>, requests: seq<Request>, reset: Option<Reset>, dirty: Option<set<Address>>,
                   queued: set<nat>, next: nat, heads: Reset)
    requires Books(runs, requests, reset, dirty, queued, next)
    ensures var reset' := if reset.None? then heads else reset.value.(newHead := heads.newHead);
            Books(runs, requests + [ResetRequest(|runs|, heads)], Some(reset'), dirty, queued, next)
  {
    BooksAre(runs, requests, reset, dirty, queued, next);
    var q := ResetRequest(|runs|, heads);
    AskOneMore(requests, q);
    Extend(Asked(requests), Launched(runs), reset, heads);
    RequestCoalesced(requests, runs, reset, dirty, q);
  }

  lemma BooksPromote(runs: seq<Run>, requests: seq<Request>, reset: Option<Reset>, dirty: Option<set<Address>>,
                     queued: set<nat>, next: nat, accounts: set<Address>)
    requires Books(runs, requests, reset, dirty, queued, next)
    ensures var dirty' := if dirty.None? then accounts else dirty.value + accounts;
            Books(runs, requests + [PromoteRequest(|runs|, accounts)], reset, Some(dirty'), queued, next)
  {
    BooksAre(runs, requests, reset, dirty, queued, next);
    var q := PromoteRequest(|runs|, accounts);
    AskOneMore(requests, q);
    RequestCoalesced(requests, runs, reset, dirty, q);
  }

  lemma BooksEvent(runs: seq<Run>, requests: seq<Request>, reset: Option<Reset>, dirty: Option<set<Address>>,
                   queued: set<nat>, next: nat, queued': set<nat>)
    requires Books(runs, requests, reset, dirty, queued, next) && queued' <= queued + {next}
    ensures Books(runs, requests, reset, dirty, queued', next + 1)
  {
    BooksAre(runs, requests, reset, dirty, queued, next);
  }

  class ReorgLoop {
    var curDone: Option<nat>
    var nextDone: nat
    var launchNextRun: bool
    var reset: Option<Reset>
    var dirtyAccounts: Option<set<Address>>
    var queuedEvents: map<(Address, nat), nat>
    var stopped: bool
    /** Is the launched run still working. */
    var active: bool
    var closed: set<nat>
    /** Everything that happened. */
    ghost var runs: seq<Run>
    ghost var requests: seq<Request>
    var eventCount: nat

    /** The loop's channels against its history: run k closes channel k, only the last run can be active,
        and exactly the channels of finished runs are closed until the loop stops. */
    ghost predicate Channels()
      reads this
    {
      && nextDone == |runs| && (forall k :: 0 <= k < |runs| ==> runs[k].done == k)
      && (curDone.Some? ==> |runs| > 0 && curDone.value == |runs| - 1)
      && (active ==> curDone.Some?)
      && (forall c :: c in closed <==> (0 <= c < |runs| && !(active && c == |runs| - 1)) || (stopped && c == |runs|))
    }

    ghost predicate Valid()
      reads this
    {
      && Channels()
      && Books(runs, requests, reset, dirtyAccounts, queuedEvents.Values, eventCount)
      && (Waiting(requests, nextDone) ==> launchNextRun)
    }

    constructor ()
      ensures Valid() && runs == [] && requests == [] && !stopped
    {
      curDone, nextDone, launchNextRun := None, 0, false;
      reset, dirtyAccounts, queuedEvents := None, None, map[];
      stopped, active, closed := false, false, {};
      runs, requests, eventCount := [], [], 0;
    }

    /** Starts the pending run once none is active. */
    method Launch()
      requires Valid() && !stopped && curDone.None? && launchNextRun
      modifies this
      ensures Valid() && !stopped && active &&
              runs == old(runs) + [Run(old(nextDone), old(reset), old(dirtyAccounts), old(queuedEvents.Values))]
      ensures requests == old(requests) && nextDone !in closed
      ensures curDone == Some(old(nextDone)) && nextDone == old(nextDone) + 1 && closed == old(closed)
      ensures !launchNextRun && reset.None? && dirtyAccounts.None? && queuedEvents == map[]
    {
      BooksLaunch(runs, requests, reset, dirtyAccounts, queuedEvents.Values, eventCount);
      runs := runs + [Run(nextDone, reset, dirtyAccounts, queuedEvents.Values)];
      active := true;
      curDone, nextDone := Some(nextDone), nextDone + 1;
      launchNextRun := false;
      reset, dirtyAccounts := None, None;
      queuedEvents := map[];
      assert queuedEvents.Values == {};
    }

    /** A reset request: extends the pending reset to the new head. */
    method RequestReset(heads: Reset) returns (channel: nat)
      requires Valid() && !stopped
      modifies this
      ensures Valid() && !stopped && channel == nextDone && channel !in closed && runs == old(runs)
      ensures requests == old(requests) + [ResetRequest(channel, heads)]
      ensures reset == Some(if old(reset).None? then heads else Reset(old(reset).value.oldHead, heads.newHead))
      ensures launchNextRun && dirtyAccounts == old(dirtyAccounts) && queuedEvents == old(queuedEvents)
      ensures nextDone == old(nextDone) && curDone == old(curDone) && active == old(active) && closed == old(closed)
    {
      channel := nextDone;
      BooksReset(runs, requests, reset, dirtyAccounts, queuedEvents.Values, eventCount, heads);
      if reset.None? {
        reset := Some(heads);
      } else {
        reset := Some(reset.value.(newHead := heads.newHead));
      }
      launchNextRun := true;
      requests := requests + [ResetRequest(channel, heads)];
    }

    /** A promotion request: merges the accounts into the pending ones. */
    method RequestPromote(accounts: set<Address>) returns (channel: nat)
      requires Valid() && !stopped
      modifies this
      ensures Valid() && !stopped && channel == nextDone && channel !in closed && runs == old(runs)
      ensures requests == old(requests) + [PromoteRequest(channel, accounts)]
      ensures dirtyAccounts == Some(if old(dirtyAccounts).None? then accounts else old(dirtyAccounts).value + accounts)
      ensures launchNextRun && reset == old(reset) && queuedEvents == old(queuedEvents)
      ensures nextDone == old(nextDone) && curDone == old(curDone) && active == old(active) && closed == old(closed)
    {
      channel := nextDone;
      BooksPromote(runs, requests, reset, dirtyAccounts, queuedEvents.Values, eventCount, accounts);
      dirtyAccounts := Some(if dirtyAccounts.None? then accounts else dirtyAccounts.value + accounts);
      launchNextRun := true;
      requests := requests + [PromoteRequest(channel, accounts)];
    }

    /** Queues an event for the next run, without asking for one. */
    method QueueTxEvent(account: Address, nonce: nat)
      requires Valid() && !stopped
      modifies this
      ensures Valid() && !stopped && runs == old(runs) && requests == old(requests)
      ensures queuedEvents == old(queuedEvents)[(account, nonce) := old(eventCount)]
      ensures launchNextRun == old(launchNextRun) && reset == old(reset) && dirtyAccounts == old(dirtyAccounts)
      ensures nextDone == old(nextDone) && curDone == old(curDone) && active == old(active) && closed == old(closed)
    {
      queuedEvents := queuedEvents[(account, nonce) := eventCount];
      assert queuedEvents.Values <= old(queuedEvents.Values) + {eventCount};
      BooksEvent(runs, requests, reset, dirtyAccounts, old(queuedEvents.Values), eventCount, queuedEvents.Values);
      eventCount := eventCount + 1;
    }

    /** The active run ends and closes its channel. */
    method FinishRun()
      requires Valid() && active
      modifies this`active, this`closed
      ensures Valid() && !active && closed == old(closed) + {|runs| - 1}
    {
      active := false;
      closed := closed + {curDone.value};
    }

    /** The loop notices that the run has ended. */
    method NoticeDone()
      requires Valid() && !stopped && curDone.Some? && curDone.value in closed
      modifies this`curDone
      ensures Valid() && curDone.None?
    {
      curDone := None;
    }

    /** Shutdown: waits for the active run, then releases whoever is still waiting. */
    method Shutdown()
      requires Valid() && !stopped && (curDone.Some? ==> curDone.value in closed)
      modifies this`closed, this`stopped
      ensures Valid() && stopped && closed == old(closed) + {nextDone}
    {
      closed := closed + {nextDone};
      stopped := true;
    }

    /** A requester is released only by shutdown or by a finished run, and that run was launched with all that was
        asked for on its channel: this request's accounts, or a reset. */
    lemma ReleasedOnlyWhenServed(i: nat)
      requires Valid() && i < |requests| && requests[i].channel in closed
      ensures var c := requests[i].channel;
              || (stopped && c == nextDone)
              || (c < |runs| && runs[c].done == c && (active ==> c < |runs| - 1) && Served(requests, requests[i])
                  && runs[c].reset == MergedReset(requests, c) && runs[c].dirty == MergedDirty(requests, c))
    {
      BooksAre(runs, requests, reset, dirtyAccounts, queuedEvents.Values, eventCount);
      AllServed(requests, i);
    }

    /** At most one run is unfinished, and it is the latest. */
    lemma OneRunAtATime(j: nat, k: nat)
      requires Valid() && j < |runs| && k < |runs| && runs[j].done !in closed && runs[k].done !in closed
      ensures j == k == |runs| - 1 && active
    {
    }

    /** Head changes that follow one another reach the runs as resets that follow one another. */
    lemma ResetsFollow()
      requires Valid() && Chained(Asked(requests))
      ensures Chained(Launched(runs)) && Chained(Given(runs, reset))
    {
      BooksAre(runs, requests, reset, dirtyAccounts, queuedEvents.Values, eventCount);
      var given, launched := Given(runs, reset), Launched(runs);
      forall i | 0 <= i < |launched| - 1
        ensures launched[i].newHead == launched[i + 1].oldHead
      {
        assert given[i].newHead == given[i + 1].oldHead;
      }
    }

    /** No event reaches two runs. */
    lemma EventsOnce(j: nat, k: nat, e: nat)
      requires Valid() && j < |runs| && k < |runs| && e in runs[j].events && e in runs[k].events
      ensures j == k
    {
      BooksAre(runs, requests, reset, dirtyAccounts, queuedEvents.Values, eventCount);
    }

    /** Until shutdown everyone still waiting is waiting for the active run, or for a next run that is due and has the
        request. */
    lemma NobodyForgotten(i: nat)
      requires Valid() && !stopped && i < |requests| && requests[i].channel !in closed
      ensures || (active && requests[i].channel == |runs| - 1)
              || (requests[i].channel == nextDone && launchNextRun && Served(requests, requests[i])
                  && reset == MergedReset(requests, nextDone) && dirtyAccounts == MergedDirty(requests, nextDone))
    {
      BooksAre(runs, requests, reset, dirtyAccounts, queuedEvents.Values, eventCount);
      AllServed(requests, i);
      assert Waiting(requests, requests[i].channel);
    }
  }

  lemma LaunchCoalesced(requests: seq<Request>, runs: seq<Run>, reset: Option<Reset>, dirty: Option<set<Address>>,
                        run: Run)
    requires Coalesced(requests, runs, reset, dirty) && run.reset == reset && run.dirty == dirty
    ensures Coalesced(requests, runs + [run], None, None) && !Waiting(requests, |runs| + 1)
  {
    NothingMerged(requests, |runs| + 1);
  }

  lemma RequestCoalesced(requests: seq<Request>, runs: seq<Run>, reset: Option<Reset>, dirty: Option<set<Address>>,
                         q: Request)
    requires Coalesced(requests, runs, reset, dirty) && q.channel == |runs|
    ensures var reset' := if q.PromoteRequest? then reset else if reset.None? then Some(q.heads)
            else Some(reset.value.(newHead := q.heads.newHead));
            var dirty' := if q.ResetRequest? then dirty else if dirty.None? then Some(q.accounts)
                else Some(dirty.value + q.accounts);
            Coalesced(requests + [q], runs, reset', dirty')
  {
    MergeOneMore(requests, q, |runs|);
    forall c | 0 <= c < |runs|
      ensures MergedReset(requests + [q], c) == MergedReset(requests, c) &&
              MergedDirty(requests + [q], c) == MergedDirty(requests, c)
    {
      MergeOneMore(requests, q, c);
    }
  }
}
