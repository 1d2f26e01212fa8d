/** event.Feed: one-to-many delivery. Send works on a prefix of the shared slice of select
    cases, which it swaps and shifts in place while subscribers come and go. */
module Feed {

  type Chan = nat

  /** The case at position 0 receives unsubscriptions; it is no subscriber's channel. */
  const REMOVE_SUB: Chan := 0

  const FIRST_SUB := 1

  function Swapped(s: seq<Chan>, i: nat, j: nat): seq<Chan>
    requires i < |s| && j < |s|
  {
    s[i := s[j]][j := s[i]]
  }

  function Without(s: seq<Chan>, k: nat): seq<Chan>
    requires k < |s|
  {
    s[..k] + s[k + 1..]
  }

  // ---- counting a channel ----

  function One(b: bool): nat { if b then 1 else 0 }

  /** How often a channel is in s[lo..hi]. */
  ghost function Tally(s: seq<Chan>, lo: nat, hi: nat, ch: Chan): nat
    requires lo <= hi <= |s|
  {
    if lo == hi then 0 else Tally(s, lo, hi - 1, ch) + One(s[hi - 1] == ch)
  }

  lemma {:induction false} TallySame(s: seq<Chan>, t: seq<Chan>, lo: nat, hi: nat, ch: Chan)
    requires lo <= hi <= |s| && hi <= |t| && forall k :: lo <= k < hi ==> s[k] == t[k]
    ensures Tally(s, lo, hi, ch) == Tally(t, lo, hi, ch)
  {
    if lo < hi {
      TallySame(s, t, lo, hi - 1, ch);
    }
  }

  lemma {:induction false} TallyUpdate(s: seq<Chan>, lo: nat, hi: nat, ch: Chan, k: nat, x: Chan)
    requires lo <= k < hi <= |s|
    ensures Tally(s[k := x], lo, hi, ch) == Tally(s, lo, hi, ch) - One(s[k] == ch) + One(x == ch)
  {
    if k == hi - 1 {
      TallySame(s, s[k := x], lo, k, ch);
    } else {
      TallyUpdate(s, lo, hi - 1, ch, k, x);
    }
  }

  lemma TallySwap(s: seq<Chan>, lo: nat, hi: nat, ch: Chan, i: nat, j: nat)
    requires lo <= i < hi <= |s| && lo <= j < hi
    ensures Tally(Swapped(s, i, j), lo, hi, ch) == Tally(s, lo, hi, ch)
  {
    TallyUpdate(s, lo, hi, ch, i, s[j]);
    TallyUpdate(s[i := s[j]], lo, hi, ch, j, s[i]);
  }

  lemma {:induction false} TallyWithout(s: seq<Chan>, lo: nat, hi: nat, ch: Chan, k: nat)
    requires lo <= k < hi <= |s|
    ensures Tally(s, lo, hi, ch) == Tally(Without(s, k), lo, hi - 1, ch) + One(s[k] == ch)
  {
    if k == hi - 1 {
      TallySame(s, Without(s, k), lo, k, ch);
    } else {
      TallyWithout(s, lo, hi - 1, ch, k);
      assert Without(s, k)[hi - 2] == s[hi - 1];
    }
  }

  lemma {:induction false} TallyAppend(s: seq<Chan>, more: seq<Chan>, k: nat, lo: nat, ch: Chan)
    requires lo <= |s| && k <= |more|
    ensures Tally(s + more, lo, |s| + k, ch) == Tally(s, lo, |s|, ch) + Tally(more, 0, k, ch)
  {
    if k == 0 {
      TallySame(s, s + more, lo, |s|, ch);
    } else {
      TallyAppend(s, more, k - 1, lo, ch);
    }
  }

  lemma {:induction false} TallyFinds(s: seq<Chan>, lo: nat, hi: nat, ch: Chan)
    requires lo <= hi <= |s|
    ensures Tally(s, lo, hi, ch) > 0 <==> exists k :: lo <= k < hi && s[k] == ch
  {
    if lo < hi {
      TallyFinds(s, lo, hi - 1, ch);
    }
  }

  /** caseList.find: the first position of a channel, or -1. */
  method Find(cases: seq<Chan>, ch: Chan) returns (index: int)
    ensures -1 <= index < |cases|
    ensures index >= 0 ==> cases[index] == ch && ch !in cases[..index]
    ensures index == -1 <==> ch !in cases
  {
    for i := 0 to |cases|
      invariant ch !in cases[..i]
    {
      if cases[i] == ch {
        return i;
      }
    }
    return -1;
  }

  // ---- where subscriptions live ----

  /** How often a channel is in a list. */
  ghost function Count(s: seq<Chan>, ch: Chan): nat { Tally(s, 0, |s|, ch) }

  /** How often a channel is among the first n cases; n = |s| gives all subscribers. */
  ghost function Cases(s: seq<Chan>, n: nat, ch: Chan): nat {
    if FIRST_SUB <= n <= |s| then Tally(s, FIRST_SUB, n, ch) else 0
  }

  /** Every live subscription is in exactly one of inbox and case list, as often as it was made,
      and those waiting to be removed are in the case list. */
  ghost predicate Housed(live: multiset<Chan>, removing: multiset<Chan>, inbox: seq<Chan>, s: seq<Chan>) {
    && |s| >= FIRST_SUB && s[0] == REMOVE_SUB && live[REMOVE_SUB] == 0
    && forall ch: Chan {:trigger Seen(ch)} :: Seen(ch) ==>
         live[ch] == Count(inbox, ch) + Cases(s, |s|, ch) && removing[ch] <= Cases(s, |s|, ch)
  }

  /** Always true: the channels a proof looks at. */
  predicate Seen(ch: Chan) { true }

  lemma HouseSubscribe(live: multiset<Chan>, removing: multiset<Chan>, inbox: seq<Chan>, s: seq<Chan>, ch: Chan)
    requires Housed(live, removing, inbox, s) && ch != REMOVE_SUB
    ensures Housed(live[ch := live[ch] + 1], removing, inbox + [ch], s)
  {
    forall c: Chan
      ensures Count(inbox + [ch], c) == Count(inbox, c) + One(c == ch)
    {
      TallySame(inbox, inbox + [ch], 0, |inbox|, c);
    }
  }

  lemma HouseLeave(live: multiset<Chan>, removing: multiset<Chan>, inbox: seq<Chan>, s: seq<Chan>, k: nat)
    requires Housed(live, removing, inbox, s) && k < |inbox|
    ensures live[inbox[k]] > 0 && Housed(live[inbox[k] := live[inbox[k]] - 1], removing, Without(inbox, k), s)
  {
    assert Seen(inbox[k]);
    forall c: Chan
      ensures Count(inbox, c) == Count(Without(inbox, k), c) + One(inbox[k] == c)
    {
      TallyWithout(inbox, 0, |inbox|, c, k);
    }
  }

  lemma HouseWait(live: multiset<Chan>, removing: multiset<Chan>, inbox: seq<Chan>, s: seq<Chan>, ch: Chan)
    requires Housed(live, removing, inbox, s) && live[ch] > removing[ch] && ch !in inbox
    ensures Housed(live, removing[ch := removing[ch] + 1], inbox, s)
  {
    assert Seen(ch);
    TallyFinds(inbox, 0, |inbox|, ch);
  }

  lemma HouseHas(live: multiset<Chan>, removing: multiset<Chan>, inbox: seq<Chan>, s: seq<Chan>, ch: Chan)
    requires Housed(live, removing, inbox, s) && removing[ch] > 0
    ensures ch in s && ch != REMOVE_SUB && live[ch] > 0
  {
    assert Seen(ch);
    TallyFinds(s, FIRST_SUB, |s|, ch);
  }

  lemma HouseDelete(live: multiset<Chan>, removing: multiset<Chan>, inbox: seq<Chan>, s: seq<Chan>, k: nat)
    requires Housed(live, removing, inbox, s) && FIRST_SUB <= k < |s| && removing[s[k]] > 0
    ensures live[s[k]] > 0 &&
            Housed(live[s[k] := live[s[k]] - 1], removing[s[k] := removing[s[k]] - 1], inbox, Without(s, k))
  {
    assert Seen(s[k]);
    forall c: Chan
      ensures Cases(s, |s|, c) == Cases(Without(s, k), |s| - 1, c) + One(s[k] == c)
    {
      TallyWithout(s, FIRST_SUB, |s|, c, k);
    }
  }

  lemma HouseSwap(live: multiset<Chan>, removing: multiset<Chan>, inbox: seq<Chan>, s: seq<Chan>, n: nat, i: nat)
    requires Housed(live, removing, inbox, s) && FIRST_SUB <= i < n <= |s|
    ensures Housed(live, removing, inbox, Swapped(s, i, n - 1))
  {
    forall c: Chan
      ensures Cases(Swapped(s, i, n - 1), |s|, c) == Cases(s, |s|, c)
    {
      TallySwap(s, FIRST_SUB, |s|, c, i, n - 1);
    }
  }

  lemma HouseMove(live: multiset<Chan>, removing: multiset<Chan>, inbox: seq<Chan>, s: seq<Chan>)
    requires Housed(live, removing, inbox, s)
    ensures Housed(live, removing, [], s + inbox)
  {
    forall c: Chan
      ensures Cases(s + inbox, |s + inbox|, c) == Cases(s, |s|, c) + Count(inbox, c)
    {
      TallyAppend(s, inbox, |inbox|, FIRST_SUB, c);
    }
  }

  // ---- what Send accounts for ----

  /** Everyone subscribed when it started (`start`) was served, was removed unserved, or is still
      active, that is among the first n cases; and everyone the case list lost (`gone`) unsubscribed. */
  ghost predicate Accounted(start: multiset<Chan>, s: seq<Chan>, n: nat, served: seq<Chan>, dropped: seq<Chan>,
                            gone: seq<Chan>) {
    && FIRST_SUB <= n <= |s|
    && forall ch: Chan {:trigger Audited(ch)} :: Audited(ch) ==>
         && start[ch] == Count(served, ch) + Count(dropped, ch) + Cases(s, n, ch)
         && start[ch] == Count(gone, ch) + Cases(s, |s|, ch)
         && Count(dropped, ch) <= Count(gone, ch)
  }

  predicate Audited(ch: Chan) { true }

  lemma CountLog(log: seq<Chan>, x: Chan)
    ensures forall ch :: Count(log + [x], ch) == Count(log, ch) + One(x == ch)
  {
    forall ch
      ensures Count(log + [x], ch) == Count(log, ch) + One(x == ch)
    {
      TallySame(log, log + [x], 0, |log|, ch);
    }
  }

  lemma AccountStart(live: multiset<Chan>, removing: multiset<Chan>, s: seq<Chan>)
    requires Housed(live, removing, [], s)
    ensures Accounted(live, s, |s|, [], [], [])
  {
    assert forall ch: Chan {:trigger Audited(ch)} :: Audited(ch) ==> Seen(ch) && live[ch] == Cases(s, |s|, ch);
  }

  lemma AccountServe(start: multiset<Chan>, s: seq<Chan>, n: nat, served: seq<Chan>, dropped: seq<Chan>,
                     gone: seq<Chan>, i: nat)
    requires Accounted(start, s, n, served, dropped, gone) && FIRST_SUB <= i < n
    ensures Accounted(start, Swapped(s, i, n - 1), n - 1, served + [s[i]], dropped, gone)
  {
    CountLog(served, s[i]);
    forall ch: Chan
      ensures Cases(Swapped(s, i, n - 1), n - 1, ch) == Cases(s, n, ch) - One(s[i] == ch)
      ensures Cases(Swapped(s, i, n - 1), |s|, ch) == Cases(s, |s|, ch)
    {
      TallySwap(s, FIRST_SUB, n, ch, i, n - 1);
      TallySwap(s, FIRST_SUB, |s|, ch, i, n - 1);
    }
  }

  /** An unsubscription shifts the list; it counts as dropped only if its case was still active. */
  lemma AccountRemove(start: multiset<Chan>, s: seq<Chan>, n: nat, served: seq<Chan>, dropped: seq<Chan>,
                      gone: seq<Chan>, k: nat)
    requires Accounted(start, s, n, served, dropped, gone) && FIRST_SUB <= k < |s|
    ensures k < n ==> Accounted(start, Without(s, k), n - 1, served, dropped + [s[k]], gone + [s[k]])
    ensures k >= n ==> Accounted(start, Without(s, k), n, served, dropped, gone + [s[k]])
  {
    CountLog(dropped, s[k]);
    CountLog(gone, s[k]);
    forall ch: Chan
      ensures Cases(s, |s|, ch) == Cases(Without(s, k), |s| - 1, ch) + One(s[k] == ch)
      ensures k < n ==> Cases(s, n, ch) == Cases(Without(s, k), n - 1, ch) + One(s[k] == ch)
      ensures k >= n ==> Cases(s, n, ch) == Cases(Without(s, k), n, ch)
    {
      TallyWithout(s, FIRST_SUB, |s|, ch, k);
      if k < n {
        TallyWithout(s, FIRST_SUB, n, ch, k);
      } else {
        TallySame(s, Without(s, k), FIRST_SUB, n, ch);
      }
    }
  }

  lemma AccountEnd(start: multiset<Chan>, s: seq<Chan>, served: seq<Chan>, dropped: seq<Chan>, gone: seq<Chan>)
    requires Accounted(start, s, FIRST_SUB, served, dropped, gone)
    ensures forall ch: Chan :: start[ch] == Count(served, ch) + Count(dropped, ch)
    ensures forall ch: Chan :: start[ch] == Count(gone, ch) + Cases(s, |s|, ch) && Count(dropped, ch) <= Count(gone, ch)
  {
    forall ch: Chan
      ensures start[ch] == Count(served, ch) + Count(dropped, ch)
      ensures start[ch] == Count(gone, ch) + Cases(s, |s|, ch) && Count(dropped, ch) <= Count(gone, ch)
    {
      assert Audited(ch);
    }
  }

  class Feed {
    var buf: array<Chan>
    var len: nat
    var inbox: seq<Chan>
    /** The subscribers: subscriptions not yet removed, and those whose Unsubscribe waits for the case list. */
    var live: multiset<Chan>
    var removing: multiset<Chan>

    /** sendCases: the slice of the buffer in use. */
    ghost function SendCases(): seq<Chan>
      requires len <= buf.Length
      reads this, buf
    {
      buf[..len]
    }

    ghost predicate Valid()
      reads this, buf
    {
      len <= buf.Length && Housed(live, removing, inbox, SendCases())
    }

    constructor ()
      ensures Valid() && live == removing == multiset{} && fresh(buf)
    {
      var cases := new Chan[1][REMOVE_SUB];
      buf, len, inbox := cases, 1, [];
      live, removing := multiset{}, multiset{};
    }

    method Subscribe(channel: Chan)
      requires Valid() && channel != REMOVE_SUB
      modifies this`inbox, this`live
      ensures Valid() && inbox == old(inbox) + [channel] && live == old(live[channel := live[channel] + 1])
    {
      HouseSubscribe(live, removing, inbox, SendCases(), channel);
      inbox := inbox + [channel];
      live := live[channel := live[channel] + 1];
    }

    /** The first half of remove: a channel still in the inbox goes at once, any other has to wait for
        the case list. The caller owns a subscription that is not being removed already. */
    method RemoveFromInbox(ch: Chan) returns (done: bool)
      requires Valid() && live[ch] > removing[ch]
      modifies this`inbox, this`live, this`removing
      ensures Valid() && done == (ch in old(inbox))
      ensures done ==> live == old(live[ch := live[ch] - 1]) && removing == old(removing)
      ensures !done ==> inbox == old(inbox) && live == old(live) && removing == old(removing[ch := removing[ch] + 1])
    {
      var index := Find(inbox, ch);
      done := index != -1;
      if done {
        HouseLeave(live, removing, inbox, SendCases(), index);
        inbox := Without(inbox, index);
        live := live[ch := live[ch] - 1];
      } else {
        HouseWait(live, removing, inbox, SendCases(), ch);
        removing := removing[ch := removing[ch] + 1];
      }
    }

    /** caseList.delete on sendCases, in place. */
    method Delete(index: nat)
      requires FIRST_SUB <= index < len <= buf.Length
      modifies this`len, buf
      ensures len == old(len) - 1 && len <= buf.Length && SendCases() == Without(old(SendCases()), index)
    {
      ghost var s := buf[..len];
      var k := index;
      while k < len - 1
        invariant len == old(len) && index <= k <= len - 1
        invariant buf[..k] == Without(s, index)[..k] && buf[k + 1..len] == s[k + 1..]
      {
        buf[k] := buf[k + 1];
        assert Without(s, index)[k] == s[k + 1];
        assert buf[..k + 1] == buf[..k] + [s[k + 1]];
        k := k + 1;
      }
      len := len - 1;
    }

    /** caseList.deactivate on the first n cases, in place. */
    method Deactivate(n: nat, index: nat)
      requires index < n <= len <= buf.Length
      modifies buf
      ensures SendCases() == Swapped(old(SendCases()), index, n - 1)
    {
      buf[index], buf[n - 1] := buf[n - 1], buf[index];
    }

    /** The second half of remove. A waiting channel is always found, and leaves the live subscriptions. */
    method RemoveCase(ch: Chan) returns (index: nat)
      requires Valid() && removing[ch] > 0
      modifies this`len, this`live, this`removing, buf
      ensures Valid() && FIRST_SUB <= index < old(len) && old(SendCases())[index] == ch
      ensures len == old(len) - 1 && SendCases() == Without(old(SendCases()), index)
      ensures old(live[ch]) > 0 && live == old(live[ch := live[ch] - 1]) &&
              removing == old(removing[ch := removing[ch] - 1])
    {
      ghost var s := SendCases();
      HouseHas(live, removing, inbox, s, ch);
      index := Find(buf[..len], ch);
      HouseDelete(live, removing, inbox, s, index);
      live, removing := live[ch := live[ch] - 1], removing[ch := removing[ch] - 1];
      Delete(index);
    }

    /** remove, with no Send holding the lock. */
    method RemoveIdle(ch: Chan)
      requires Valid() && live[ch] > removing[ch]
      modifies this`inbox, this`len, this`live, this`removing, buf
      ensures Valid() && live == old(live[ch := live[ch] - 1]) && removing == old(removing)
    {
      var done := RemoveFromInbox(ch);
      if !done {
        var index := RemoveCase(ch);
      }
    }

    /** What other goroutines may do while Send holds the lock: subscribe, unsubscribe from the inbox,
        or start waiting for Send to take their channel out. */
    method Others()
      requires Valid()
      modifies this`inbox, this`live, this`removing
      ensures Valid()
    {
      var script: seq<(bool, Chan)> := *;
      for k := 0 to |script|
        invariant Valid()
      {
        var (join, ch) := script[k];
        if join && ch != REMOVE_SUB {
          Subscribe(ch);
        } else if live[ch] > removing[ch] {
          var done := RemoveFromInbox(ch);
        }
      }
    }

    static method Append(a: array<Chan>, n: nat, more: seq<Chan>) returns (r: array<Chan>)
      requires n <= a.Length
      ensures fresh(r) && r[..] == a[..n] + more
    {
      r := new Chan[n + |more|];
      for i := 0 to n
        invariant r[..i] == a[..i] && a[..n] == old(a[..n])
      {
        r[i] := a[i];
      }
      for i := 0 to |more|
        invariant r[..n + i] == a[..n] + more[..i] && a[..n] == old(a[..n])
      {
        r[n + i] := more[i];
      }
      assert more[..|more|] == more && r[..] == r[..n + |more|];
    }

    /** Adds the inbox to the case list. */
    method TakeInbox()
      requires Valid()
      modifies this`buf, this`len, this`inbox
      ensures Valid() && fresh(buf) && inbox == [] && SendCases() == old(SendCases() + inbox)
    {
      HouseMove(live, removing, inbox, SendCases());
      buf := Append(buf, len, inbox);
      len, inbox := len + |inbox|, [];
      assert buf[..] == SendCases();
    }

    /** A delivery to the i-th of the first n cases, which then leaves the prefix. */
    method Serve(n: nat, i: nat, ghost start: multiset<Chan>, ghost served: seq<Chan>, ghost dropped: seq<Chan>,
                 ghost gone: seq<Chan>)
      returns (m: nat, ghost served': seq<Chan>)
      requires Valid() && FIRST_SUB <= i < n && Accounted(start, SendCases(), n, served, dropped, gone)
      modifies buf
      ensures Valid() && m == n - 1 && Accounted(start, SendCases(), m, served', dropped, gone) &&
              |served'| == |served| + 1
    {
      HouseSwap(live, removing, inbox, SendCases(), n, i);
      AccountServe(start, SendCases(), n, served, dropped, gone, i);
      served' := served + [buf[i]];
      Deactivate(n, i);
      m := n - 1;
    }

    /** An unsubscription received while sending: the prefix shrinks if the case was still active. */
    method Receive(n: nat, ch: Chan, ghost start: multiset<Chan>, ghost served: seq<Chan>, ghost dropped: seq<Chan>,
                   ghost gone: seq<Chan>)
      returns (m: nat, ghost dropped': seq<Chan>, ghost gone': seq<Chan>)
      requires Valid() && removing[ch] > 0 && Accounted(start, SendCases(), n, served, dropped, gone)
      modifies this`len, this`live, this`removing, buf
      ensures Valid() && len == old(len) - 1 && m <= n && Accounted(start, SendCases(), m, served, dropped', gone')
    {
      ghost var s := SendCases();
      var index := RemoveCase(ch);
      AccountRemove(start, s, n, served, dropped, gone, index);
      m, dropped', gone' := n, dropped, gone + [ch];
      if index < n {
        m, dropped' := n - 1, dropped + [ch];
      }
    }

    /** Delivers to everyone subscribed. Which receivers are ready, which case a select takes and what
        other goroutines do in between is arbitrary. Returns the number of deliveries, and who was
        served, who unsubscribed unserved, and who unsubscribed at all. */
    method Send() returns (nsent: nat, ghost served: seq<Chan>, ghost dropped: seq<Chan>, ghost gone: seq<Chan>)
      requires Valid()
      modifies this, buf
      ensures Valid() && fresh(buf) && nsent == |served|
      ensures forall ch: Chan :: old(live)[ch] == Count(served, ch) + Count(dropped, ch)
      ensures forall ch: Chan ::
                old(live)[ch] == Count(gone, ch) + Cases(SendCases(), len, ch) && Count(dropped, ch) <= Count(gone, ch)
    {
      nsent, served, dropped, gone := 0, [], [], [];
      ghost var start := live;
      TakeInbox();
      AccountStart(live, removing, SendCases());
      var n: nat := len;
      while true
        invariant Valid() && fresh(buf) && Accounted(start, SendCases(), n, served, dropped, gone) && nsent == |served|
        decreases n + len
      {
        ghost var n0, len0 := n, len;
        var i := FIRST_SUB;
        while i < n
          invariant Valid() && fresh(buf) && FIRST_SUB <= i <= n <= n0 && len == len0 && nsent == |served|
          invariant Accounted(start, SendCases(), n, served, dropped, gone)
          decreases n - i
        {
          Others();
          var ready: bool := *;
          if ready {
            n, served := Serve(n, i, start, served, dropped, gone);
            nsent := nsent + 1;
          } else {
            i := i + 1;
          }
        }
        if n == FIRST_SUB {
          break;
        }
        Others();
        var interrupted: bool := *;
        if interrupted && |removing| > 0 {
          var ch :| ch in removing;
          n, dropped, gone := Receive(n, ch, start, served, dropped, gone);
        } else {
          var chosen: nat :| FIRST_SUB <= chosen < n;
          n, served := Serve(n, chosen, start, served, dropped, gone);
          nsent := nsent + 1;
        }
      }
      AccountEnd(start, SendCases(), served, dropped, gone);
    }
  }
}
