/** CEventQueue: one array that serves as a queue, with a prefix of entries set
    aside while a wait looks past them (the backup region) and a prefix of
    entries that the next tick of the ten second timer throws away (the
    expiring region). Every entry outside the backup region owns one signal on
    the thread semaphore. */
module EventQueue {
  import opened Kernel
  import opened Wrappers

  datatype Event =
    | Key(code: int)
    | Message(isCreateOrOpen: bool)
    | Other(code: int)

  /** The key events of a queue, in order. */
  function KeysOf(q: seq<Event>): (r: seq<Event>)
    ensures |r| <= |q|
  {
    if q == [] then []
    else (if q[0].Key? then [q[0]] else []) + KeysOf(q[1..])
  }

  lemma {:induction false} KeysOfIsKeys(q: seq<Event>)
    ensures OnlyKeys(KeysOf(q))
    ensures KeysOf(q) == q <==> forall i :: 0 <= i < |q| ==> q[i].Key?
  {
    if q != [] {
      KeysOfIsKeys(q[1..]);
      assert q == [q[0]] + q[1..];
    }
  }

  predicate OnlyKeys(q: seq<Event>) {
    forall i :: 0 <= i < |q| ==> q[i].Key?
  }

  /** at lists, in order, the places in q of what r holds: those of the keys. */
  ghost predicate SelectsKeys(q: seq<Event>, r: seq<Event>, at: seq<nat>) {
    && |at| == |r| && (forall k :: 0 <= k < |at| ==> at[k] < |q| && q[at[k]] == r[k])
    && (forall k, l :: 0 <= k < l < |at| ==> at[k] < at[l])
    && (forall i :: 0 <= i < |q| ==> (q[i].Key? <==> i in at))
  }

  ghost function KeyPlaces(q: seq<Event>): (at: seq<nat>) {
    if q == [] then []
    else
      var n := |q| - 1;
      KeyPlaces(q[..n]) + if q[n].Key? then [n] else []
  }

  lemma {:induction false} KeysOfLast(q: seq<Event>, e: Event)
    ensures KeysOf(q + [e]) == KeysOf(q) + if e.Key? then [e] else []
  {
    var last := if e.Key? then [e] else [];
    if q == [] {
      assert q + [e] == [e] && [e][1..] == [];
    } else {
      TailOfConcat(q, [e]);
      KeysOfLast(q[1..], e);
      ConcatAssoc(if q[0].Key? then [q[0]] else [], KeysOf(q[1..]), last);
    }
  }

  lemma {:induction false} SelectsLast(q: seq<Event>, e: Event, r: seq<Event>, at: seq<nat>)
    requires SelectsKeys(q, r, at)
    ensures e.Key? ==> SelectsKeys(q + [e], r + [e], at + [|q|])
    ensures !e.Key? ==> SelectsKeys(q + [e], r, at)
  {
    var q1, at1 := q + [e], at + [|q|];
    assert forall k :: 0 <= k < |at| ==> at[k] < |q| && q1[at[k]] == q[at[k]];
    assert forall k :: k in at ==> k < |q|;
    assert forall k :: k in at1 <==> k in at || k == |q|;
  }

  /** All the keys are there, in order, and nothing else. */
  lemma {:induction false} KeysOfSelects(q: seq<Event>)
    ensures SelectsKeys(q, KeysOf(q), KeyPlaces(q))
  {
    if q != [] {
      var n := |q| - 1;
      assert q == q[..n] + [q[n]];
      KeysOfLast(q[..n], q[n]);
      KeysOfSelects(q[..n]);
      hide SelectsKeys;
      SelectsLast(q[..n], q[n], KeysOf(q[..n]), KeyPlaces(q[..n]));
    }
  }

  function Remove<T>(s: seq<T>, i: nat): (r: seq<T>)
    requires i < |s|
    ensures |r| == |s| - 1
  {
    s[..i] + s[i + 1..]
  }

  /** What is left of `q` once everything from `k` on is purged. */
  ghost function PurgedFrom(q: seq<Event>, k: nat): (r: seq<Event>)
    requires k <= |q|
    ensures |r| >= k
  {
    q[..k] + KeysOf(q[k..])
  }

  lemma {:induction false} PurgeEnds(q: seq<Event>)
    ensures PurgedFrom(q, |q|) == q && PurgedFrom(q, 0) == KeysOf(q)
  {
    assert q[..|q|] == q && KeysOf(q[|q|..]) == [] && q[0..] == q;
  }

  lemma {:induction false} PurgeStep(q: seq<Event>, k: nat)
    requires 0 < k <= |q|
    ensures var r := PurgedFrom(q, k); PurgedFrom(q, k - 1) == if r[k - 1].Key? then r else Remove(r, k - 1)
  {
    assert q[k - 1..][1..] == q[k..];
  }

  /** How many of the first `e` entries are left once everything from `k` on is
      purged. */
  ghost function LeftOfFirst(q: seq<Event>, k: nat, e: nat): (n: nat)
    requires e <= |q|
  {
    if k >= e then e else k + |KeysOf(q[k..e])|
  }

  lemma {:induction false} LeftEnds(q: seq<Event>, e: nat)
    requires e <= |q|
    ensures LeftOfFirst(q, |q|, e) == e && LeftOfFirst(q, 0, e) == |KeysOf(q[..e])|
  {
    assert q[0..e] == q[..e];
  }

  lemma {:induction false} LeftStep(q: seq<Event>, k: nat, e: nat)
    requires 0 < k <= |q| && e <= |q|
    ensures var n := LeftOfFirst(q, k, e);
            && (k - 1 < n <==> k - 1 < e)
            && LeftOfFirst(q, k - 1, e) == if PurgedFrom(q, k)[k - 1].Key? || k - 1 >= e then n else n - 1
  {
    if k <= e {
      assert q[k - 1..e][1..] == q[k..e];
    }
  }

  /** `q` without its entries from `k` up to `e`. */
  ghost function Without<T>(q: seq<T>, k: nat, e: nat): (r: seq<T>)
    requires k <= e <= |q|
    ensures |r| == |q| - (e - k)
  {
    q[..k] + q[e..]
  }

  lemma {:induction false} WithoutStep<T>(q: seq<T>, k: nat, e: nat)
    requires 0 < k <= e <= |q|
    ensures Remove(Without(q, k, e), k - 1) == Without(q, k - 1, e)
  {
  }

  lemma {:induction false} WithoutEnds<T>(q: seq<T>, e: nat)
    requires e <= |q|
    ensures Without(q, e, e) == q && Without(q, 0, e) == q[e..]
  {
    assert q[..e] + q[e..] == q;
  }

  function Min(a: int, b: int): int { if a < b then a else b }

  function Max(a: int, b: int): int { if a < b then b else a }

  /** The queue is a subsequence of the history, in arrival order. */
  ghost predicate Tracks(q: seq<Event>, serials: seq<nat>, history: seq<Event>) {
    && |serials| == |q|
    && (forall i :: 0 <= i < |serials| ==> serials[i] < |history| && q[i] == history[serials[i]])
    && (forall i, j :: 0 <= i < j < |serials| ==> serials[i] < serials[j])
  }

  /** The first `expiring` entries are exactly those that arrived before the
      last tick of the timer, and none of them before the last tick but one. */
  ghost predicate Aged(serials: seq<nat>, bornAt: seq<nat>, expiring: nat, ticks: nat) {
    && expiring <= |serials|
    && (forall i :: 0 <= i < |serials| ==> serials[i] < |bornAt|)
    && (forall i :: 0 <= i < expiring ==> bornAt[serials[i]] + 1 == ticks)
    && (forall i :: expiring <= i < |serials| ==> bornAt[serials[i]] == ticks)
  }

  lemma {:induction false} TracksRemove(q: seq<Event>, serials: seq<nat>, history: seq<Event>, k: nat)
    requires Tracks(q, serials, history) && k < |q|
    ensures Tracks(Remove(q, k), Remove(serials, k), history)
  {
  }

  lemma {:induction false} TracksAppend(q: seq<Event>, serials: seq<nat>, history: seq<Event>, e: Event)
    requires Tracks(q, serials, history)
    ensures Tracks(q + [e], serials + [|history|], history + [e])
  {
  }

  lemma {:induction false} TracksDrop(q: seq<Event>, serials: seq<nat>, history: seq<Event>, n: nat)
    requires Tracks(q, serials, history) && n <= |q|
    ensures Tracks(q[n..], serials[n..], history)
  {
  }

  lemma {:induction false} AgedRemove(serials: seq<nat>, bornAt: seq<nat>, expiring: nat, ticks: nat, k: nat)
    requires Aged(serials, bornAt, expiring, ticks) && k < |serials|
    ensures Aged(Remove(serials, k), bornAt, if k < expiring then expiring - 1 else expiring, ticks)
  {
  }

  lemma {:induction false} AgedAppend(serials: seq<nat>, bornAt: seq<nat>, expiring: nat, ticks: nat)
    requires Aged(serials, bornAt, expiring, ticks)
    ensures Aged(serials + [|bornAt|], bornAt + [ticks], expiring, ticks)
  {
  }

  /** One tick: what is dropped lived through the whole interval since the tick
      before, and everything left will expire next time. */
  lemma {:induction false} AgedTick(q: seq<Event>, serials: seq<nat>, history: seq<Event>, bornAt: seq<nat>, expiring: nat, ticks: nat)
    requires Tracks(q, serials, history) && Aged(serials, bornAt, expiring, ticks)
    ensures Aged(serials[expiring..], bornAt, |serials| - expiring, ticks + 1)
    ensures forall s :: s in serials ==> s < |bornAt|
    ensures forall s :: s in serials ==> (s in serials[expiring..] <==> bornAt[s] == ticks)
    ensures forall s :: s in serials ==> bornAt[s] == ticks || bornAt[s] == ticks - 1
  {
    forall s | s in serials
      ensures s < |bornAt| && (s in serials[expiring..] <==> bornAt[s] == ticks)
      ensures bornAt[s] == ticks || bornAt[s] == ticks - 1
    {
      var i :| 0 <= i < |serials| && serials[i] == s;
      if i >= expiring {
        assert serials[expiring..][i - expiring] == s;
      }
    }
  }

  class CEventQueue {
    const iThread: Thread
    var iQueue: seq<Event>
    var iNumberOfEventsInBackupRegion: nat
    var iNumberOfExpiringEvents: nat

    // History, for stating what the queue promises over whole runs: every
    // event ever appended, the number of timer ticks that had passed when it
    // was, and which of them the queue still holds.
    ghost var history: seq<Event>
    ghost var bornAt: seq<nat>
    ghost var serials: seq<nat>
    ghost var ticks: nat
    // Backed-up events that the timer has thrown away: each of them is
    // signalled again when the backup region is restored.
    ghost var leak: nat

    ghost predicate Shape()
      reads this
    {
      && iNumberOfExpiringEvents <= |iQueue|
      && iNumberOfEventsInBackupRegion <= |iQueue| + leak
      && Tracks(iQueue, serials, history)
    }

    ghost predicate Valid()
      reads this
    {
      Shape() && |bornAt| == |history| && Aged(serials, bornAt, iNumberOfExpiringEvents, ticks)
    }

    /** Signals the queue is owed: its entries outside the backup region. */
    ghost function Owed(): int
      reads this
    {
      |iQueue| + leak - iNumberOfEventsInBackupRegion
    }

    constructor (aThread: Thread)
      ensures Valid() && iThread == aThread && iQueue == [] && leak == 0 && ticks == 0
      ensures iNumberOfEventsInBackupRegion == 0 && iNumberOfExpiringEvents == 0
    {
      iThread := aThread;
      iQueue, iNumberOfEventsInBackupRegion, iNumberOfExpiringEvents := [], 0, 0;
      history, bornAt, serials, ticks, leak := [], [], [], 0, 0;
    }

    predicate IsNotEmpty()
      reads this
    {
      |iQueue| > iNumberOfEventsInBackupRegion
    }

    predicate BackupIsEmpty()
      reads this
    {
      iNumberOfEventsInBackupRegion == 0
    }

    method PeekNextEvent() returns (aEvent: Event)
      requires IsNotEmpty()
      ensures aEvent == iQueue[iNumberOfEventsInBackupRegion]
    {
      aEvent := iQueue[iNumberOfEventsInBackupRegion];
    }

    method RemoveEventAdjustingNumberOfExpiringEvents(aIndex: nat)
      requires Valid() && aIndex < |iQueue|
      requires iNumberOfEventsInBackupRegion < |iQueue| + leak
      modifies this`iQueue, this`iNumberOfExpiringEvents, this`serials
      ensures Valid()
      ensures iQueue == Remove(old(iQueue), aIndex)
      ensures iNumberOfExpiringEvents
           == if aIndex < old(iNumberOfExpiringEvents) then old(iNumberOfExpiringEvents) - 1 else old(iNumberOfExpiringEvents)
      ensures serials == Remove(old(serials), aIndex)
    {
      TracksRemove(iQueue, serials, history, aIndex);
      AgedRemove(serials, bornAt, iNumberOfExpiringEvents, ticks, aIndex);
      hide *;
      iQueue := Remove(iQueue, aIndex);
      serials := Remove(serials, aIndex);
      if aIndex < iNumberOfExpiringEvents {
        iNumberOfExpiringEvents := iNumberOfExpiringEvents - 1;
      }
    }

    method ConsumeNextEvent()
      requires Valid() && IsNotEmpty()
      modifies this`iQueue, this`iNumberOfExpiringEvents, this`serials
      ensures Valid()
      ensures iQueue == Remove(old(iQueue), iNumberOfEventsInBackupRegion)
      ensures iNumberOfExpiringEvents
           == old(iNumberOfExpiringEvents) - if iNumberOfEventsInBackupRegion < old(iNumberOfExpiringEvents) then 1 else 0
      ensures Owed() == old(Owed()) - 1
    {
      hide Tracks, Aged;
      RemoveEventAdjustingNumberOfExpiringEvents(iNumberOfEventsInBackupRegion);
    }

    method PutNextEventInBackup()
      requires Valid() && IsNotEmpty()
      modifies this`iNumberOfEventsInBackupRegion
      ensures Valid()
      ensures iNumberOfEventsInBackupRegion == old(iNumberOfEventsInBackupRegion) + 1
      ensures Owed() == old(Owed()) - 1
    {
      hide Tracks, Aged;
      iNumberOfEventsInBackupRegion := iNumberOfEventsInBackupRegion + 1;
    }

    method RestoreAllEventsFromBackup()
      requires Valid()
      modifies this`iNumberOfEventsInBackupRegion, iThread
      ensures Valid() && BackupIsEmpty()
      ensures iThread.iSemaphore == old(iThread.iSemaphore) + old(iNumberOfEventsInBackupRegion)
    {
      iThread.Signal(iNumberOfEventsInBackupRegion);
      iNumberOfEventsInBackupRegion := 0;
    }

    /** Fails without any effect when there is no memory for the entry. */
    method AppendEvent(aEvent: Event, outOfMemory: bool) returns (ok: bool)
      requires Valid()
      modifies this`iQueue, this`history, this`bornAt, this`serials, iThread
      ensures Valid() && ok == !outOfMemory
      ensures ok ==> iQueue == old(iQueue) + [aEvent] && iThread.iSemaphore == old(iThread.iSemaphore) + 1
      ensures ok ==> history == old(history) + [aEvent] && serials == old(serials) + [|old(history)|]
      ensures !ok ==> iQueue == old(iQueue) && iThread.iSemaphore == old(iThread.iSemaphore)
      ensures !ok ==> history == old(history) && serials == old(serials)
    {
      ok := !outOfMemory;
      if ok {
        TracksAppend(iQueue, serials, history, aEvent);
        AgedAppend(serials, bornAt, iNumberOfExpiringEvents, ticks);
        hide Tracks, Aged;
        iQueue := iQueue + [aEvent];
        serials := serials + [|history|];
        history := history + [aEvent];
        bornAt := bornAt + [ticks];
        iThread.Signal(1);
      }
    }

    method DropUnlessKey(aIndex: nat)
      requires Valid() && iNumberOfEventsInBackupRegion == 0
      requires aIndex < |iQueue| <= iThread.iSemaphore
      modifies this`iQueue, this`iNumberOfExpiringEvents, this`serials, iThread
      ensures Valid()
      ensures iQueue == if old(iQueue[aIndex]).Key? then old(iQueue) else Remove(old(iQueue), aIndex)
      ensures iNumberOfExpiringEvents == old(iNumberOfExpiringEvents)
                - if !old(iQueue[aIndex]).Key? && aIndex < old(iNumberOfExpiringEvents) then 1 else 0
      ensures iThread.iSemaphore - |iQueue| == old(iThread.iSemaphore - |iQueue|)
    {
      if !iQueue[aIndex].Key? {
        RemoveEventAdjustingNumberOfExpiringEvents(aIndex);
        iThread.WaitForAnyRequest();
      }
    }

    /** One turn of the loop below, for the queue that it began with. */
    method PurgeOne(i: nat, ghost q0: seq<Event>, ghost e0: nat)
      requires Valid() && iNumberOfEventsInBackupRegion == 0 && i < |q0| && e0 <= |q0| && |iQueue| <= iThread.iSemaphore
      requires iQueue == PurgedFrom(q0, i + 1) && iNumberOfExpiringEvents == LeftOfFirst(q0, i + 1, e0)
      modifies this`iQueue, this`iNumberOfExpiringEvents, this`serials, iThread
      ensures Valid()
      ensures iQueue == PurgedFrom(q0, i) && iNumberOfExpiringEvents == LeftOfFirst(q0, i, e0)
      ensures iThread.iSemaphore - |iQueue| == old(iThread.iSemaphore - |iQueue|)
    {
      hide *;
      PurgeStep(q0, i + 1);
      LeftStep(q0, i + 1, e0);
      DropUnlessKey(i);
    }

    /** Keeps exactly the key events, in order, and takes back one signal for
        each event dropped, never blocking on any of those waits. */
    method PurgeAllNonKeyEvents()
      requires Valid() && iNumberOfEventsInBackupRegion == 0
      requires iThread.iSemaphore >= |iQueue|
      modifies this`iQueue, this`iNumberOfExpiringEvents, this`serials, iThread
      ensures Valid()
      ensures iQueue == KeysOf(old(iQueue))
      ensures old(iNumberOfExpiringEvents) <= |old(iQueue)|
      ensures iNumberOfExpiringEvents == |KeysOf(old(iQueue)[..old(iNumberOfExpiringEvents)])|
      ensures iThread.iSemaphore - |iQueue| == old(iThread.iSemaphore) - |old(iQueue)|
    {
      var i := |iQueue| - 1;
      ghost var q0, e0, spare := iQueue, iNumberOfExpiringEvents, iThread.iSemaphore - |iQueue|;
      assert e0 <= |q0|;
      hide *;
      LeftEnds(q0, e0);
      PurgeEnds(q0);
      while i >= 0
        invariant -1 <= i < |q0|
        invariant Valid() && iNumberOfEventsInBackupRegion == 0
        invariant iQueue == PurgedFrom(q0, i + 1)
        invariant iThread.iSemaphore == |iQueue| + spare
        invariant iNumberOfExpiringEvents == LeftOfFirst(q0, i + 1, e0)
      {
        PurgeOne(i, q0, e0);
        i := i - 1;
      }
    }

    /** Throws the expiring prefix away and makes everything that is left
        expire next time. The waits are made only for entries outside the
        backup region, but the backup count is not lowered for entries inside
        it: `leak` grows by how many of those went. */
    method PurgeAllExpiringEvents()
      requires Shape()
      requires iThread.iSemaphore >= iNumberOfExpiringEvents - iNumberOfEventsInBackupRegion
      modifies this`iQueue, this`iNumberOfExpiringEvents, this`serials, this`leak, iThread
      ensures Shape()
      ensures iQueue == old(iQueue[iNumberOfExpiringEvents..])
      ensures serials == old(serials[iNumberOfExpiringEvents..])
      ensures iNumberOfExpiringEvents == |iQueue|
      ensures iThread.iSemaphore
           == old(iThread.iSemaphore) - Max(0, old(iNumberOfExpiringEvents) - iNumberOfEventsInBackupRegion)
      ensures leak == old(leak) + Min(old(iNumberOfExpiringEvents), iNumberOfEventsInBackupRegion)
      ensures iThread.iSemaphore - Owed() == old(iThread.iSemaphore - Owed())
    {
      TracksDrop(iQueue, serials, history, iNumberOfExpiringEvents);
      hide Tracks;
      RemoveExpiringPrefix();
      leak := leak + Min(iNumberOfExpiringEvents, iNumberOfEventsInBackupRegion);
      serials := serials[iNumberOfExpiringEvents..];
      iNumberOfExpiringEvents := |iQueue|;
    }

    method RemoveExpiringPrefix()
      requires iNumberOfExpiringEvents <= |iQueue|
      requires iThread.iSemaphore >= iNumberOfExpiringEvents - iNumberOfEventsInBackupRegion
      modifies this`iQueue, iThread
      ensures iQueue == old(iQueue[iNumberOfExpiringEvents..])
      ensures iThread.iSemaphore
           == old(iThread.iSemaphore) - Max(0, iNumberOfExpiringEvents - iNumberOfEventsInBackupRegion)
    {
      hide Without, Remove;
      var i: int := iNumberOfExpiringEvents - 1;
      ghost var q0 := iQueue;
      WithoutEnds(q0, iNumberOfExpiringEvents);
      while i >= 0
        invariant -1 <= i < iNumberOfExpiringEvents
        invariant iQueue == Without(q0, i + 1, iNumberOfExpiringEvents)
        invariant iThread.iSemaphore == old(iThread.iSemaphore)
               - Max(0, iNumberOfExpiringEvents - Max(i + 1, iNumberOfEventsInBackupRegion))
      {
        WithoutStep(q0, i + 1, iNumberOfExpiringEvents);
        iQueue := Remove(iQueue, i);
        if i >= iNumberOfEventsInBackupRegion {
          iThread.WaitForAnyRequest();
        }
        i := i - 1;
      }
    }

    /** The timer: what it throws away lived through one whole interval between
        two ticks, and nothing it leaves can survive the next tick but one. */
    method RunL()
      requires Valid()
      requires iThread.iSemaphore >= iNumberOfExpiringEvents - iNumberOfEventsInBackupRegion
      modifies this`iQueue, this`iNumberOfExpiringEvents, this`serials, this`leak, this`ticks, iThread
      ensures Valid() && ticks == old(ticks) + 1
      ensures iQueue == old(iQueue[iNumberOfExpiringEvents..]) && iNumberOfExpiringEvents == |iQueue|
      ensures forall s :: s in old(serials) ==> s < |bornAt| && (s in serials <==> bornAt[s] == old(ticks))
      ensures forall s :: s in old(serials) && s !in serials ==> bornAt[s] == old(ticks) - 1
      ensures leak == old(leak) + Min(old(iNumberOfExpiringEvents), iNumberOfEventsInBackupRegion)
      ensures iThread.iSemaphore - Owed() == old(iThread.iSemaphore - Owed())
    {
      AgedTick(iQueue, serials, history, bornAt, iNumberOfExpiringEvents, ticks);
      hide Tracks, Aged;
      PurgeAllExpiringEvents();
      ticks := ticks + 1;
    }

    /** Empties the queue before a dialog runs. */
    method PrepareToStartActiveScheduler()
      requires Valid()
      requires iThread.iSemaphore >= |iQueue| - iNumberOfEventsInBackupRegion
      modifies this`iQueue, this`iNumberOfExpiringEvents, this`serials, this`leak, iThread
      ensures Valid() && iQueue == [] && iNumberOfExpiringEvents == 0
      ensures leak == old(leak) + Min(|old(iQueue)|, iNumberOfEventsInBackupRegion)
      ensures iThread.iSemaphore - Owed() == old(iThread.iSemaphore - Owed())
    {
      iNumberOfExpiringEvents := |iQueue|;
      PurgeAllExpiringEvents();
    }
  }
}
