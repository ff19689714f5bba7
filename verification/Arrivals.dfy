/** What becomes of the events that come while a program waits. */
module Arrivals {
  import opened EventQueue
  import opened EventSources
  import opened Scenes
  import opened Searches
  import opened WaitRuns
  import opened Wrappers

  /** No tick, no front-end processor, and memory for the queue. */
  predicate Calm(now: Circumstance) {
    && now.fepAppends == [] && !now.fepConsumes && !now.outOfMemory
    && forall k :: 0 <= k < |now.completions| ==> !now.completions[k].TimerExpires?
  }

  /** How often an event is there: queued, or with the window server. */
  ghost function Number(s: Scene, e: Event): nat {
    multiset(s.queue.events)[e] + Bit(s.status == Ready(e))
  }

  /** No tick is due, and the request for the next event is in order. */
  ghost predicate Orderly(s: Scene) {
    !s.objects.timer && (s.status == Pending || s.status.Ready?) && s.queue.backup <= |s.queue.events|
  }

  /** The event comes, if one can. */
  ghost function Came(s: Scene, completions: seq<Completion>, e: Event): nat {
    Bit(s.status == Pending && Delivered(s.status, completions) == Ready(e))
  }

  /** How often it comes until the wait is over. */
  ghost function CameInAll(t: Terms, s: Scene, script: seq<Circumstance>, e: Event): nat
    decreases |script|
  {
    if script == [] then 0
    else
      var r := AfterPass(t, s, script[0]);
      Came(s, script[0].completions, e) + if r.ended == NotEnded then CameInAll(t, r.scene, script[1..], e) else 0
  }

  /** The event that completes the KEYA or GETEVENTA in this step. */
  ghost function ForRequest(s: Scene, r: Step): Option<Event> {
    if s.program.statPtr.Some? && r.scene.program.statPtr.None? then Some(r.scene.progress.event) else None
  }

  /** The one that does so in the wait. */
  ghost function ForRequestInAll(t: Terms, s: Scene, script: seq<Circumstance>): Option<Event>
    decreases |script|
  {
    if script == [] then None
    else
      var r := AfterPass(t, s, script[0]);
      var now := ForRequest(s, r);
      if now.None? && r.ended == NotEnded then ForRequestInAll(t, r.scene, script[1..]) else now
  }

  /** An event is still there, or it ended the wait, or it completed the request. */
  ghost predicate Accounted(s: Scene, came: nat, r: Step, forRequest: Option<Event>, e: Event) {
    Number(s, e) + came
    == Number(r.scene, e) + Bit(r.ended == UserEvent && r.scene.progress.event == e) + Bit(forRequest == Some(e))
  }

  /** What the next turn relies on; and the request is completed by an event of its
      kind, or it is still there. */
  ghost predicate GoesOn(s: Scene, r: Step, forRequest: Option<Event>) {
    && Orderly(r.scene) && r.scene.program.keysOnly == s.program.keysOnly
    && (forRequest.Some? ==> CompletesKeyRequest(s.program, forRequest.value) && r.scene.program.statPtr.None?)
    && (forRequest.None? ==> r.scene.program.statPtr == s.program.statPtr)
  }

  lemma {:induction false} DeliveredLast(status: WsStatus, cs: seq<Completion>, c: Completion)
    ensures Delivered(status, cs + [c]) == Delivered(Delivered(status, cs), [c])
  {
    if cs == [] {
      assert cs + [c] == [c];
    } else {
      TailOfConcat(cs, [c]);
      DeliveredLast(status, cs[1..], c);
    }
  }

  lemma {:induction false} AllHappenedDelivers(s: Scene, cs: seq<Completion>)
    requires Orderly(s) && forall k :: 0 <= k < |cs| ==> !cs[k].TimerExpires?
    ensures var s1 := AllHappened(s, cs);
            && s1.status == Delivered(s.status, cs) && !s1.objects.timer
            && s1.queue == s.queue && s1.program == s.program && s1.progress == s.progress
  {
    if cs != [] {
      var n := |cs| - 1;
      assert cs == cs[..n] + [cs[n]];
      AllHappenedDelivers(s, cs[..n]);
      DeliveredLast(s.status, cs[..n], cs[n]);
    }
  }

  lemma {:induction false} DeliveredIsReady(status: WsStatus, cs: seq<Completion>)
    requires status == Pending || status.Ready?
    ensures Delivered(status, cs) == Pending || Delivered(status, cs).Ready?
    ensures status.Ready? ==> Delivered(status, cs) == status
  {
    if cs != [] {
      DeliveredIsReady(status, cs[1..]);
    }
  }

  lemma {:induction false} HappenedIsAccounted(s: Scene, cs: seq<Completion>, e: Event)
    requires Orderly(s) && forall k :: 0 <= k < |cs| ==> !cs[k].TimerExpires?
    ensures var s1 := AllHappened(s, cs);
            && Number(s1, e) == Number(s, e) + Came(s, cs, e) && Orderly(s1)
            && s1.program == s.program && s1.progress == s.progress
  {
    AllHappenedDelivers(s, cs);
    DeliveredIsReady(s.status, cs);
    hide AllHappened, Delivered;
  }

  lemma {:induction false} RemovedOne(q: seq<Event>, k: nat, e: Event)
    requires k < |q|
    ensures multiset(q)[e] == multiset(Remove(q, k))[e] + Bit(q[k] == e)
  {
    assert q == q[..k] + ([q[k]] + q[k + 1..]);
  }

  lemma {:induction false} OneAppended(q: seq<Event>, added: Event, e: Event)
    ensures multiset(q + [added])[e] == multiset(q)[e] + Bit(added == e)
  {
  }

  lemma {:induction false} NothingAppended(q: Queue)
    ensures Appended(q, KeyEvents([])) == q && Appended(q, []) == q
  {
    assert q.events + KeyEvents([]) == q.events;
  }

  lemma {:induction false} RequestIsThere(p: Program, e: Event)
    ensures CompletesKeyRequest(p, e) ==> p.statPtr.Some?
  {
  }

  lemma {:induction false} QueuedIsAccounted(t: Terms, s: Scene, e: Event)
    requires Orderly(s) && QueueIsNotEmpty(s)
    ensures var r := AfterQueued(t, s); Accounted(s, 0, r, ForRequest(s, r), e) && GoesOn(s, r, ForRequest(s, r))
  {
    RemovedOne(s.queue.events, s.queue.backup, e);
    RequestIsThere(s.program, s.queue.events[s.queue.backup]);
    hide CompletesKeyRequest, Matches, Remove;
  }

  lemma {:induction false} FreshIsAccounted(t: Terms, s: Scene, now: Circumstance, e: Event)
    requires Orderly(s) && s.status.Ready? && Calm(now)
    ensures var r := AfterFresh(t, s, now); Accounted(s, 0, r, ForRequest(s, r), e) && GoesOn(s, r, ForRequest(s, r))
  {
    NothingAppended(s.queue);
    OneAppended(s.queue.events, s.status.event, e);
    RequestIsThere(s.program, s.status.event);
    hide CompletesKeyRequest, Matches, KeyEvents;
  }

  lemma {:induction false} ObjectIsAccounted(s: Scene, minimum: TInt, now: Circumstance, e: Event)
    requires Orderly(s) && Due(s, minimum) && Calm(now)
    ensures var r := Step(AfterObject(s, minimum, now), NotEnded);
            Accounted(s, 0, r, ForRequest(s, r), e) && GoesOn(s, r, ForRequest(s, r))
  {
    NothingAppended(s.queue);
    hide KeyEvents, CompletesKeyRequest, Appended;
  }

  lemma {:induction false} OthersAreAccounted(t: Terms, s: Scene, offer: OfferFunction, e: Event)
    requires Orderly(s) && CanOffer(s, offer) && offer != ToUserEventHandler
    ensures var r := AfterHandler(t, s, offer, Nothing); Accounted(s, 0, r, ForRequest(s, r), e) && GoesOn(s, r, ForRequest(s, r))
  {
    hide BestSource, BestRequest, CompletesKeyRequest;
  }

  lemma {:induction false} DispatchIsAccounted(t: Terms, s: Scene, now: Circumstance, e: Event)
    requires Orderly(s) && Calm(now)
    ensures var r := AfterDispatch(t, s, now); Accounted(s, 0, r, ForRequest(s, r), e) && GoesOn(s, r, ForRequest(s, r))
  {
    var hs := HandlersOf(s);
    HandlersCanOffer(s);
    var h := if PassesOn(s, hs[0]) then hs[1] else hs[0];
    hide HandlersOf, AfterObject, AfterQueued, AfterFresh, AfterSource, AfterRequest, AfterFinal, BestSource, BestRequest;
    hide Accounted, ForRequest, GoesOn, Due, Calm;
    if Due(s, h.priority) {
      ObjectIsAccounted(s, h.priority, now, e);
    } else if h.offer != ToUserEventHandler {
      OthersAreAccounted(t, s, h.offer, e);
    } else if QueueIsNotEmpty(s) {
      QueuedIsAccounted(t, s, e);
    } else {
      FreshIsAccounted(t, s, now, e);
    }
  }

  lemma {:induction false} RoundIsAccounted(t: Terms, s: Scene, now: Circumstance, e: Event)
    requires Orderly(s) && Calm(now)
    ensures var r := AfterRound(t, s, now); Accounted(s, 0, r, ForRequest(s, r), e) && GoesOn(s, r, ForRequest(s, r))
  {
    hide AfterDispatch, Calm, CompletesKeyRequest;
    if !s.priorityKey {
      DispatchIsAccounted(t, CompletionsNoted(s), now, e);
    }
  }

  lemma {:induction false} PassIsAccounted(t: Terms, s: Scene, now: Circumstance, e: Event)
    requires Orderly(s) && Calm(now)
    ensures var r := AfterPass(t, s, now);
            Accounted(s, Came(s, now.completions, e), r, ForRequest(s, r), e) && GoesOn(s, r, ForRequest(s, r))
  {
    var s1 := AllHappened(s, now.completions);
    HappenedIsAccounted(s, now.completions, e);
    RoundIsAccounted(t, s1, now, e);
    hide AllHappened, Came, AfterRound, Semaphore, CompletesKeyRequest, Number, Orderly;
    ExplicitIsNoEvent(s1, e);
  }

  lemma {:induction false} ExplicitIsNoEvent(s: Scene, e: Event)
    requires Orderly(s)
    ensures var s1 := ExplicitTaken(s);
            && Number(s1, e) == Number(s, e) && Orderly(s1)
            && s1.program.statPtr == s.program.statPtr && s1.program.keysOnly == s.program.keysOnly
  {
  }

  /** In every script in which no tick comes, no front-end processor steps in and
      there is memory, no event is lost or doubled by a wait: whatever was there and
      whatever came is still there, but for the event that ended the wait and the one
      that completed the key request. */
  lemma {:induction false} NothingIsLost(t: Terms, s: Scene, script: seq<Circumstance>, e: Event)
    requires Orderly(s) && forall k :: 0 <= k < |script| ==> Calm(script[k])
    ensures var r := AfterScript(t, s, script);
            var forRequest := ForRequestInAll(t, s, script);
            Accounted(s, CameInAll(t, s, script, e), r, forRequest, e) && GoesOn(s, r, forRequest)
    decreases |script|
  {
    if script != [] {
      var r := AfterPass(t, s, script[0]);
      PassIsAccounted(t, s, script[0], e);
      if r.ended == NotEnded {
        NothingIsLost(t, r.scene, script[1..], e);
        hide AfterPass, Number, Came, Orderly, Calm;
      }
    }
  }
}
