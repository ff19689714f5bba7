/** What the rules of a wait come to over whole runs: when it ends, when it
    cannot, and for which signals it waits in vain. */
module WaitRuns {
  import opened EventQueue
  import opened EventSources
  import opened Scenes
  import opened Wrappers

  // ------------------------------------------------------ whose signal it is

  /** The user handler is the first to be offered a signal. */
  predicate UserIsFirst(source: Option<TInt>, request: Option<TInt>) {
    if source.Some? && request.Some? then source.value < EActivePriorityWsEvents && request.value < EActivePriorityWsEvents
    else (source.Some? ==> source.value <= EActivePriorityWsEvents) && (request.Some? ==> request.value <= EActivePriorityWsEvents)
  }

  lemma {:induction false} UserIsFirstExactly(source: Option<TInt>, request: Option<TInt>)
    ensures SetUpArrayOfEventHandlers(source, request)[0].offer == ToUserEventHandler <==> UserIsFirst(source, request)
  {
  }

  /** Where a handler stands in the array. */
  function Position(hs: seq<Handler>, offer: OfferFunction): (k: nat)
    requires |hs| == 4
    ensures k < 4 ==> hs[k].offer == offer
  {
    if hs[0].offer == offer then 0
    else if hs[1].offer == offer then 1
    else if hs[2].offer == offer then 2
    else if hs[3].offer == offer then 3 else 4
  }

  predicate PrecedesRequest(offer: OfferFunction, source: Option<TInt>, request: TInt) {
    var hs := SetUpArrayOfEventHandlers(source, Some(request));
    Position(hs, offer) < Position(hs, ToOplRequest)
  }

  /** A key press is offered before a completed request exactly when the request
      has a lower priority; at equal priority it depends on the source. */
  lemma {:induction false} UserPrecedesRequest(source: Option<TInt>, request: TInt)
    ensures PrecedesRequest(ToUserEventHandler, source, request)
       <==> request < EActivePriorityWsEvents || (request == EActivePriorityWsEvents && (source.None? || source.value > request))
  {
  }

  /** A source is offered a signal before a request exactly when it has the
      higher priority. */
  lemma {:induction false} SourcePrecedesRequest(source: TInt, request: TInt)
    ensures PrecedesRequest(ToAdditionalSources, Some(source), request) <==> source > request
  {
  }

  /** The handler that the signal reaches, unless an active object is more
      important. */
  ghost function Taker(s: Scene): Handler {
    var hs := HandlersOf(s);
    if PassesOn(s, hs[0]) then hs[1] else hs[0]
  }

  // --------------------------------------------------- a request in the way

  /** The signal goes to a completed request, which any wait but IOWAIT leaves
      where it is. */
  ghost predicate RequestAbsorbs(t: Terms, s: Scene) {
    && !s.priorityKey && (s.program.suspended || !t.required.oplCompletion)
    && Taker(s).offer == ToOplRequest && !Due(s, Taker(s).priority)
  }

  /** All that is left of a signal that was absorbed. */
  ghost function Absorbed(s: Scene): Scene {
    s.(requests := Noted(s.requests),
       progress := s.progress.(handled := s.progress.handled + 1, replace := s.progress.replace + 1))
  }

  lemma {:induction false} NotedKeepsTaker(s: Scene)
    ensures HandlersOf(CompletionsNoted(s)) == HandlersOf(s) && Taker(CompletionsNoted(s)) == Taker(s)
  {
    NotedKeeps(s.requests);
  }

  lemma {:induction false} AbsorbingRound(t: Terms, s: Scene, now: Circumstance)
    requires RequestAbsorbs(t, s)
    ensures AfterRound(t, s, now) == Step(Absorbed(s), NotEnded) && RequestAbsorbs(t, Absorbed(s))
    ensures Semaphore(Absorbed(s)) == Semaphore(s) - 1
  {
    NotedKeepsTaker(s);
    NotedKeeps(s.requests);
    HandlersCanOffer(s);
    assert HandlersOf(Absorbed(s)) == HandlersOf(CompletionsNoted(s));
    hide Completed, Unconsumed, SetUpArrayOfEventHandlers, BestRequest, BestSource, Noted;
  }

  /** Nothing completes. */
  ghost predicate Quiet(script: seq<Circumstance>) {
    forall k :: 0 <= k < |script| ==> script[k].completions == []
  }

  lemma {:induction false} QuietTail(script: seq<Circumstance>)
    requires Quiet(script) && script != []
    ensures Quiet(script[1..]) && script[0].completions == [] && forall s :: AllHappened(s, script[0].completions) == s
  {
  }

  /** A blocked thread stays blocked. */
  lemma {:induction false} BlockedStaysBlocked(t: Terms, s: Scene, script: seq<Circumstance>)
    requires Quiet(script) && Semaphore(s) <= 0
    ensures AfterScript(t, s, script) == Step(s, NotEnded)
    decreases |script|
  {
    hide Semaphore, AfterRound;
    if script != [] {
      QuietTail(script);
      BlockedStaysBlocked(t, s, script[1..]);
    }
  }

  /** However long the thread is given, such a wait does not end. */
  lemma {:induction false} AbsorbingWaitNeverEnds(t: Terms, s: Scene, script: seq<Circumstance>)
    requires Quiet(script) && RequestAbsorbs(t, s) && t.maximum.None?
    ensures var r := AfterScript(t, s, script);
            r.ended == NotEnded && r.scene.status == s.status && r.scene.queue == s.queue && r.scene.sources == s.sources
    ensures |script| >= Semaphore(s) >= 0 ==> Semaphore(AfterScript(t, s, script).scene) == 0
    decreases |script|
  {
    hide Semaphore, AfterRound, RequestAbsorbs, Absorbed;
    if script != [] {
      QuietTail(script);
      if Semaphore(s) > 0 {
        AbsorbingRound(t, s, script[0]);
        AbsorbedKeeps(s);
        AbsorbingWaitNeverEnds(t, Absorbed(s), script[1..]);
      } else {
        BlockedStaysBlocked(t, s, script);
      }
    }
  }

  lemma {:induction false} AbsorbedKeeps(s: Scene)
    ensures var a := Absorbed(s);
            && a.status == s.status && a.queue == s.queue && a.sources == s.sources
            && a.progress.handled == s.progress.handled + 1
  {
  }

  // ------------------------------------------------------- an event that waits

  /** No priority key, and no active object that goes before the user. */
  predicate UserMayBeServed(s: Scene) {
    !s.priorityKey && !s.program.suspended && FirstDue(s.objects.foreign, EActivePriorityWsEvents).None?
  }

  /** The event the user handler would look at next is one that is asked for. */
  predicate WantedEventIsReady(t: Terms, s: Scene, fepConsumes: bool) {
    if QueueIsNotEmpty(s) then Matches(t.required.user, s.queue.events[s.queue.backup])
    else s.status.Ready? && Matches(t.required.user, s.status.event) && !fepConsumes
  }

  lemma {:induction false} NobodyElseIsDue(foreign: seq<TInt>, minimum: TInt, higher: TInt)
    requires FirstDue(foreign, minimum).None? && minimum <= higher
    ensures FirstDue(foreign, higher).None?
  {
    if foreign != [] {
      NobodyElseIsDue(foreign[1..], minimum, higher);
    }
  }

  /** Whatever else is ready, a signal ends the wait with the event exactly when
      the user handler comes first. */
  lemma {:induction false} WantedEventEndsTheRound(t: Terms, s: Scene, now: Circumstance)
    requires UserMayBeServed(s) && WantedEventIsReady(t, s, now.fepConsumes)
    ensures AfterRound(t, s, now).ended == UserEvent <==> UserIsFirst(SourcePriority(s), RequestPriority(s))
    ensures Taker(s) == HandlersOf(s)[0] && !Due(s, Taker(s).priority)
    ensures Taker(s).offer == ToAdditionalSources ==> AfterRound(t, s, now).ended == AdditionalSource
  {
    HandlersCanOffer(s);
    NotedKeeps(s.requests);
    NotedKeepsTaker(s);
    UserIsFirstExactly(SourcePriority(s), RequestPriority(s));
    NobodyElseIsDue(s.objects.foreign, EActivePriorityWsEvents, HandlersOf(s)[0].priority);
    hide Completed, Unconsumed, SetUpArrayOfEventHandlers, BestRequest, BestSource, Noted, FirstDue, UserIsFirst;
  }

  /** When nothing else happens, a wait for user events ends with the event that
      is ready exactly when the user handler comes first; if a completed request
      does, it never ends. */
  lemma {:induction false} WantedEventEndsTheWait(t: Terms, s: Scene, script: seq<Circumstance>)
    requires !t.required.oplCompletion && t.maximum.None?
    requires Quiet(script) && script != [] && Semaphore(s) > 0
    requires UserMayBeServed(s) && WantedEventIsReady(t, s, script[0].fepConsumes)
    ensures var r := AfterScript(t, s, script);
            && (r.ended == UserEvent <==> UserIsFirst(SourcePriority(s), RequestPriority(s)))
            && (Taker(s).offer == ToOplRequest ==> r.ended == NotEnded && r.scene.status == s.status && r.scene.queue == s.queue)
  {
    QuietTail(script);
    WantedEventEndsTheRound(t, s, script[0]);
    HandlersCanOffer(s);
    UserIsFirstExactly(SourcePriority(s), RequestPriority(s));
    if Taker(s).offer == ToOplRequest {
      AbsorbingWaitNeverEnds(t, s, script);
    }
    hide Semaphore, AfterRound, UserIsFirst, WantedEventIsReady;
  }

  /** A completed source ends the wait it belongs to exactly when no completed
      request has at least its priority; otherwise the wait never ends. */
  lemma {:induction false} CompletedSourceEndsTheWait(t: Terms, s: Scene, script: seq<Circumstance>)
    requires !t.required.oplCompletion && t.maximum.None?
    requires Quiet(script) && script != [] && Semaphore(s) > 0
    requires !s.priorityKey && !s.program.suspended && !s.objects.timer && s.objects.foreign == [] && UserIsIdle(s)
    requires SourcePriority(s).Some?
    ensures var r := AfterScript(t, s, script);
            var q := RequestPriority(s);
            && (r.ended == AdditionalSource <==> q.None? || SourcePriority(s).value > q.value)
            && (r.ended != AdditionalSource ==> r.ended == NotEnded)
            && (r.ended == AdditionalSource ==> r.scene.progress.replace == s.progress.replace)
            && r.scene.queue == s.queue
  {
    QuietTail(script);
    NotedKeeps(s.requests);
    NotedKeepsTaker(s);
    HandlersCanOffer(s);
    if RequestPriority(s).Some? {
      SourcePrecedesRequest(SourcePriority(s).value, RequestPriority(s).value);
      if SourcePriority(s).value <= RequestPriority(s).value {
        AbsorbingWaitNeverEnds(t, s, script);
      }
    }
    hide Semaphore, Completed, Unconsumed, BestRequest, BestSource, Noted;
  }

  lemma {:induction false} RoundIgnoresCompletions(t: Terms, s: Scene, now: Circumstance)
    ensures AfterRound(t, s, now) == AfterRound(t, s, now.(completions := []))
  {
    hide Completed, Unconsumed, BestRequest, BestSource, Noted, SetUpArrayOfEventHandlers, KeyEvents;
  }

  /** What completes in the first circumstance may as well have completed
      before. */
  lemma {:induction false} CompletedBefore(t: Terms, s: Scene, script: seq<Circumstance>)
    requires script != []
    ensures AfterScript(t, s, script)
         == AfterScript(t, AllHappened(s, script[0].completions), [script[0].(completions := [])] + script[1..])
  {
    var script1 := [script[0].(completions := [])] + script[1..];
    assert script1[1..] == script[1..];
    RoundIgnoresCompletions(t, AllHappened(s, script[0].completions), script[0]);
    hide AfterRound, Semaphore;
  }

  // ---------------------------------------------------------------- starvation

  /** A completed request comes before every source of the wait, and before the
      user if the user is waited for. */
  ghost predicate Starves(t: Terms, s: Scene, k: nat) {
    && k < |s.requests| && s.requests[k].completed
    && (t.required.user == UserEventsNone || s.requests[k].priority > EActivePriorityWsEvents)
    && (forall j :: 0 <= j < |s.sources| ==> s.sources[j].priority <= s.requests[k].priority)
    && (forall j :: 0 <= j < |s.sources| ==> !s.sources[j].consumed)
  }

  /** The waits that a request can starve: not IOWAIT, no poll, and not the one
      for the end of a suspension. */
  predicate CanStarve(t: Terms) {
    !t.required.oplCompletion && t.maximum.None? && !t.required.terminatesSuspension
  }

  lemma {:induction false} StarvesStill(t: Terms, s: Scene, cs: seq<Completion>, k: nat)
    requires Starves(t, s, k)
    ensures Starves(t, AllHappened(s, cs), k)
  {
    if cs != [] {
      StarvesStill(t, s, cs[..|cs| - 1], k);
    }
  }

  lemma {:induction false} StarvedDispatch(t: Terms, s: Scene, now: Circumstance, k: nat)
    requires CanStarve(t) && Starves(t, s, k) && !s.priorityKey
    ensures var r := AfterDispatch(t, s, now);
            r.ended == NotEnded && r.scene.requests == s.requests && r.scene.sources == s.sources
  {
    BestRequestIsFirstOfHighest(s.requests);
    BestSourceIsLastOfHighest(s.sources);
    var q := RequestPriority(s).value;
    assert q >= s.requests[k].priority;
    assert SourcePriority(s).Some? ==> q >= SourcePriority(s).value;
    HandlersCanOffer(s);
    hide Completed, Unconsumed, BestRequest, BestSource, KeyEvents;
  }

  lemma {:induction false} StarvedRound(t: Terms, s: Scene, now: Circumstance, k: nat)
    requires CanStarve(t) && Starves(t, s, k)
    ensures var r := AfterRound(t, s, now); r.ended == NotEnded && Starves(t, r.scene, k)
  {
    if !s.priorityKey {
      StarvedDispatch(t, CompletionsNoted(s), now, k);
    }
  }

  /** Whatever happens: key presses, completed sources, priority keys. */
  lemma {:induction false} StarvedWaitNeverEnds(t: Terms, s: Scene, script: seq<Circumstance>, k: nat)
    requires CanStarve(t) && Starves(t, s, k)
    ensures AfterScript(t, s, script).ended == NotEnded
    decreases |script|
  {
    hide Starves, AfterRound, Semaphore;
    if script != [] {
      StarvesStill(t, s, script[0].completions, k);
      StarvedRound(t, AllHappened(s, script[0].completions), script[0], k);
      StarvedWaitNeverEnds(t, AfterPass(t, s, script[0]).scene, script[1..], k);
    }
  }

  // --------------------------------------------------------------------- polls

  /** With a completed request in the way a poll ends exactly when there are more
      signals than it may still handle: the request absorbs the dummy one too. */
  lemma {:induction false} AbsorbingPollEnds(t: Terms, s: Scene, script: seq<Circumstance>)
    requires Quiet(script) && RequestAbsorbs(t, s) && t.maximum.Some? && s.progress.handled <= t.maximum.value
    requires |script| > t.maximum.value - s.progress.handled && Semaphore(s) >= 0
    ensures var r := AfterScript(t, s, script);
            && (r.ended == NotEnded <==> s.progress.handled + Semaphore(s) <= t.maximum.value)
            && (r.ended == NotEnded ==> Semaphore(r.scene) == 0)
    decreases |script|
  {
    hide Semaphore, AfterRound, RequestAbsorbs, Absorbed, ExplicitTaken;
    QuietTail(script);
    if Semaphore(s) <= 0 {
      BlockedStaysBlocked(t, s, script);
    } else if s.progress.handled < t.maximum.value {
      AbsorbingRound(t, s, script[0]);
      AbsorbedKeeps(s);
      AbsorbingPollEnds(t, Absorbed(s), script[1..]);
    }
  }

  /** A key that has been asked for is there. */
  predicate KeyIsReady(s: Scene) {
    UserMayBeServed(s) && (KeysOf(s.queue.events) != [] || (s.status.Ready? && s.status.event.Key?))
  }

  /** The request would be offered a key press first. */
  predicate OutranksKeys(rs: seq<Request>) {
    exists k :: 0 <= k < |rs| && rs[k].completed && rs[k].priority > EActivePriorityWsEvents
  }

  lemma {:induction false} OutranksKeysExactly(s: Scene)
    requires s.sources == []
    ensures OutranksKeys(s.requests) <==> !UserIsFirst(SourcePriority(s), RequestPriority(s))
  {
    BestRequestIsFirstOfHighest(s.requests);
  }

  /** GET with a key there and nothing else happening. */
  lemma {:induction false} KeyEndsGet(t: Terms, s: Scene, script: seq<Circumstance>)
    requires t == Terms(EventsRequired(UserEventsKeysOnly, false, false), None)
    requires KeyIsReady(s) && s.sources == [] && s.queue.backup == 0 && s.progress.replace == 0
    requires Quiet(script) && script != [] && !script[0].fepConsumes
    ensures var r := AfterScript(t, Opened(t, s), script);
            && (r.ended == UserEvent <==> !OutranksKeys(s.requests))
            && (OutranksKeys(s.requests) ==> r.ended == NotEnded && r.scene.status == s.status)
  {
    var s1 := Opened(t, s);
    KeysOfIsKeys(s.queue.events);
    assert Semaphore(s1) >= |s1.queue.events| + Bit(s1.status.Ready?);
    OutranksKeysExactly(s1);
    UserIsFirstExactly(SourcePriority(s1), RequestPriority(s1));
    BestSourceIsLastOfHighest(s1.sources);
    HandlersCanOffer(s1);
    hide Semaphore, KeysOf, UserIsFirst, OutranksKeys, BestSource, BestRequest;
    WantedEventEndsTheWait(t, s1, script);
  }

  const GetTerms := Terms(EventsRequired(UserEventsKeysOnly, false, false), None)

  /** GET, whatever happens and when a key is there. */
  lemma {:induction false} GetEnds(s: Scene, script: seq<Circumstance>)
    requires s.sources == [] && s.queue.backup == 0 && s.progress.replace == 0
    ensures var r := AfterScript(GetTerms, Opened(GetTerms, s), script);
            && (OutranksKeys(s.requests) ==> r.ended == NotEnded)
            && (KeyIsReady(s) && Quiet(script) && script != [] && !script[0].fepConsumes ==>
                  && (r.ended == UserEvent <==> !OutranksKeys(s.requests))
                  && (r.ended != UserEvent ==> r.ended == NotEnded && r.scene.status == s.status))
  {
    if OutranksKeys(s.requests) {
      var k :| 0 <= k < |s.requests| && s.requests[k].completed && s.requests[k].priority > EActivePriorityWsEvents;
      StarvedWaitNeverEnds(GetTerms, Opened(GetTerms, s), script, k);
    }
    hide AfterScript, Opened, OutranksKeys, KeyIsReady, Quiet;
    if KeyIsReady(s) && Quiet(script) && script != [] && !script[0].fepConsumes {
      KeyEndsGet(GetTerms, s, script);
    }
  }

  /** Nothing is ready but requests of the program and signals of nobody's. */
  predicate Idle(s: Scene) {
    && !s.priorityKey && !s.objects.timer && s.objects.foreign == [] && UserIsIdle(s) && s.sources == []
    && s.queue.events == [] && s.queue.backup == 0
  }

  /** A poll of an idle program, begun with every signal accounted for, blocks
      exactly when some request has completed and, together with the explicit
      and the leaked signals, there are fewer than the poll may handle. */
  lemma {:induction false} IdlePollEndsExactly(t: Terms, s: Scene, script: seq<Circumstance>)
    requires !t.required.oplCompletion && t.maximum.Some? && t.required.user == UserEventsNone
    requires Quiet(script) && |script| > t.maximum.value
    requires Idle(s) && s.progress.handled == 0 && s.progress.replace == 0
    ensures var r := AfterScript(t, Opened(t, s), script);
            var n := Completed(s.requests);
            && (r.ended == NotEnded <==> 0 < n && n + s.program.explicit + s.queue.leak < t.maximum.value)
            && (r.ended == NotEnded ==> Semaphore(r.scene) == 0)
  {
    var s1 := Opened(t, s);
    BestRequestIsFirstOfHighest(s1.requests);
    QuietTail(script);
    assert Unconsumed(s1.sources) == 0;
    assert Semaphore(s1) == Completed(s.requests) + s.program.explicit + 1 + s.queue.leak;
    HandlersCanOffer(s1);
    if Completed(s.requests) > 0 {
      AbsorbingPollEnds(t, s1, script);
    } else {
      IdlePollEnds(t, s1, script[0]);
    }
    hide Semaphore, Completed, Unconsumed, AfterRound;
  }

  lemma {:induction false} IdlePollEnds(t: Terms, s: Scene, now: Circumstance)
    requires t.maximum.Some? && Idle(s) && BestRequest(s.requests).None? && BestSource(s.sources).None?
    requires now.completions == [] && Semaphore(s) > 0
    ensures AfterPass(t, s, now).ended != NotEnded
  {
    NotedKeeps(s.requests);
    NotedKeepsTaker(s);
    hide Semaphore, Completed, Unconsumed, BestRequest, BestSource, Noted;
  }

  // -------------------------------------------------------------------- IOWAIT

  const Iowait := Terms(EventsRequired(UserEventsNone, false, true), None)

  /** IOWAIT in an idle program returns at once exactly when there is something
      for it to take: a completed request, or a signal of nobody's. */
  lemma {:induction false} IdleIowaitEnds(s: Scene, script: seq<Circumstance>)
    requires Idle(s) && s.progress.replace == 0 && !s.program.suspended && Quiet(script) && script != []
    ensures AfterScript(Iowait, Opened(Iowait, s), script).ended != NotEnded
       <==> Completed(s.requests) + s.program.explicit + s.queue.leak > 0
  {
    QuietTail(script);
    assert Opened(Iowait, s) == s;
    assert Unconsumed(s.sources) == 0;
    if Semaphore(s) > 0 {
      IdleIowaitRound(s, script[0]);
    } else {
      BlockedStaysBlocked(Iowait, s, script);
    }
    hide AfterRound, Completed, Unconsumed;
  }

  lemma {:induction false} IdleIowaitRound(s: Scene, now: Circumstance)
    requires Idle(s) && !s.program.suspended
    ensures AfterRound(Iowait, s, now).ended != NotEnded
  {
    NotedKeeps(s.requests);
    NotedKeepsTaker(s);
    HandlersCanOffer(s);
    BestSourceIsLastOfHighest(s.sources);
    hide Completed, Unconsumed, BestRequest, BestSource, Noted;
  }

  /** A key arrives, and nothing takes it on the way. */
  predicate KeyArrives(script: seq<Circumstance>) {
    && script != [] && |script[0].completions| == 1 && script[0].completions[0].EventArrives?
    && script[0].completions[0].event.Key? && !script[0].fepConsumes
  }

  /** IOWAIT with nothing to take, while a KEYA is outstanding: the key ends it,
      and the wake-up raised for the KEYA is left for another IOWAIT. */
  lemma {:induction false} KeyEndsIowait(s: Scene, script: seq<Circumstance>)
    requires Idle(s) && s.status == Pending && s.progress.replace == 0 && !s.program.suspended
    requires Completed(s.requests) == 0 && s.program.explicit == 0 && s.queue.leak == 0
    requires s.program.statPtr.Some? && KeyArrives(script)
    ensures var r := AfterScript(Iowait, Opened(Iowait, s), script);
            r.ended == KeyRequest && r.scene.program.statPtr.None? && r.scene.program.explicit == 1
  {
    var key := script[0].completions[0].event;
    var s1 := s.(status := Ready(key));
    assert AllHappened(s, script[0].completions) == s1 by {
      assert script[0].completions == [EventArrives(key)];
      assert script[0].completions[..0] == [];
    }
    assert Opened(Iowait, s) == s;
    assert Semaphore(s1) == 1;
    BestRequestIsFirstOfHighest(s.requests);
    BestSourceIsLastOfHighest(s.sources);
    NotedKeeps(s.requests);
    NotedKeepsTaker(s1);
    hide Completed, Unconsumed, BestRequest, BestSource, Noted, KeyEvents, Semaphore;
  }

  // ---------------------------------------------------------- blocked for good

  ghost predicate NothingIsReady(s: Scene) {
    && !s.status.Ready? && !s.status.Cancelled? && !s.priorityKey && !s.objects.timer && s.objects.foreign == []
    && !QueueIsNotEmpty(s) && Unconsumed(s.sources) == 0
  }

  /** A wait whose thread is blocked while no request is uncollected and no signal
      has leaked: there is nothing to be done, and it is no poll. */
  lemma {:induction false} BlockedForGoodReason(t: Terms, s: Scene)
    requires Waits(t, s) && Semaphore(s) == 0 && s.queue.backup <= |s.queue.events| + s.queue.leak
    requires Completed(s.requests) == 0 && (s.queue.leak == 0 || t.maximum.Some?)
    ensures t.maximum.None? && NothingIsReady(s) && s.progress.replace == s.program.explicit
  {
    hide Completed, Unconsumed;
  }

  // ------------------------------------------------ runs that go wrong at the end

  /** One circumstance in which just this completes. */
  function Just(c: Completion): (now: Circumstance) {
    Nothing.(completions := [c])
  }

  lemma {:induction false} JustHappened(s: Scene, c: Completion)
    ensures AllHappened(s, Just(c).completions) == Happened(s, c)
  {
    assert Just(c).completions[..0] == [];
  }

  lemma {:induction false} OneStep(t: Terms, s: Scene, script: seq<Circumstance>)
    requires script != []
    ensures var r := AfterPass(t, s, script[0]);
            AfterScript(t, s, script) == if r.ended == NotEnded then AfterScript(t, r.scene, script[1..]) else r
  {
  }

  /** A fresh event that ends the wait changes nothing else. */
  lemma {:induction false} FreshEventEndsTheRound(t: Terms, s: Scene, now: Circumstance)
    requires UserMayBeServed(s) && !QueueIsNotEmpty(s) && s.status.Ready? && Matches(t.required.user, s.status.event)
    requires !now.fepConsumes && now.fepAppends == [] && UserIsFirst(SourcePriority(s), RequestPriority(s))
    ensures AfterRound(t, s, now) == Step(
      s.(status := Pending, requests := Noted(s.requests),
         progress := Progress(s.status.event, s.progress.handled + 1, s.progress.replace)), UserEvent)
  {
    WantedEventEndsTheRound(t, s, now);
    UserIsFirstExactly(SourcePriority(s), RequestPriority(s));
    NotedKeepsTaker(s);
    assert Appended(Appended(s.queue, KeyEvents(now.fepAppends)), []) == s.queue by {
      assert s.queue.events + KeyEvents(now.fepAppends) + [] == s.queue.events;
    }
    hide Completed, Unconsumed, BestRequest, BestSource, Noted, KeyEvents, Appended, SetUpArrayOfEventHandlers, UserIsFirst;
  }

  /** An event that GET does not want arrives and is looked past; the timer ticks
      twice; then a key is pressed. */
  const TwoTicksThenKey: seq<Circumstance> :=
    [Just(EventArrives(Message(false))), Nothing, Just(TimerExpires), Just(TimerExpires), Just(EventArrives(Key(13)))]

  /** A program with nothing in its queue and nothing outstanding. */
  ghost predicate Untouched(s: Scene) {
    && Idle(s) && s.status == Pending && s.objects.timerActive && s.program == Program(false, None, false, 0)
    && s.queue == Queue([], 0, 0, 0) && s.requests == [] && s.progress.handled == 0 && s.progress.replace == 0
  }

  /** The timer throws the event out of the backup region, and GET raises its
      signal all the same: one signal that belongs to nobody. */
  lemma {:induction false} TwoTicksLeakASignal(t: Terms, s: Scene)
    requires t == Terms(EventsRequired(UserEventsKeysOnly, false, false), None) && Untouched(s)
    ensures var r := AfterScript(t, Opened(t, s), TwoTicksThenKey);
            && r.ended == UserEvent && r.scene.queue == Queue([], 1, 0, 1) && r.scene.progress.replace == 0
            && r.scene.requests == [] && r.scene.objects == s.objects && r.scene.program == s.program
            && r.scene.status == Pending && !r.scene.priorityKey
  {
    assert Opened(t, s) == At(s, Queue([], 0, 0, 0), s.progress.event, 0);
    LeakBySteps(t, s, s.progress.event, TwoTicksThenKey);
    hide AfterScript, Opened, Idle;
  }

  /** The queue while an event that is not wanted is looked past and thrown away. */
  function LeakQueue(stage: nat): (q: Queue)
    requires stage < 4
  {
    if stage == 0 then Queue([Message(false)], 0, 0, 0)
    else if stage == 1 then Queue([Message(false)], 1, 0, 0)
    else if stage == 2 then Queue([Message(false)], 1, 1, 0)
    else Queue([], 1, 0, 1)
  }

  lemma {:induction false} LookedPast(t: Terms, s: Scene)
    requires NothingElse(t, s)
    ensures AfterPass(t, At(s, LeakQueue(0), Message(false), 1), Nothing)
         == Step(At(s, LeakQueue(1), Message(false), 1), NotEnded)
  {
    assert BackedUp(LeakQueue(0)) == LeakQueue(1);
    UnwantedIsBackedUp(t, s, LeakQueue(0), Message(false), 1, Nothing);
    hide AfterPass, At, NothingElse;
  }

  lemma {:induction false} TickedOnce(t: Terms, s: Scene)
    requires NothingElse(t, s)
    ensures AfterPass(t, At(s, LeakQueue(1), Message(false), 1), Just(TimerExpires))
         == Step(At(s, LeakQueue(2), Message(false), 2), NotEnded)
  {
    assert OneTick(LeakQueue(1)) == LeakQueue(2);
    TimerTicks(t, s, LeakQueue(1), Message(false), 1);
    hide AfterPass, At, NothingElse;
  }

  lemma {:induction false} TickedTwice(t: Terms, s: Scene)
    requires NothingElse(t, s)
    ensures AfterPass(t, At(s, LeakQueue(2), Message(false), 2), Just(TimerExpires))
         == Step(At(s, LeakQueue(3), Message(false), 3), NotEnded)
  {
    assert OneTick(LeakQueue(2)) == LeakQueue(3);
    TimerTicks(t, s, LeakQueue(2), Message(false), 2);
    hide AfterPass, At, NothingElse;
  }

  lemma {:induction false} LeakBySteps(t: Terms, s: Scene, e: Event, script: seq<Circumstance>)
    requires NothingElse(t, s) && |script| == 5 && script[0] == Just(EventArrives(Message(false))) && script[1] == Nothing
    requires script[2] == script[3] == Just(TimerExpires) && script[4] == Just(EventArrives(Key(13)))
    ensures AfterScript(t, At(s, Queue([], 0, 0, 0), e, 0), script) == Step(At(s, Queue([], 1, 0, 1), Key(13), 4), UserEvent)
  {
    MessageIsQueued(t, s, e, 0);
    LookedPast(t, s);
    TickedOnce(t, s);
    TickedTwice(t, s);
    KeyIsTaken(t, s, LeakQueue(3), Message(false), 3);
    hide AfterPass, AfterScript, At, NothingElse, Just, Nothing;
    FiveSteps(t, At(s, Queue([], 0, 0, 0), e, 0), At(s, LeakQueue(0), Message(false), 1), At(s, LeakQueue(1), Message(false), 1),
              At(s, LeakQueue(2), Message(false), 2), At(s, LeakQueue(3), Message(false), 3), script);
  }

  lemma {:induction false} FiveSteps(t: Terms, s0: Scene, s1: Scene, s2: Scene, s3: Scene, s4: Scene, script: seq<Circumstance>)
    requires |script| == 5
    requires AfterPass(t, s0, script[0]) == Step(s1, NotEnded) && AfterPass(t, s1, script[1]) == Step(s2, NotEnded)
    requires AfterPass(t, s2, script[2]) == Step(s3, NotEnded) && AfterPass(t, s3, script[3]) == Step(s4, NotEnded)
    ensures AfterScript(t, s0, script) == AfterPass(t, s4, script[4])
  {
    hide AfterPass;
    OneStep(t, s0, script);
    OneStep(t, s1, script[1..]);
    OneStep(t, s2, script[2..]);
    OneStep(t, s3, script[3..]);
    OneStep(t, s4, script[4..]);
    assert AfterScript(t, AfterPass(t, s4, script[4]).scene, []) == Step(AfterPass(t, s4, script[4]).scene, NotEnded);
  }

  ghost function At(s: Scene, q: Queue, e: Event, handled: int): Scene {
    s.(queue := q, progress := Progress(e, handled, 0))
  }

  ghost predicate NothingElse(t: Terms, s: Scene) {
    && t == Terms(EventsRequired(UserEventsKeysOnly, false, false), None)
    && !s.priorityKey && s.objects == Objects(true, false, []) && s.program == Program(false, None, false, 0)
    && s.requests == [] && s.sources == [] && s.status == Pending
  }

  lemma {:induction false} NothingElseFacts(t: Terms, s: Scene, q: Queue, e: Event, handled: int)
    requires NothingElse(t, s)
    ensures var s1 := At(s, q, e, handled);
            && SourcePriority(s1).None? && RequestPriority(s1).None? && CompletionsNoted(s1) == s1
            && HandlersOf(s1) == [UserHandler, FinalHandler, FinalHandler, FinalHandler]
            && Semaphore(s1) == |q.events| + q.leak - q.backup
  {
    assert Noted(s.requests) == s.requests;
  }

  lemma {:induction false} MessageIsQueued(t: Terms, s: Scene, e: Event, handled: int)
    requires NothingElse(t, s)
    ensures AfterPass(t, At(s, Queue([], 0, 0, 0), e, handled), Just(EventArrives(Message(false))))
         == Step(At(s, Queue([Message(false)], 0, 0, 0), Message(false), handled + 1), NotEnded)
  {
    var now := Just(EventArrives(Message(false)));
    var q := Queue([], 0, 0, 0);
    var s0 := At(s, q, e, handled);
    JustHappened(s0, EventArrives(Message(false)));
    var s1 := s0.(status := Ready(Message(false)));
    NothingElseFacts(t, s, q, e, handled);
    assert CompletionsNoted(s1) == s1 && HandlersOf(s1) == HandlersOf(s0);
    assert Semaphore(s1) == 1;
    assert Appended(Appended(q, KeyEvents(now.fepAppends)), [Message(false)]) == Queue([Message(false)], 0, 0, 0);
    hide Semaphore, Completed, Unconsumed, BestRequest, BestSource, Noted, KeyEvents, HandlersOf;
  }

  lemma {:induction false} UnwantedIsBackedUp(t: Terms, s: Scene, q: Queue, e: Event, handled: int, now: Circumstance)
    requires NothingElse(t, s) && |q.events| > q.backup && !q.events[q.backup].Key? && now.completions == []
    ensures AfterPass(t, At(s, q, e, handled), now)
         == Step(At(s, BackedUp(q), q.events[q.backup], handled), NotEnded)
  {
    NothingElseFacts(t, s, q, e, handled);
    hide Semaphore, Completed, Unconsumed, BestRequest, BestSource, Noted, HandlersOf, BackedUp;
  }

  lemma {:induction false} TimerTicks(t: Terms, s: Scene, q: Queue, e: Event, handled: int)
    requires NothingElse(t, s) && |q.events| <= q.backup <= |q.events| + q.leak && q.expiring <= |q.events|
    ensures AfterPass(t, At(s, q, e, handled), Just(TimerExpires)) == Step(At(s, OneTick(q), e, handled + 1), NotEnded)
  {
    var s0 := At(s, q, e, handled);
    JustHappened(s0, TimerExpires);
    var s1 := s0.(objects := Objects(true, true, []));
    NothingElseFacts(t, s, q, e, handled);
    assert CompletionsNoted(s1) == s1 && HandlersOf(s1) == HandlersOf(s0);
    assert Semaphore(s1) == Semaphore(s0) + 1;
    hide Semaphore, Completed, Unconsumed, BestRequest, BestSource, Noted, HandlersOf;
  }

  lemma {:induction false} KeyIsTaken(t: Terms, s: Scene, q: Queue, e: Event, handled: int)
    requires NothingElse(t, s) && |q.events| <= q.backup <= |q.events| + q.leak
    ensures AfterPass(t, At(s, q, e, handled), Just(EventArrives(Key(13))))
         == Step(At(s, q, Key(13), handled + 1), UserEvent)
  {
    var s0 := At(s, q, e, handled);
    JustHappened(s0, EventArrives(Key(13)));
    var s1 := s0.(status := Ready(Key(13)));
    NothingElseFacts(t, s, q, e, handled);
    assert SourcePriority(s1) == SourcePriority(s0) && RequestPriority(s1) == RequestPriority(s0);
    assert Semaphore(s1) == Semaphore(s0) + 1;
    FreshEventEndsTheRound(t, s1, Just(EventArrives(Key(13))));
    hide Semaphore, Completed, Unconsumed, BestRequest, BestSource, Noted, AfterRound;
  }

  /** A priority key resumes the program. What was waited for meanwhile ends the
      wait; if nothing was, every event that was looked past is looked at again, with
      its signal, and so is every completed request. */
  lemma {:induction false} ResumedLooksAgain(t: Terms, s: Scene, now: Circumstance)
    requires s.priorityKey && s.program.suspended && !now.suspends && !t.required.terminatesSuspension
    ensures var r := AfterPriorityKey(t, s, now);
            && !r.scene.program.suspended && r.scene.queue.events == s.queue.events
            && (r.ended == PriorityKey <==> exists k :: 0 <= k < |s.sources| && s.sources[k].consumed)
            && (r.ended != PriorityKey ==>
                  && r.ended == NotEnded && r.scene.queue.backup == 0 && r.scene.progress.replace == 0
                  && Semaphore(r.scene) == Semaphore(s) - 1 + s.queue.backup + s.progress.replace)
  {
    hide Completed, Unconsumed;
  }
}
