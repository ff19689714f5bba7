/** PAUSE over whole runs: what ends it, and what it leaves in the event queue.
    It puts the last event that the wait looked at into the queue, though only a
    wait for keys has taken it out. */
module PauseRuns {
  import opened EventQueue
  import opened EventSources
  import opened Scenes
  import opened WaitRuns
  import opened Wrappers

  /** The timer that ends a PAUSE. */
  const PauseTimer := Source(EActivePriorityWsEvents - 1, false, false)

  predicate OutranksTimer(rs: seq<Request>) {
    exists k :: 0 <= k < |rs| && rs[k].completed && rs[k].priority >= EActivePriorityWsEvents - 1
  }

  /** The timer of the wait completes, and then nothing else. */
  ghost predicate TimeIsUp(script: seq<Circumstance>) {
    script != [] && script[0].completions == [SourceCompletes(0)] && Quiet(script[1..])
  }

  /** The timer has not completed, and nothing else is left to do. */
  predicate TimerIsLeft(s: Scene) {
    && !s.priorityKey && !s.objects.timer && s.objects.foreign == [] && UserIsIdle(s) && s.sources == [PauseTimer]
    && !s.program.suspended && s.progress.replace == 0 && s.queue.backup <= |s.queue.events| + s.queue.leak
  }

  /** Its time is up and nothing else happens. */
  lemma {:induction false} TimerEndsWait(t: Terms, s: Scene, script: seq<Circumstance>)
    requires !t.required.oplCompletion && t.maximum.None? && TimerIsLeft(s) && TimeIsUp(script)
    ensures var r := AfterScript(t, s, script);
            && (r.ended == AdditionalSource <==> !OutranksTimer(s.requests))
            && (OutranksTimer(s.requests) ==> r.ended == NotEnded)
            && (r.ended == AdditionalSource ==> r.scene.progress.replace == 0)
            && r.scene.queue == s.queue
  {
    var done := PauseTimer.(completed := true);
    var script1 := [script[0].(completions := [])] + script[1..];
    CompletedBefore(t, s, script);
    var s1 := AllHappened(s, script[0].completions);
    assert s1 == s.(sources := [done]) by {
      assert script[0].completions[..0] == [];
    }
    assert AfterScript(t, s, script) == AfterScript(t, s1, script1);
    hide AfterScript, OutranksTimer, Semaphore;
    TimerIsCounted(s1);
    CompletedSourceEndsTheWait(t, s1, script1);
  }

  /** PAUSE in an idle program. */
  lemma {:induction false} TimerEndsPause(t: Terms, s: Scene, script: seq<Circumstance>)
    requires !t.required.oplCompletion && t.maximum.None?
    requires Idle(s.(sources := [])) && s.sources == [PauseTimer] && !s.program.suspended && s.progress.replace == 0
    requires TimeIsUp(script)
    ensures var r := AfterScript(t, Opened(t, s), script);
            && (r.ended == AdditionalSource <==> !OutranksTimer(s.requests))
            && (OutranksTimer(s.requests) ==> r.ended == NotEnded)
            && (r.ended == AdditionalSource ==> r.scene.progress.replace == 0)
  {
    TimerEndsWait(t, Opened(t, s), script);
  }

  lemma {:induction false} TimerIsCounted(s: Scene)
    requires TimerIsLeft(s.(sources := [PauseTimer])) && s.sources == [PauseTimer.(completed := true)]
    ensures Semaphore(s) > 0 && SourcePriority(s) == Some(PauseTimer.priority)
    ensures OutranksTimer(s.requests) <==> RequestPriority(s).Some? && RequestPriority(s).value >= PauseTimer.priority
  {
    BestSourceIsLastOfHighest(s.sources);
    BestRequestIsFirstOfHighest(s.requests);
    UnconsumedNone(s.sources);
    assert s.sources[0].completed && !s.sources[0].consumed;
    assert Unconsumed(s.sources) > 0 && BestSource(s.sources) == Some(0);
    hide Completed, Unconsumed, BestRequest, BestSource;
  }

  /** The timer of a PAUSE completes, then nothing, then a key is pressed. */
  const TimerThenKey: seq<Circumstance> := [Just(SourceCompletes(0)), Nothing, Just(EventArrives(Key(13)))]

  /** A completed request of the timer's own priority absorbs the timer's signal
      and its own. The key then ends the wait, with two signals to put back and
      one that anything is owed: cancelling the timer must wait for a signal
      that has been taken. */
  lemma {:induction false} TimerThenKeyOverdraws(t: Terms, s: Scene)
    requires t == Terms(EventsRequired(UserEventsKeysOnly, false, false), None)
    requires Idle(s.(sources := [])) && s.sources == [PauseTimer] && s.status == Pending && !s.program.suspended
    requires s.progress.replace == 0 && s.program.explicit == 0 && s.queue.leak == 0
    requires |s.requests| == 1 && s.requests[0].completed && s.requests[0].priority == PauseTimer.priority
    ensures var r := AfterScript(t, Opened(t, s), TimerThenKey);
            r.ended == UserEvent && r.scene.progress.event == Key(13) && r.scene.progress.replace == 2 && Owing(r.scene) == 1
  {
    var s0 := Opened(t, s);
    var s1 := s0.(sources := [PauseTimer.(completed := true)]);
    JustHappened(s0, SourceCompletes(0));
    assert Happened(s0, SourceCompletes(0)) == s1;
    assert s1.requests[..0] == [] && s1.sources[..0] == [];
    assert Semaphore(s1) == 2;
    assert RequestAbsorbs(t, s1);
    AbsorbingRound(t, s1, TimerThenKey[0]);
    var s2 := Absorbed(s1);
    AbsorbingRound(t, s2, Nothing);
    var s3 := Absorbed(s2);
    JustHappened(s3, EventArrives(Key(13)));
    var s4 := s3.(status := Ready(Key(13)));
    assert Semaphore(s4) == Semaphore(s3) + 1;
    NotedKeeps(s1.requests);
    NotedKeeps(s2.requests);
    FreshEventEndsTheRound(t, s4, TimerThenKey[2]);
    OneStep(t, s0, TimerThenKey);
    OneStep(t, s2, TimerThenKey[1..]);
    OneStep(t, s3, TimerThenKey[2..]);
    hide AfterRound, Semaphore, Completed, Unconsumed, BestRequest, BestSource;
  }

  // ------------------------------------------------ what happens to the events

  /** The type of event by which PAUSE tells that its wait has seen none. */
  const KDummyEvent := Other(-1)

  /** A wait for the timer alone, and nothing about but keys and other events. */
  ghost predicate Pausing(t: Terms, s: Scene) {
    && t == Terms(EventsRequired(UserEventsNone, false, false), None)
    && !s.priorityKey && !s.objects.timer && !s.program.suspended && s.program.statPtr.None?
    && s.queue.backup <= |s.queue.events|
    && (forall k :: 0 <= k < |s.sources| ==> s.sources[k].priority < EActivePriorityWsEvents)
  }

  /** No priority key is pressed, the expiry timer does not tick, no front-end
      processor takes an event, and there is memory for the queue. */
  ghost predicate Plain(script: seq<Circumstance>) {
    forall k :: 0 <= k < |script| ==> IsPlain(script[k])
  }

  ghost predicate IsPlain(now: Circumstance) {
    && PriorityKeyArrives !in now.completions && TimerExpires !in now.completions
    && !now.fepConsumes && !now.outOfMemory
  }

  /** Once every event in the queue has been looked at, the one remembered is the
      last of them. */
  ghost predicate RemembersLast(s: Scene) {
    s.queue.backup == |s.queue.events| ==> s.progress.event == Remembered(s.queue.events)
  }

  function Remembered(events: seq<Event>): Event {
    if events == [] then KDummyEvent else events[|events| - 1]
  }

  lemma {:induction false} PlainHappened(t: Terms, s: Scene, cs: seq<Completion>)
    requires Pausing(t, s) && RemembersLast(s) && PriorityKeyArrives !in cs && TimerExpires !in cs
    ensures Pausing(t, AllHappened(s, cs)) && RemembersLast(AllHappened(s, cs))
    ensures AllHappened(s, cs).queue == s.queue
  {
    if cs != [] {
      PlainHappened(t, s, cs[..|cs| - 1]);
    }
  }

  /** What a turn of such a wait keeps. */
  ghost predicate KeepsPausing(t: Terms, s: Scene, r: Step) {
    Pausing(t, r.scene) && RemembersLast(r.scene) && s.queue.events <= r.scene.queue.events
  }

  lemma {:induction false} PlainObject(t: Terms, s: Scene, minimum: TInt, now: Circumstance)
    requires Pausing(t, s) && RemembersLast(s) && Due(s, minimum)
    ensures KeepsPausing(t, s, Step(AfterObject(s, minimum, now), NotEnded))
  {
    hide KeyEvents;
  }

  lemma {:induction false} PlainHandler(t: Terms, s: Scene, offer: OfferFunction, now: Circumstance)
    requires Pausing(t, s) && RemembersLast(s) && IsPlain(now) && CanOffer(s, offer)
    ensures var r := AfterHandler(t, s, offer, now);
            KeepsPausing(t, s, r) && r.ended == if offer == ToAdditionalSources then AdditionalSource else NotEnded
  {
    hide BestRequest, BestSource, KeyEvents;
  }

  lemma {:induction false} PlainRound(t: Terms, s: Scene, now: Circumstance)
    requires Pausing(t, s) && RemembersLast(s) && IsPlain(now)
    ensures var r := AfterRound(t, s, now);
            && r.ended in {NotEnded, AdditionalSource} && KeepsPausing(t, s, r)
            && (r.ended == AdditionalSource ==> r.scene.queue.backup == |r.scene.queue.events|)
  {
    var s1 := CompletionsNoted(s);
    var h := Taker(s1);
    HandlersCanOffer(s1);
    UserBeforeSources(t, s1);
    hide BestRequest, BestSource, Noted, SetUpArrayOfEventHandlers, AfterObject, AfterHandler, RemembersLast;
    if Due(s1, h.priority) {
      PlainObject(t, s1, h.priority, now);
    } else {
      PlainHandler(t, s1, h.offer, now);
    }
  }

  lemma {:induction false} UserBeforeSources(t: Terms, s: Scene)
    requires Pausing(t, s)
    ensures HandlersOf(s)[0].offer != ToAdditionalSources
  {
    BestSourceIsLastOfHighest(s.sources);
  }

  /** Over every plain script, whatever completes and arrives: the queue keeps its
      events and gets those that arrive; and if the timer ends the wait, all have
      been looked at and the last one is remembered. */
  lemma {:induction false} TimerLeavesLastRemembered(t: Terms, s: Scene, script: seq<Circumstance>)
    requires Pausing(t, s) && RemembersLast(s) && Plain(script)
    ensures var r := AfterScript(t, s, script);
            && r.ended in {NotEnded, AdditionalSource} && s.queue.events <= r.scene.queue.events
            && (r.ended == AdditionalSource ==> r.scene.progress.event == Remembered(r.scene.queue.events))
    decreases |script|
  {
    hide AfterRound, Semaphore, Pausing;
    if script != [] {
      PlainHappened(t, s, script[0].completions);
      var s1 := AllHappened(s, script[0].completions);
      var r := AfterPass(t, s, script[0]);
      if Semaphore(s1) > 0 {
        PlainRound(t, s1, script[0]);
      }
      if r.ended == NotEnded {
        TimerLeavesLastRemembered(t, r.scene, script[1..]);
      }
    }
  }

  /** The wait only looks at an event that is there already. */
  lemma {:induction false} LooksAtOne(t: Terms, s: Scene, now: Circumstance)
    requires Pausing(t, s) && s.objects.foreign == [] && BestSource(s.sources).None? && !OutranksTimer(s.requests)
    requires s.queue.backup < |s.queue.events| && now.completions == [] && Semaphore(s) > 0
    ensures AfterPass(t, s, now) == Step(
      s.(requests := Noted(s.requests), queue := BackedUp(s.queue),
         progress := s.progress.(event := s.queue.events[s.queue.backup])), NotEnded)
  {
    BestRequestIsFirstOfHighest(s.requests);
    NotedKeeps(s.requests);
    NotedKeepsTaker(s);
    UserIsFirstExactly(SourcePriority(s), RequestPriority(s));
    hide Completed, Unconsumed, Semaphore, BestRequest, BestSource, Noted, SetUpArrayOfEventHandlers;
  }

  /** A PAUSE that only its timer can end. */
  ghost predicate OnlyTimerLeft(t: Terms, s: Scene) {
    && Pausing(t, s) && s.objects.foreign == [] && s.status == Pending && s.sources == [PauseTimer]
    && s.progress.replace == 0 && !OutranksTimer(s.requests)
  }

  /** Afterwards the wait is as it was, with one event more looked at. */
  lemma {:induction false} LookedAtOne(t: Terms, s: Scene, now: Circumstance)
    requires OnlyTimerLeft(t, s) && s.queue.backup < |s.queue.events| && now.completions == []
    ensures var r := AfterPass(t, s, now);
            && r.ended == NotEnded && OnlyTimerLeft(t, r.scene)
            && r.scene.queue.events == s.queue.events && r.scene.queue.backup == s.queue.backup + 1
  {
    BestSourceIsLastOfHighest(s.sources);
    SignalForEvent(s);
    LooksAtOne(t, s, now);
    NotedKeeps(s.requests);
    hide AfterPass, Noted;
  }

  /** Nothing happens until each event has been looked at, and then the time is
      up. */
  ghost predicate LooksThenTimeIsUp(script: seq<Circumstance>, n: nat) {
    && n < |script| && (forall k :: 0 <= k < n ==> script[k].completions == []) && TimeIsUp(script[n..])
  }

  lemma {:induction false} LooksOn(script: seq<Circumstance>, n: nat)
    requires LooksThenTimeIsUp(script, n)
    ensures if n == 0 then TimeIsUp(script)
            else script != [] && script[0].completions == [] && LooksThenTimeIsUp(script[1..], n - 1)
  {
    if n == 0 {
      assert script[0..] == script;
    } else {
      assert script[1..][n - 1..] == script[n..];
    }
  }

  lemma {:induction false} TimerEndsPauseNow(t: Terms, s: Scene, script: seq<Circumstance>)
    requires OnlyTimerLeft(t, s) && s.queue.backup == |s.queue.events| && TimeIsUp(script)
    ensures var r := AfterScript(t, s, script);
            r.ended == AdditionalSource && r.scene.queue.events == s.queue.events && r.scene.progress.replace == 0
  {
    hide AfterScript, OutranksTimer, TimeIsUp;
    TimerEndsWait(t, s, script);
  }

  /** PAUSE ends although there are events, and leaves them in the queue. */
  lemma {:induction false} TimerEndsPauseWithEvents(t: Terms, s: Scene, script: seq<Circumstance>)
    requires OnlyTimerLeft(t, s) && s.queue.backup <= |s.queue.events|
    requires LooksThenTimeIsUp(script, |s.queue.events| - s.queue.backup)
    ensures var r := AfterScript(t, s, script);
            r.ended == AdditionalSource && r.scene.queue.events == s.queue.events && r.scene.progress.replace == 0
    decreases |script|
  {
    hide LooksThenTimeIsUp, AfterScript, OnlyTimerLeft, AfterPass, TimeIsUp, Pausing;
    LooksOn(script, |s.queue.events| - s.queue.backup);
    if |s.queue.events| == s.queue.backup {
      TimerEndsPauseNow(t, s, script);
    } else {
      LookedAtOne(t, s, script[0]);
      OneStep(t, s, script);
      TimerEndsPauseWithEvents(t, AfterPass(t, s, script[0]).scene, script[1..]);
    }
  }

  lemma {:induction false} SignalForEvent(s: Scene)
    requires s.queue.backup < |s.queue.events| && s.progress.replace == 0
    ensures Semaphore(s) > 0
  {
    hide Completed, Unconsumed;
  }

  // ------------------------------------------------------------ a key ends it

  /** A wait for keys takes the first of those that are there. */
  lemma {:induction false} FirstKeyIsTaken(t: Terms, s: Scene, script: seq<Circumstance>)
    requires t == Terms(EventsRequired(UserEventsKeysOnly, false, false), None)
    requires UserMayBeServed(s) && KeysOf(s.queue.events) != [] && s.queue.backup == 0 && s.progress.replace == 0
    requires BestSource(s.sources).None? && !OutranksKeys(s.requests) && Quiet(script) && script != []
    ensures var r := AfterScript(t, Opened(t, s), script);
            var keys := KeysOf(s.queue.events);
            && r.ended == UserEvent && r.scene.progress.event == keys[0] && r.scene.queue.events == keys[1..]
            && r.scene.progress.replace == 0
  {
    var s1 := Opened(t, s);
    KeysOfIsKeys(s.queue.events);
    SignalForEvent(s1);
    QuietTail(script);
    BestRequestIsFirstOfHighest(s1.requests);
    UserIsFirstExactly(SourcePriority(s1), RequestPriority(s1));
    assert s1.queue.events == KeysOf(s.queue.events) && s1.queue.backup == 0 && s1.progress == s.progress;
    hide Completed, Unconsumed, Semaphore, BestRequest, SetUpArrayOfEventHandlers, KeysOf, OutranksKeys, AfterRound, Opened;
    KeyIsServed(t, s1, script[0]);
    OneStep(t, s1, script);
  }

  lemma {:induction false} KeyIsServed(t: Terms, s: Scene, now: Circumstance)
    requires t.required.user == UserEventsKeysOnly && UserMayBeServed(s) && s.queue.backup == 0
    requires s.queue.events != [] && s.queue.events[0].Key? && UserIsFirst(SourcePriority(s), RequestPriority(s))
    ensures var r := AfterRound(t, s, now);
            && r.ended == UserEvent && r.scene.progress.event == s.queue.events[0]
            && r.scene.queue.events == s.queue.events[1..] && r.scene.progress.replace == s.progress.replace
  {
    NotedKeeps(s.requests);
    NotedKeepsTaker(s);
    UserIsFirstExactly(SourcePriority(s), RequestPriority(s));
    assert Remove(s.queue.events, 0) == s.queue.events[1..];
    NobodyElseIsDue(s.objects.foreign, EActivePriorityWsEvents, EActivePriorityWsEvents);
    hide Completed, Unconsumed, Semaphore, BestRequest, BestSource, Noted, SetUpArrayOfEventHandlers;
  }

  // ------------------------------------------------------------- the keyword

  /** A positive delay is for the timer alone, zero for keys alone. */
  function PauseTerms(delay: int): Terms {
    Terms(EventsRequired(if delay > 0 then UserEventsNone else UserEventsKeysOnly, false, false), None)
  }

  function PauseSources(delay: int): seq<Source> {
    if delay == 0 then [] else [PauseTimer]
  }

  ghost function AfterPause(delay: int, s: Scene, script: seq<Circumstance>): Step {
    AfterScript(PauseTerms(delay), Opened(PauseTerms(delay), s), script)
  }

  /** A new wait, which remembers no event yet. */
  ghost predicate Begins(delay: int, s: Scene) {
    && s.sources == PauseSources(delay) && s.progress == Progress(KDummyEvent, 0, 0) && s.queue.backup == 0
  }

  /** What the wait leaves in the queue, and the event it remembers. */
  ghost function QueueAfterPause(delay: int, r: Step, ok: bool): seq<Event> {
    (if PauseTerms(delay).required.user == UserEventsKeysOnly then KeysOf(r.scene.queue.events) else r.scene.queue.events)
    + if r.scene.progress.event == KDummyEvent || !ok then [] else [r.scene.progress.event]
  }

  /** The events from before are still there, and if there are any at all the
      last one is there once more. */
  predicate LastIsTwice(before: seq<Event>, after: seq<Event>) {
    if after == [] || after[|after| - 1] == KDummyEvent then before <= after
    else
      var n := |after| - 1;
      n > 0 && after[n - 1] == after[n] && before <= after[..n]
  }

  /** They are there as before, and the last one once more. */
  function WithLastAgain(q: seq<Event>): seq<Event> {
    q + if Remembered(q) == KDummyEvent then [] else [q[|q| - 1]]
  }

  function FirstLast(q: seq<Event>): seq<Event>
    requires q != []
  {
    q[1..] + [q[0]]
  }

  ghost predicate StarvesPause(delay: int, rs: seq<Request>) {
    if delay > 0 then OutranksTimer(rs) else OutranksKeys(rs)
  }

  lemma {:induction false} StarvedPauseNeverEnds(delay: int, s: Scene, script: seq<Circumstance>)
    requires Begins(delay, s) && StarvesPause(delay, s.requests)
    ensures AfterPause(delay, s, script).ended == NotEnded
  {
    var k :| 0 <= k < |s.requests| && s.requests[k].completed
      && s.requests[k].priority >= if delay > 0 then EActivePriorityWsEvents - 1 else EActivePriorityWsEvents + 1;
    StarvedWaitNeverEnds(PauseTerms(delay), Opened(PauseTerms(delay), s), script, k);
  }

  /** A PAUSE for the timer alone, begun in the middle of a program that waits for
      no key. */
  ghost predicate PausesPlainly(s: Scene) {
    Begins(1, s) && Pausing(PauseTerms(1), s)
  }

  /** And nothing but the queue has to be seen to. */
  ghost predicate PausesQuietly(s: Scene) {
    PausesPlainly(s) && s.status == Pending && s.objects.foreign == [] && !OutranksTimer(s.requests)
  }

  /** A key is in the queue, and no request comes before it. */
  predicate KeyIsQueued(s: Scene) {
    UserMayBeServed(s) && KeysOf(s.queue.events) != [] && !OutranksKeys(s.requests)
  }

  lemma {:induction false} PlainPauseRepeatsLast(delay: int, s: Scene, script: seq<Circumstance>)
    requires delay > 0 && PausesPlainly(s) && Plain(script)
    ensures var r := AfterPause(delay, s, script);
            && r.ended in {NotEnded, AdditionalSource}
            && (r.ended == AdditionalSource ==> LastIsTwice(s.queue.events, QueueAfterPause(delay, r, true)))
  {
    assert Opened(PauseTerms(delay), s) == s && RemembersLast(s) && PauseTerms(delay) == PauseTerms(1);
    var r := AfterScript(PauseTerms(delay), s, script);
    hide AfterScript, Opened, RemembersLast, Pausing, Plain, LastIsTwice, Remembered, Begins, KeysOf;
    TimerLeavesLastRemembered(PauseTerms(delay), s, script);
    LastTwice(s.queue.events, r.scene.queue.events);
  }

  lemma {:induction false} LastTwice(before: seq<Event>, events: seq<Event>)
    requires before <= events
    ensures LastIsTwice(before, events + if Remembered(events) == KDummyEvent then [] else [Remembered(events)])
  {
    var last := Remembered(events);
    if last != KDummyEvent {
      assert (events + [last])[..|events|] == events;
    } else {
      assert events + [] == events;
    }
  }

  /** Even if nothing happens but what has to. */
  lemma {:induction false} PauseRepeatsLast(delay: int, s: Scene, script: seq<Circumstance>)
    requires delay > 0 && PausesQuietly(s)
    requires Plain(script) && LooksThenTimeIsUp(script, |s.queue.events|)
    ensures var r := AfterPause(delay, s, script);
            && r.ended == AdditionalSource && r.scene.progress.replace == 0
            && QueueAfterPause(delay, r, true) == WithLastAgain(s.queue.events)
  {
    assert Opened(PauseTerms(delay), s) == s && RemembersLast(s) && s.queue.backup == 0;
    assert OnlyTimerLeft(PauseTerms(delay), s);
    assert PauseTerms(delay).required.user == UserEventsNone;
    hide AfterScript, OutranksTimer, Opened, RemembersLast, Pausing, PausesQuietly, OnlyTimerLeft, Plain, Begins, KeysOf;
    hide LooksThenTimeIsUp, PauseTerms;
    TimerLeavesLastRemembered(PauseTerms(delay), s, script);
    TimerEndsPauseWithEvents(PauseTerms(delay), s, script);
  }

  /** A key that ends the wait goes behind the others. */
  lemma {:induction false} KeyGoesLast(delay: int, s: Scene, script: seq<Circumstance>)
    requires delay <= 0 && Begins(delay, s) && KeyIsQueued(s) && Quiet(script) && script != []
    ensures var r := AfterPause(delay, s, script);
            && r.ended == UserEvent && r.scene.progress.replace == 0
            && QueueAfterPause(delay, r, true) == FirstLast(KeysOf(s.queue.events))
  {
    var keys := KeysOf(s.queue.events);
    BestSourceIsLastOfHighest(s.sources);
    FirstKeyIsTaken(PauseTerms(delay), s, script);
    KeysOfIsKeys(s.queue.events);
    KeysOfIsKeys(keys[1..]);
    hide AfterScript, KeysOf;
  }

  /** In an idle program, when its time is up. */
  lemma {:induction false} IdlePauseEnds(delay: int, s: Scene, script: seq<Circumstance>)
    requires delay != 0 && Begins(delay, s) && Idle(s.(sources := [])) && !s.program.suspended && TimeIsUp(script)
    ensures var r := AfterPause(delay, s, script);
            && (r.ended == AdditionalSource <==> !OutranksTimer(s.requests))
            && (r.ended != AdditionalSource ==> r.ended == NotEnded)
            && (r.ended == AdditionalSource ==> r.scene.progress.replace == 0)
  {
    TimerEndsPause(PauseTerms(delay), s, script);
  }

  /** The keyword, whatever the delay. */
  lemma {:induction false} PauseEnds(delay: int, s: Scene, script: seq<Circumstance>)
    requires Begins(delay, s)
    ensures var r := AfterPause(delay, s, script);
            && (StarvesPause(delay, s.requests) ==> r.ended == NotEnded)
            && (delay != 0 && Idle(s.(sources := [])) && !s.program.suspended && TimeIsUp(script) ==>
                  if OutranksTimer(s.requests) then r.ended == NotEnded
                  else r.ended == AdditionalSource && r.scene.progress.replace == 0)
            && (delay > 0 && PausesPlainly(s) && Plain(script) && r.ended != NotEnded ==>
                  LastIsTwice(s.queue.events, QueueAfterPause(delay, r, true)))
            && (delay > 0 && PausesQuietly(s) && Plain(script) && LooksThenTimeIsUp(script, |s.queue.events|) ==>
                  && r.ended != NotEnded && r.scene.progress.replace == 0
                  && QueueAfterPause(delay, r, true) == WithLastAgain(s.queue.events))
            && (delay <= 0 && KeyIsQueued(s) && Quiet(script) && script != [] ==>
                  && r.ended != NotEnded && r.scene.progress.replace == 0
                  && QueueAfterPause(delay, r, true) == FirstLast(KeysOf(s.queue.events)))
  {
    hide AfterPause, Pausing, PausesPlainly, KeyIsQueued, Plain, StarvesPause, OutranksTimer, KeysOf;
    hide QueueAfterPause, LastIsTwice, WithLastAgain, LooksThenTimeIsUp, TimeIsUp, Begins, Idle;
    if StarvesPause(delay, s.requests) {
      StarvedPauseNeverEnds(delay, s, script);
    }
    if delay != 0 && Idle(s.(sources := [])) && !s.program.suspended && TimeIsUp(script) {
      IdlePauseEnds(delay, s, script);
    }
    if delay > 0 && PausesPlainly(s) && Plain(script) {
      PlainPauseRepeatsLast(delay, s, script);
      if PausesQuietly(s) && LooksThenTimeIsUp(script, |s.queue.events|) {
        PauseRepeatsLast(delay, s, script);
      }
    }
    if delay <= 0 && KeyIsQueued(s) && Quiet(script) && script != [] {
      KeyGoesLast(delay, s, script);
    }
  }
}
