/** A wait as a function: what one signal does to everything the event loop
    looks at, and what a whole wait does while a script of circumstances is
    played. A script may be any sequence, so a statement about every script is
    one about every interleaving of the program with its environment. */
module Scenes {
  import opened EventQueue
  import opened EventSources
  import opened Wrappers

  datatype UserEvents = UserEventsNone | UserEventsKeysOnly | UserEventsAny

  /** A member of TUserEventsRequired together with the two private flags. */
  datatype EventsRequired = EventsRequired(user: UserEvents, terminatesSuspension: bool, oplCompletion: bool)

  /** What a wait is for, and how many events a poll may handle. */
  datatype Terms = Terms(required: EventsRequired, maximum: Option<nat>)

  predicate Matches(user: UserEvents, e: Event) {
    user == UserEventsAny || (user == UserEventsKeysOnly && e.Key?)
  }

  /** The request for the next window server event. */
  datatype WsStatus = NotRequested | Pending | Ready(event: Event) | Cancelled

  datatype EndedBy = NotEnded | UserEvent | OplRequest | AdditionalSource | ExplicitSignal | PriorityKey | KeyRequest | PollLimit

  function Bit(b: bool): (n: nat)
    ensures n <= 1
  {
    if b then 1 else 0
  }

  /** Something that completes while the thread waits. */
  datatype Completion =
    | RequestCompletes(request: nat)
    | SourceCompletes(source: nat)
    | EventArrives(event: Event)
    | PriorityKeyArrives
    | TimerExpires
    | ObjectIsReady(priority: TInt)

  /** What happens before the thread next runs, and what the code that is not
      part of the runtime does if it is asked: which active object runs, what a
      front-end processor queues and whether it takes the event, whether there
      is memory for an entry of the queue, and whether a priority key leaves the
      program suspended. */
  datatype Circumstance = Circumstance(completions: seq<Completion>, runs: nat, fepAppends: seq<int>, fepConsumes: bool,
                                       outOfMemory: bool, suspends: bool)

  const Nothing := Circumstance([], 0, [], false, false, false)

  /** Active objects of the thread: the expiry timer, and the priorities of the
      others that are ready. */
  datatype Objects = Objects(timerActive: bool, timer: bool, foreign: seq<TInt>)

  datatype Program = Program(suspended: bool, statPtr: Option<int>, keysOnly: bool, explicit: nat)

  datatype Queue = Queue(events: seq<Event>, backup: nat, expiring: nat, leak: nat)

  datatype Progress = Progress(event: Event, handled: int, replace: nat)

  /** Everything a wait looks at, apart from the semaphore. */
  datatype Scene = Scene(status: WsStatus, priorityKey: bool, objects: Objects, program: Program, queue: Queue,
                         requests: seq<Request>, sources: seq<Source>, progress: Progress)

  datatype Step = Step(scene: Scene, ended: EndedBy)

  // --------------------------------------------------------------- accounting

  /** The signals owed to what is ready, apart from the sources of the wait. */
  ghost function Owing(s: Scene): int {
    Bit(s.status.Ready? || s.status.Cancelled?) + Bit(s.priorityKey) + Completed(s.requests)
    + Bit(s.objects.timer) + |s.objects.foreign| + s.program.explicit + |s.queue.events| + s.queue.leak - s.queue.backup
  }

  /** What the semaphore stands at when every signal is accounted for. */
  ghost function Semaphore(s: Scene): int {
    Owing(s) + Unconsumed(s.sources) - s.progress.replace
  }

  predicate QueueIsNotEmpty(s: Scene) {
    |s.queue.events| > s.queue.backup
  }

  /** The user handler has nothing to do. */
  predicate UserIsIdle(s: Scene) {
    !QueueIsNotEmpty(s) && !s.status.Ready? && !s.status.Cancelled?
  }

  // -------------------------------------------------------------- environment

  /** A completion that is not possible is none. */
  ghost function Happened(s: Scene, c: Completion): Scene {
    match c
    case RequestCompletes(k) =>
      if k < |s.requests| then s.(requests := s.requests[k := s.requests[k].(completed := true)]) else s
    case SourceCompletes(k) =>
      if k < |s.sources| then s.(sources := s.sources[k := s.sources[k].(completed := true)]) else s
    case EventArrives(e) => if s.status == Pending then s.(status := Ready(e)) else s
    case PriorityKeyArrives => s.(priorityKey := true)
    case TimerExpires => s.(objects := s.objects.(timer := s.objects.timer || s.objects.timerActive))
    case ObjectIsReady(priority) => s.(objects := s.objects.(foreign := s.objects.foreign + [priority]))
  }

  ghost function AllHappened(s: Scene, cs: seq<Completion>): Scene {
    if cs == [] then s else Happened(AllHappened(s, cs[..|cs| - 1]), cs[|cs| - 1])
  }

  // ------------------------------------------------------------------- offers

  ghost function AfterPriorityKey(t: Terms, s: Scene, now: Circumstance): Step {
    var s1 := s.(priorityKey := false, program := s.program.(suspended := now.suspends));
    if now.suspends then Step(s1, NotEnded)
    else if t.required.terminatesSuspension then Step(s1, PriorityKey)
    else if !s.program.suspended then Step(s1, NotEnded)
    else if exists k :: 0 <= k < |s.sources| && s.sources[k].consumed then Step(s1, PriorityKey)
    else Step(s1.(progress := s.progress.(replace := 0), queue := s.queue.(backup := 0)), NotEnded)
  }

  /** The first active object of at least the given priority. */
  function FirstDue(foreign: seq<TInt>, minimum: TInt): (best: Option<nat>)
    ensures best.Some? ==> best.value < |foreign| && foreign[best.value] >= minimum
  {
    if foreign == [] then None
    else if foreign[0] >= minimum then Some(0)
    else
      var b := FirstDue(foreign[1..], minimum);
      if b.None? then None else Some(b.value + 1)
  }

  predicate TimerIsDue(timer: bool, minimum: TInt) {
    timer && minimum <= EActivePriorityDefault
  }

  /** The foreign object that runs, if it is not the timer's turn. */
  function ObjectToRun(foreign: seq<TInt>, timer: bool, minimum: TInt, runs: nat): (best: Option<nat>)
    ensures best.Some? ==> best.value < |foreign| && foreign[best.value] >= minimum
    ensures best.None? && !TimerIsDue(timer, minimum) ==> FirstDue(foreign, minimum).None?
  {
    if runs < |foreign| && foreign[runs] >= minimum then Some(runs)
    else if TimerIsDue(timer, minimum) then None
    else FirstDue(foreign, minimum)
  }

  /** Some active object of at least this priority is ready. */
  predicate Due(s: Scene, minimum: TInt) {
    TimerIsDue(s.objects.timer, minimum) || FirstDue(s.objects.foreign, minimum).Some?
  }

  function KeyEvents(codes: seq<int>): (r: seq<Event>)
    ensures |r| == |codes|
  {
    seq(|codes|, k requires 0 <= k < |codes| => Key(codes[k]))
  }

  /** One tick: the expiring prefix goes, and what was in the backup region of
      it will be signalled once too often. */
  ghost function Ticked(s: Scene): Scene {
    if s.queue.expiring > |s.queue.events| then s
    else s.(objects := s.objects.(timer := false), queue := OneTick(s.queue))
  }

  ghost function OneTick(q: Queue): Queue
    requires q.expiring <= |q.events|
  {
    q.(events := q.events[q.expiring..], expiring := |q.events| - q.expiring, leak := q.leak + Min(q.expiring, q.backup))
  }

  ghost function AfterObject(s: Scene, minimum: TInt, now: Circumstance): Scene {
    var k := ObjectToRun(s.objects.foreign, s.objects.timer, minimum, now.runs);
    if k.Some? then
      s.(objects := s.objects.(foreign := Remove(s.objects.foreign, k.value)), queue := Appended(s.queue, KeyEvents(now.fepAppends)))
    else Ticked(s)
  }

  predicate CompletesKeyRequest(p: Program, e: Event) {
    p.statPtr.Some? && (if p.keysOnly then e.Key? else e.Message? ==> e.isCreateOrOpen)
  }

  /** The KEYA or GETEVENTA completes with a signal for IOWAIT. */
  ghost function KeyRequestCompleted(p: Program): Program {
    p.(statPtr := None, explicit := p.explicit + 1)
  }

  ghost function Appended(q: Queue, events: seq<Event>): Queue {
    q.(events := q.events + events)
  }

  ghost function Consumed(q: Queue): Queue
    requires |q.events| > q.backup
  {
    q.(events := Remove(q.events, q.backup), expiring := q.expiring - Bit(q.backup < q.expiring))
  }

  ghost function BackedUp(q: Queue): Queue {
    q.(backup := q.backup + 1)
  }

  /** The next queued event is for the wait, or for a KEYA or GETEVENTA; or it is
      set aside, and then it does not count as handled. */
  ghost function AfterQueued(t: Terms, s: Scene): Step
    requires QueueIsNotEmpty(s)
  {
    var e := s.queue.events[s.queue.backup];
    var matches := !s.program.suspended && Matches(t.required.user, e);
    var completes := !s.program.suspended && !matches && CompletesKeyRequest(s.program, e);
    var wanted := matches || completes;
    Step(s.(program := if completes then KeyRequestCompleted(s.program) else s.program,
            queue := if wanted then Consumed(s.queue) else BackedUp(s.queue),
            progress := Progress(if s.program.suspended then s.progress.event else e,
                                 s.progress.handled - Bit(!wanted), s.progress.replace)),
         if matches then UserEvent else if completes && t.required.oplCompletion then KeyRequest else NotEnded)
  }

  /** A new event ends the wait it was for; else it completes the key request it
      was for; else it is queued, unless there is no memory for it. */
  ghost function AfterFresh(t: Terms, s: Scene, now: Circumstance): Step {
    var e := if s.status.Ready? then s.status.event else s.progress.event;
    var offered := !now.fepConsumes && !s.program.suspended;
    var matches := offered && Matches(t.required.user, e);
    var completes := offered && !matches && CompletesKeyRequest(s.program, e);
    var queued := !now.fepConsumes && !matches && !completes && !now.outOfMemory;
    Step(s.(status := Pending,
            program := if completes then KeyRequestCompleted(s.program) else s.program,
            queue := Appended(Appended(s.queue, KeyEvents(now.fepAppends)), if queued then [e] else []),
            progress := s.progress.(event := e)),
         if matches then UserEvent else if completes && t.required.oplCompletion then KeyRequest else NotEnded)
  }

  ghost function AfterUser(t: Terms, s: Scene, now: Circumstance): Step {
    if QueueIsNotEmpty(s) then AfterQueued(t, s) else AfterFresh(t, s, now)
  }

  ghost function AfterSource(s: Scene): Step
    requires BestSource(s.sources).Some?
  {
    var k := BestSource(s.sources).value;
    Step(s.(sources := s.sources[k := s.sources[k].(consumed := true)]), if s.program.suspended then NotEnded else AdditionalSource)
  }

  /** A signal taken for nobody, to be put back. */
  ghost function PassedOver(s: Scene): Scene {
    s.(progress := s.progress.(replace := s.progress.replace + 1))
  }

  ghost function AfterRequest(t: Terms, s: Scene): Step
    requires BestRequest(s.requests).Some?
  {
    if s.program.suspended || !t.required.oplCompletion then Step(PassedOver(s), NotEnded)
    else Step(s.(requests := Remove(s.requests, BestRequest(s.requests).value)), OplRequest)
  }

  /** A signal that belongs to no source is used up. */
  ghost function ExplicitTaken(s: Scene): Scene {
    if s.program.explicit > 0 then s.(program := s.program.(explicit := s.program.explicit - 1))
    else if s.queue.leak > 0 then s.(queue := s.queue.(leak := s.queue.leak - 1))
    else s
  }

  ghost function AfterFinal(t: Terms, s: Scene): Step {
    if t.maximum.Some? || (!s.program.suspended && t.required.oplCompletion) then Step(ExplicitTaken(s), ExplicitSignal)
    else Step(PassedOver(s), NotEnded)
  }

  function SourcePriority(s: Scene): Option<TInt> {
    var best := BestSource(s.sources);
    if best.Some? then Some(s.sources[best.value].priority) else None
  }

  function RequestPriority(s: Scene): Option<TInt> {
    var best := BestRequest(s.requests);
    if best.Some? then Some(s.requests[best.value].priority) else None
  }

  ghost function HandlersOf(s: Scene): (r: seq<Handler>)
    ensures |r| == 4
  {
    SetUpArrayOfEventHandlers(SourcePriority(s), RequestPriority(s))
  }

  /** A handler is there only for a source that is ready. */
  ghost predicate CanOffer(s: Scene, offer: OfferFunction) {
    && (offer == ToAdditionalSources ==> BestSource(s.sources).Some?)
    && (offer == ToOplRequest ==> BestRequest(s.requests).Some?)
  }

  ghost function AfterHandler(t: Terms, s: Scene, offer: OfferFunction, now: Circumstance): Step
    requires CanOffer(s, offer)
  {
    match offer
    case ToUserEventHandler => AfterUser(t, s, now)
    case ToAdditionalSources => AfterSource(s)
    case ToOplRequest => AfterRequest(t, s)
    case Final => AfterFinal(t, s)
  }

  /** The handler, after the active objects at least as important as it is. */
  ghost function AfterOffer(t: Terms, s: Scene, h: Handler, now: Circumstance): Step
    requires CanOffer(s, h.offer)
  {
    if Due(s, h.priority) then Step(AfterObject(s, h.priority, now), NotEnded) else AfterHandler(t, s, h.offer, now)
  }

  /** Nobody takes the signal of this offer. */
  ghost predicate PassesOn(s: Scene, h: Handler) {
    h.offer == ToUserEventHandler && UserIsIdle(s) && !Due(s, h.priority)
  }

  /** The first handler is never a final one, and the second is reached only
      past the user handler. */
  lemma {:induction false} HandlersCanOffer(s: Scene)
    ensures var hs := HandlersOf(s);
            && CanOffer(s, hs[0].offer) && CanOffer(s, hs[1].offer)
            && hs[0].priority >= EActivePriorityWsEvents && hs[0].offer != Final
            && (hs[0].offer == ToUserEventHandler ==> hs[1].offer != ToUserEventHandler)
            && (hs[0].offer == ToUserEventHandler && hs[1].offer == Final ==>
                  hs[1].priority == KMinTInt && BestSource(s.sources).None? && BestRequest(s.requests).None?)
  {
    FirstTwoHandlers(SourcePriority(s), RequestPriority(s));
  }

  ghost function AfterDispatch(t: Terms, s: Scene, now: Circumstance): Step {
    var hs := HandlersOf(s);
    HandlersCanOffer(s);
    AfterOffer(t, s, if PassesOn(s, hs[0]) then hs[1] else hs[0], now)
  }

  ghost function CompletionsNoted(s: Scene): Scene {
    s.(requests := Noted(s.requests))
  }

  ghost function OneMoreHandled(r: Step): Step {
    r.(scene := r.scene.(progress := r.scene.progress.(handled := r.scene.progress.handled + 1)))
  }

  /** One signal taken off the semaphore, down to the next wait. */
  ghost function AfterRound(t: Terms, s: Scene, now: Circumstance): Step {
    var s1 := CompletionsNoted(s);
    OneMoreHandled(if s.priorityKey then AfterPriorityKey(t, s1, now) else AfterDispatch(t, s1, now))
  }

  // --------------------------------------------------------------------- runs

  /** One circumstance: the thread runs only if the semaphore lets it. A poll
      that has handled as many events as it may takes the dummy signal back. */
  ghost function AfterPass(t: Terms, s: Scene, now: Circumstance): Step {
    var s1 := AllHappened(s, now.completions);
    if Semaphore(s1) <= 0 then Step(s1, NotEnded)
    else if t.maximum.Some? && s1.progress.handled >= t.maximum.value then Step(ExplicitTaken(s1), PollLimit)
    else AfterRound(t, s1, now)
  }

  ghost function AfterScript(t: Terms, s: Scene, script: seq<Circumstance>): Step
    decreases |script|
  {
    if script == [] then Step(s, NotEnded)
    else
      var r := AfterPass(t, s, script[0]);
      if r.ended == NotEnded then AfterScript(t, r.scene, script[1..]) else r
  }

  /** Before the loop: a wait for keys drops everything else from the queue, and
      a poll raises a dummy signal. */
  ghost function Opened(t: Terms, s: Scene): Scene {
    var s1 := if t.required.user == UserEventsKeysOnly then Purged(s) else s;
    s1.(program := s1.program.(explicit := s1.program.explicit + Bit(t.maximum.Some?)))
  }

  ghost function Purged(s: Scene): Scene {
    var n := if s.queue.expiring <= |s.queue.events| then s.queue.expiring else |s.queue.events|;
    s.(queue := s.queue.(events := KeysOf(s.queue.events), expiring := |KeysOf(s.queue.events[..n])|))
  }

  // ------------------------------------------------- what every wait maintains

  /** The combinations that the callers use. */
  ghost predicate Supported(t: Terms, s: Scene) {
    && (t.required.oplCompletion || t.maximum.Some? ==>
          t.required.user == UserEventsNone && !t.required.terminatesSuspension && s.sources == [])
    && (t.required.oplCompletion ==> t.maximum.None?)
  }

  /** Signals to put back are backed by explicit ones, unless a completed
      request of the OPL program, which is passed over once for every signal
      that comes along, sits in the array. */
  ghost predicate Credit(t: Terms, s: Scene) {
    && (s.progress.replace <= s.program.explicit + s.queue.leak || Completed(s.requests) > 0)
    && (t.maximum.Some? ==> s.progress.replace == 0 || Completed(s.requests) > 0)
    && (t.required.oplCompletion && !s.program.suspended ==> s.progress.replace == 0)
  }

  /** What is true before and after each turn of the loop. */
  ghost predicate Waits(t: Terms, s: Scene) {
    && Supported(t, s) && Credit(t, s)
    && (t.maximum.Some? ==> s.program.explicit > 0)
    && (t.required.terminatesSuspension ==> s.program.suspended)
  }

  /** What can end a wait, and what is then true. */
  ghost predicate EndsProperly(t: Terms, s: Scene, r: Step) {
    && |r.scene.sources| == |s.sources|
    && Supported(t, r.scene) && Credit(t, r.scene)
    && (r.ended == NotEnded ==> Waits(t, r.scene))
    && (r.ended != NotEnded && t.maximum.None? ==> !r.scene.program.suspended)
    && (r.ended == UserEvent ==> Matches(t.required.user, r.scene.progress.event))
    && (r.ended == KeyRequest || r.ended == OplRequest ==> t.required.oplCompletion)
    && (r.ended == ExplicitSignal ==> t.required.oplCompletion || t.maximum.Some?)
    && (r.ended == PollLimit ==> t.maximum.Some?)
    && (r.ended == AdditionalSource ==> s.sources != [])
    && (r.ended == PriorityKey ==> t.required.terminatesSuspension || s.sources != [])
  }

  /** An outstanding KEYA or GETEVENTA can only complete, and only IOWAIT ends
      because it did. */
  ghost predicate KeysStay(t: Terms, s: Scene, r: Step) {
    && (r.scene.program.statPtr == s.program.statPtr || r.scene.program.statPtr.None?)
    && (t.required.oplCompletion ==> (r.ended == KeyRequest <==> s.program.statPtr.Some? && r.scene.program.statPtr.None?))
  }

  /** Things may become ready, and nothing else changes. */
  ghost predicate OnlyReadier(s: Scene, s1: Scene) {
    && s1 == s.(status := s1.status, requests := s1.requests, sources := s1.sources, priorityKey := s1.priorityKey,
                objects := s1.objects)
    && |s1.sources| == |s.sources| && |s1.requests| == |s.requests|
  }

  lemma {:induction false} HappenedIsReadier(s: Scene, c: Completion)
    ensures OnlyReadier(s, Happened(s, c))
  {
  }

  lemma {:induction false} HappenedCompletes(s: Scene, c: Completion)
    ensures Completed(Happened(s, c).requests) >= Completed(s.requests)
  {
    if c.RequestCompletes? && c.request < |s.requests| {
      CompletedUpdate(s.requests, c.request, s.requests[c.request].(completed := true));
    }
  }

  lemma {:induction false} AllHappenedKeeps(s: Scene, cs: seq<Completion>)
    ensures OnlyReadier(s, AllHappened(s, cs))
    ensures Completed(AllHappened(s, cs).requests) >= Completed(s.requests)
  {
    if cs != [] {
      AllHappenedKeeps(s, cs[..|cs| - 1]);
      HappenedIsReadier(AllHappened(s, cs[..|cs| - 1]), cs[|cs| - 1]);
      HappenedCompletes(AllHappened(s, cs[..|cs| - 1]), cs[|cs| - 1]);
    }
  }

  lemma {:induction false} AfterPriorityKeyKeeps(t: Terms, s: Scene, now: Circumstance)
    requires Waits(t, s)
    ensures EndsProperly(t, s, AfterPriorityKey(t, s, now)) && KeysStay(t, s, AfterPriorityKey(t, s, now))
  {
  }

  lemma {:induction false} AfterObjectKeeps(t: Terms, s: Scene, minimum: TInt, now: Circumstance)
    requires Waits(t, s)
    ensures EndsProperly(t, s, Step(AfterObject(s, minimum, now), NotEnded))
    ensures AfterObject(s, minimum, now).program.statPtr == s.program.statPtr
  {
    hide Completed;
  }

  lemma {:induction false} AfterQueuedKeeps(t: Terms, s: Scene)
    requires Waits(t, s) && QueueIsNotEmpty(s)
    ensures EndsProperly(t, s, AfterQueued(t, s)) && KeysStay(t, s, AfterQueued(t, s))
  {
    hide Completed, Matches;
  }

  lemma {:induction false} AfterFreshKeeps(t: Terms, s: Scene, now: Circumstance)
    requires Waits(t, s)
    ensures EndsProperly(t, s, AfterFresh(t, s, now)) && KeysStay(t, s, AfterFresh(t, s, now))
  {
    hide Completed, KeyEvents;
  }

  lemma {:induction false} AfterSourceKeeps(t: Terms, s: Scene)
    requires Waits(t, s) && BestSource(s.sources).Some?
    ensures EndsProperly(t, s, AfterSource(s)) && KeysStay(t, s, AfterSource(s))
  {
    hide Completed;
  }

  lemma {:induction false} AfterRequestKeeps(t: Terms, s: Scene)
    requires Waits(t, s) && BestRequest(s.requests).Some?
    ensures EndsProperly(t, s, AfterRequest(t, s)) && KeysStay(t, s, AfterRequest(t, s))
  {
    BestRequestIsFirstOfHighest(s.requests);
  }

  /** With nothing ready, what is left on the semaphore is explicit signals and
      leaked ones. */
  lemma {:induction false} AfterFinalKeeps(t: Terms, s: Scene)
    requires Waits(t, s) && Semaphore(s) > 0 && !s.priorityKey && !s.objects.timer && s.objects.foreign == [] && UserIsIdle(s)
    requires BestSource(s.sources).None? && BestRequest(s.requests).None?
    ensures EndsProperly(t, s, AfterFinal(t, s)) && KeysStay(t, s, AfterFinal(t, s))
    ensures s.program.explicit + s.queue.leak > s.progress.replace
  {
    BestRequestIsFirstOfHighest(s.requests);
    BestSourceIsLastOfHighest(s.sources);
    hide Completed, Unconsumed;
  }

  /** Every object has at least the lowest priority there is. */
  lemma {:induction false} NothingDue(s: Scene)
    ensures s.objects.timer || s.objects.foreign != [] ==> Due(s, KMinTInt)
  {
    if s.objects.foreign != [] {
      assert s.objects.foreign[0] >= KMinTInt;
    }
  }

  lemma {:induction false} AfterOfferKeeps(t: Terms, s: Scene, h: Handler, now: Circumstance)
    requires Waits(t, s) && Semaphore(s) > 0 && !s.priorityKey && CanOffer(s, h.offer)
    requires h.offer == Final ==>
      h.priority == KMinTInt && UserIsIdle(s) && BestSource(s.sources).None? && BestRequest(s.requests).None?
    ensures EndsProperly(t, s, AfterOffer(t, s, h, now)) && KeysStay(t, s, AfterOffer(t, s, h, now))
  {
    hide Waits, Semaphore, EndsProperly, AfterObject, AfterQueued, AfterFresh, AfterSource, AfterRequest, AfterFinal, UserIsIdle;
    if Due(s, h.priority) {
      AfterObjectKeeps(t, s, h.priority, now);
    } else {
      match h.offer {
        case ToUserEventHandler =>
          if QueueIsNotEmpty(s) {
            AfterQueuedKeeps(t, s);
          } else {
            AfterFreshKeeps(t, s, now);
          }
        case ToAdditionalSources => AfterSourceKeeps(t, s);
        case ToOplRequest => AfterRequestKeeps(t, s);
        case Final =>
          NothingDue(s);
          AfterFinalKeeps(t, s);
      }
    }
  }

  lemma {:induction false} AfterDispatchKeeps(t: Terms, s: Scene, now: Circumstance)
    requires Waits(t, s) && Semaphore(s) > 0 && !s.priorityKey
    ensures EndsProperly(t, s, AfterDispatch(t, s, now)) && KeysStay(t, s, AfterDispatch(t, s, now))
  {
    var hs := HandlersOf(s);
    HandlersCanOffer(s);
    AfterOfferKeeps(t, s, if PassesOn(s, hs[0]) then hs[1] else hs[0], now);
  }

  lemma {:induction false} AfterRoundKeeps(t: Terms, s: Scene, now: Circumstance)
    requires Waits(t, s) && Semaphore(s) > 0
    ensures EndsProperly(t, s, AfterRound(t, s, now)) && KeysStay(t, s, AfterRound(t, s, now))
  {
    var s1 := CompletionsNoted(s);
    NotedKeeps(s.requests);
    if s.priorityKey {
      AfterPriorityKeyKeeps(t, s1, now);
    } else {
      AfterDispatchKeeps(t, s1, now);
    }
  }

  lemma {:induction false} AfterPassKeeps(t: Terms, s: Scene, now: Circumstance)
    requires Waits(t, s)
    ensures EndsProperly(t, s, AfterPass(t, s, now)) && KeysStay(t, s, AfterPass(t, s, now))
  {
    var s1 := AllHappened(s, now.completions);
    AllHappenedKeeps(s, now.completions);
    if Semaphore(s1) > 0 && !(t.maximum.Some? && s1.progress.handled >= t.maximum.value) {
      AfterRoundKeeps(t, s1, now);
    }
  }

  /** What the loop relies on when it goes round. */
  lemma {:induction false} PassIsSafe(t: Terms, s: Scene, now: Circumstance)
    requires Waits(t, s)
    ensures var s1 := AllHappened(s, now.completions);
            && (t.maximum.Some? ==> s1.program.explicit > 0)
            && (t.required.terminatesSuspension ==> s1.program.suspended)
            && (Semaphore(s1) > 0 ==> AfterRound(t, s1, now).ended != PollLimit)
    ensures var r := AfterPass(t, s, now);
            r.ended == NotEnded ==> Waits(t, r.scene)
  {
    AllHappenedKeeps(s, now.completions);
    AfterPassKeeps(t, s, now);
  }

  /** Over every script. */
  lemma {:induction false} AfterScriptEndsProperly(t: Terms, s: Scene, script: seq<Circumstance>)
    requires Waits(t, s)
    ensures EndsProperly(t, s, AfterScript(t, s, script)) && KeysStay(t, s, AfterScript(t, s, script))
    decreases |script|
  {
    if script != [] {
      AfterPassKeeps(t, s, script[0]);
      var r := AfterPass(t, s, script[0]);
      if r.ended == NotEnded {
        AfterScriptEndsProperly(t, r.scene, script[1..]);
      }
    }
  }

  lemma {:induction false} OpenedWaits(t: Terms, s: Scene)
    requires Supported(t, s) && s.progress.replace == 0 && (t.required.terminatesSuspension ==> s.program.suspended)
    ensures Waits(t, Opened(t, s))
  {
  }

  /** The same for the whole wait. */
  lemma {:induction false} WaitEndsProperly(t: Terms, s: Scene, script: seq<Circumstance>)
    requires Waits(t, Opened(t, s))
    ensures var r := AfterScript(t, Opened(t, s), script);
            EndsProperly(t, s, r) && KeysStay(t, s, r)
  {
    AfterScriptEndsProperly(t, Opened(t, s), script);
  }
}
